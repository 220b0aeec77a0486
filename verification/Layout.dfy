/**
 The collision-free layout of dashboard nodes: nodes are taken from top to bottom, and each is pushed down until it
 keeps its distance from every node placed before it.
 */
module Layout {
  import opened CodeUnits

  const NODE_WIDTH := 294.0
  const NODE_HEIGHT := 430.0
  const GAP := 28.0
  const MARGIN := 24.0

  datatype Node = Node(id: int, x: real, y: real)

  datatype Box = Box(x: real, y: real)

  function Clamp(c: real): real {
    if c < MARGIN then MARGIN else c
  }

  /** Two boxes come closer than the gap on both axes. */
  predicate Overlaps(x: real, y: real, other: Box) {
    && x < other.x + NODE_WIDTH + GAP
    && x + NODE_WIDTH + GAP > other.x
    && y < other.y + NODE_HEIGHT + GAP
    && y + NODE_HEIGHT + GAP > other.y
  }

  predicate Free(x: real, y: real, placed: seq<Box>) {
    forall i :: 0 <= i < |placed| ==> !Overlaps(x, y, placed[i])
  }

  /** The lowest coordinate at or below `start` on the screen that keeps clear of all placed boxes. */
  ghost predicate IsLeastSlot(x: real, start: real, y: real, placed: seq<Box>) {
    && y >= start && Free(x, y, placed)
    && forall other :: start <= other < y ==> !Free(x, other, placed)
  }

  // ---------------------------------------------------------------------------------------------------------
  // Termination
  // ---------------------------------------------------------------------------------------------------------

  /** How many placed boxes can still push a candidate at height y: those it has not moved past. */
  function Ahead(y: real, placed: seq<Box>): nat {
    if placed == [] then 0
    else (if placed[0].y + NODE_HEIGHT + GAP > y then 1 else 0) + Ahead(y, placed[1..])
  }

  /** Moving past box i takes it, and no other, off the count for good. */
  lemma {:induction false} PushPasses(y: real, y': real, placed: seq<Box>, i: nat)
    requires i < |placed| && y < placed[i].y + NODE_HEIGHT + GAP <= y'
    ensures Ahead(y', placed) < Ahead(y, placed)
  {
    if i == 0 {
      AheadShrinks(y, y', placed[1..]);
    } else {
      PushPasses(y, y', placed[1..], i - 1);
    }
  }

  lemma {:induction false} AheadShrinks(y: real, y': real, placed: seq<Box>)
    requires y <= y'
    ensures Ahead(y', placed) <= Ahead(y, placed)
  {
    if placed != [] { AheadShrinks(y, y', placed[1..]); }
  }

  // ---------------------------------------------------------------------------------------------------------
  // Placing one node
  // ---------------------------------------------------------------------------------------------------------

  /** No coordinate in [start, y) is free. */
  ghost predicate NothingFreeBefore(x: real, start: real, y: real, placed: seq<Box>) {
    forall other :: start <= other < y ==> !Free(x, other, placed)
  }

  lemma PushSkipsNothing(x: real, start: real, y: real, placed: seq<Box>, i: nat)
    requires i < |placed| && Overlaps(x, y, placed[i]) && NothingFreeBefore(x, start, y, placed)
    ensures NothingFreeBefore(x, start, placed[i].y + NODE_HEIGHT + GAP, placed)
  {
    forall other | start <= other < placed[i].y + NODE_HEIGHT + GAP ensures !Free(x, other, placed) {
      if other >= y { assert Overlaps(x, other, placed[i]); }
    }
  }

  /** A candidate that lands just below some placed box, or where it started. */
  ghost predicate Lands(start: real, y: real, placed: seq<Box>) {
    y == start || exists i :: 0 <= i < |placed| && y == placed[i].y + NODE_HEIGHT + GAP
  }

  /** The nested loops of `collisionFreeNodes` for one node. */
  method Place(x: real, start: real, placed: seq<Box>) returns (y: real)
    ensures IsLeastSlot(x, start, y, placed)
    ensures Lands(start, y, placed)
  {
    y := start;
    var changed := true;
    while changed
      invariant y >= start && NothingFreeBefore(x, start, y, placed) && Lands(start, y, placed)
      invariant !changed ==> Free(x, y, placed)
      decreases Ahead(y, placed), changed
    {
      changed := false;
      ghost var before := y;
      for i := 0 to |placed|
        invariant y >= before >= start && NothingFreeBefore(x, start, y, placed) && Lands(start, y, placed)
        invariant changed ==> Ahead(y, placed) < Ahead(before, placed)
        invariant !changed ==> y == before && forall j :: 0 <= j < i ==> !Overlaps(x, y, placed[j])
      {
        if Overlaps(x, y, placed[i]) {
          PushSkipsNothing(x, start, y, placed, i);
          PushPasses(y, placed[i].y + NODE_HEIGHT + GAP, placed, i);
          y := placed[i].y + NODE_HEIGHT + GAP;
          changed := true;
        }
      }
    }
  }

  lemma LeastSlotIsUnique(x: real, start: real, y: real, z: real, placed: seq<Box>)
    requires IsLeastSlot(x, start, y, placed) && IsLeastSlot(x, start, z, placed)
    ensures y == z
  {
  }

  // ---------------------------------------------------------------------------------------------------------
  // The whole layout
  // ---------------------------------------------------------------------------------------------------------

  /** Top to bottom, then left to right, then by the collation rank of the id. */
  predicate Before(a: Node, b: Node) {
    a.y < b.y || (a.y == b.y && (a.x < b.x || (a.x == b.x && a.id <= b.id)))
  }

  function InsertNode(n: Node, ns: seq<Node>): (r: seq<Node>)
    ensures multiset(r) == multiset(ns) + multiset{n}
  {
    if ns == [] || Before(n, ns[0]) then [n] + ns
    else
      assert ns == [ns[0]] + ns[1..];
      [ns[0]] + InsertNode(n, ns[1..])
  }

  function SortNodes(ns: seq<Node>): (r: seq<Node>)
    ensures multiset(r) == multiset(ns)
  {
    if ns == [] then []
    else
      assert ns == [ns[0]] + ns[1..];
      InsertNode(ns[0], SortNodes(ns[1..]))
  }

  ghost predicate InOrder(ns: seq<Node>) {
    forall i, j :: 0 <= i < j < |ns| ==> Before(ns[i], ns[j])
  }

  lemma {:induction false} InsertKeepsOrder(n: Node, ns: seq<Node>)
    requires InOrder(ns)
    ensures InOrder(InsertNode(n, ns))
  {
    if ns != [] && !Before(n, ns[0]) {
      InsertKeepsOrder(n, ns[1..]);
      var rest := InsertNode(n, ns[1..]);
      forall j | 0 <= j < |rest| ensures Before(ns[0], rest[j]) {
        assert rest[j] in multiset(rest);
        if rest[j] != n { assert rest[j] in multiset(ns[1..]); }
      }
    }
  }

  lemma {:induction false} SortIsInOrder(ns: seq<Node>)
    ensures InOrder(SortNodes(ns))
  {
    if ns != [] {
      SortIsInOrder(ns[1..]);
      InsertKeepsOrder(ns[0], SortNodes(ns[1..]));
    }
  }

  /** Nodes are taken from top to bottom, those at one height from left to right, and those at one place by id. */
  lemma TakenTopToBottom(ns: seq<Node>, i: nat, j: nat)
    requires i < j < |SortNodes(ns)|
    ensures var a, b := SortNodes(ns)[i], SortNodes(ns)[j];
            && a.y <= b.y && (a.y == b.y ==> a.x <= b.x) && (a.y == b.y && a.x == b.x ==> a.id <= b.id)
  {
    SortIsInOrder(ns);
  }

  /** The comparator is a total order, so the same nodes sort the same way wherever they came from. */
  lemma {:induction false} OrderIsUnique(a: seq<Node>, b: seq<Node>)
    requires InOrder(a) && InOrder(b) && multiset(a) == multiset(b)
    ensures a == b
  {
    assert |a| == |multiset(a)| == |multiset(b)| == |b|;
    if a != [] {
      assert a[0] in multiset(b) && b[0] in multiset(a);
      FirstIsLeast(a, b[0]);
      FirstIsLeast(b, a[0]);
      RestOfBag(a);
      RestOfBag(b);
      OrderIsUnique(a[1..], b[1..]);
    }
  }

  lemma FirstIsLeast(ns: seq<Node>, n: Node)
    requires InOrder(ns) && n in multiset(ns)
    ensures ns != [] && Before(ns[0], n) && InOrder(ns[1..])
  {
    var i :| 0 <= i < |ns| && ns[i] == n;
  }

  lemma RestOfBag(ns: seq<Node>)
    requires ns != []
    ensures ns == [ns[0]] + ns[1..] && multiset(ns[1..]) == multiset(ns) - multiset{ns[0]}
  {
    assert ns == [ns[0]] + ns[1..];
  }

  function Boxes(ns: seq<Node>): (bs: seq<Box>)
    ensures |bs| == |ns|
    ensures forall i :: 0 <= i < |ns| ==> bs[i] == Box(ns[i].x, ns[i].y)
  {
    seq(|ns|, i requires 0 <= i < |ns| => Box(ns[i].x, ns[i].y))
  }

  /** Node k sits in its least slot under the nodes placed before it, at its own clamped x. */
  ghost predicate PlacedLeast(sorted: seq<Node>, result: seq<Node>, k: int)
    requires 0 <= k < |result| <= |sorted|
  {
    && result[k].id == sorted[k].id
    && result[k].x == Clamp(sorted[k].x)
    && IsLeastSlot(Clamp(sorted[k].x), Clamp(sorted[k].y), result[k].y, Boxes(result[..k]))
    && Lands(Clamp(sorted[k].y), result[k].y, Boxes(result[..k]))
  }

  ghost predicate IsLayout(nodes: seq<Node>, result: seq<Node>) {
    && |result| == |SortNodes(nodes)|
    && forall k :: 0 <= k < |result| ==> PlacedLeast(SortNodes(nodes), result, k)
  }

  /** `collisionFreeNodes` */
  method CollisionFreeNodes(nodes: seq<Node>) returns (result: seq<Node>)
    ensures IsLayout(nodes, result)
  {
    var placed: seq<Box> := [];
    var sorted := SortNodes(nodes);
    result := [];
    for k := 0 to |sorted|
      invariant |result| == k && placed == Boxes(result)
      invariant forall j :: 0 <= j < k ==> PlacedLeast(sorted, result, j)
    {
      var node := sorted[k];
      var x := Clamp(node.x);
      var y := Place(x, Clamp(node.y), placed);
      ghost var previous := result;
      placed := placed + [Box(x, y)];
      result := result + [Node(node.id, x, y)];
      assert result[..k] == previous;
      forall j | 0 <= j <= k ensures PlacedLeast(sorted, result, j) {
        if j < k {
          assert PlacedLeast(sorted, previous, j);
          assert result[..j] == previous[..j];
        }
      }
      assert placed == Boxes(result);
    }
  }

  // ---------------------------------------------------------------------------------------------------------
  // What a layout promises
  // ---------------------------------------------------------------------------------------------------------

  predicate Apart(a: Node, b: Node) {
    !Overlaps(a.x, a.y, Box(b.x, b.y))
  }

  /** At least the gap between the boxes of a and b, horizontally or vertically. */
  predicate SeparatedOnSomeAxis(a: Node, b: Node) {
    || a.x >= b.x + NODE_WIDTH + GAP || b.x >= a.x + NODE_WIDTH + GAP
    || a.y >= b.y + NODE_HEIGHT + GAP || b.y >= a.y + NODE_HEIGHT + GAP
  }

  function Ids(ns: seq<Node>): (ids: seq<int>)
    ensures |ids| == |ns| && forall i :: 0 <= i < |ns| ==> ids[i] == ns[i].id
  {
    seq(|ns|, i requires 0 <= i < |ns| => ns[i].id)
  }

  lemma IdsOfCons(n: Node, ns: seq<Node>)
    ensures multiset(Ids([n] + ns)) == multiset(Ids(ns)) + multiset{n.id}
  {
    assert Ids([n] + ns) == [n.id] + Ids(ns);
  }

  lemma {:induction false} InsertNodeIds(n: Node, ns: seq<Node>)
    ensures multiset(Ids(InsertNode(n, ns))) == multiset(Ids(ns)) + multiset{n.id}
  {
    if ns == [] || Before(n, ns[0]) {
      IdsOfCons(n, ns);
    } else {
      InsertNodeIds(n, ns[1..]);
      IdsOfCons(ns[0], InsertNode(n, ns[1..]));
      IdsOfCons(ns[0], ns[1..]);
      assert ns == [ns[0]] + ns[1..];
    }
  }

  lemma {:induction false} SortNodesIds(ns: seq<Node>)
    ensures multiset(Ids(SortNodes(ns))) == multiset(Ids(ns))
  {
    if ns != [] {
      SortNodesIds(ns[1..]);
      InsertNodeIds(ns[0], SortNodes(ns[1..]));
      IdsOfCons(ns[0], ns[1..]);
      assert ns == [ns[0]] + ns[1..];
    }
  }

  /** A layout keeps every node, separates every pair by the gap on some axis, and stays inside the margin. */
  lemma LayoutIsCollisionFree(nodes: seq<Node>, result: seq<Node>)
    requires IsLayout(nodes, result)
    ensures multiset(Ids(result)) == multiset(Ids(nodes))
    ensures forall j, k :: 0 <= j < k < |result| ==> SeparatedOnSomeAxis(result[j], result[k])
    ensures forall k :: 0 <= k < |result| ==> result[k].x >= MARGIN && result[k].y >= MARGIN
  {
    var sorted := SortNodes(nodes);
    SortNodesIds(nodes);
    forall k | 0 <= k < |result| ensures result[k].id == sorted[k].id && result[k].x >= MARGIN && result[k].y >= MARGIN {
      assert PlacedLeast(sorted, result, k);
    }
    assert Ids(result) == Ids(sorted);
    forall j, k | 0 <= j < k < |result| ensures SeparatedOnSomeAxis(result[j], result[k]) {
      assert PlacedLeast(sorted, result, k);
      assert Boxes(result[..k])[j] == Box(result[j].x, result[j].y);
    }
  }

  /** The k-th placed node sits at most k rows below the largest clamped start. */
  lemma {:induction false} LayoutIsCompact(nodes: seq<Node>, result: seq<Node>, k: nat, largest: real)
    requires IsLayout(nodes, result) && k < |result|
    requires forall n :: n in nodes ==> Clamp(n.y) <= largest
    ensures result[k].y <= largest + (NODE_HEIGHT + GAP) * k as real
    decreases k
  {
    var sorted := SortNodes(nodes);
    assert PlacedLeast(sorted, result, k);
    assert sorted[k] in multiset(sorted);
    assert sorted[k] in nodes;
    if result[k].y != Clamp(sorted[k].y) {
      var bs := Boxes(result[..k]);
      var i :| 0 <= i < |bs| && result[k].y == bs[i].y + NODE_HEIGHT + GAP;
      LayoutIsCompact(nodes, result, i, largest);
      RowsGrow(i, k);
    }
  }

  /** Every node keeps its horizontal place, but for the margin, and none moves up, but for the margin. */
  lemma NodesOnlyMoveDown(nodes: seq<Node>, result: seq<Node>, k: nat)
    requires IsLayout(nodes, result) && k < |result|
    ensures var n, m := SortNodes(nodes)[k], result[k];
            && m.id == n.id && m.y >= n.y
            && m.x == (if n.x < 24.0 then 24.0 else n.x)
            && (k == 0 ==> m.y == if n.y < 24.0 then 24.0 else n.y)
  {
    assert PlacedLeast(SortNodes(nodes), result, k);
    if k == 0 { FreeStartIsKept(result[k].x, Clamp(SortNodes(nodes)[k].y), result[k].y, Boxes(result[..k])); }
  }

  lemma RowsGrow(i: nat, k: nat)
    requires i < k
    ensures (NODE_HEIGHT + GAP) * i as real + (NODE_HEIGHT + GAP) <= (NODE_HEIGHT + GAP) * k as real
  {
    assert (i + 1) as real <= k as real;
  }

  /** A layout is determined by its input: the method has no freedom. */
  lemma {:induction false} LayoutIsUnique(nodes: seq<Node>, a: seq<Node>, b: seq<Node>, k: nat)
    requires IsLayout(nodes, a) && IsLayout(nodes, b) && k <= |a|
    ensures |a| == |b| && a[..k] == b[..k]
  {
    if k > 0 {
      LayoutIsUnique(nodes, a, b, k - 1);
      var sorted := SortNodes(nodes);
      assert PlacedLeast(sorted, a, k - 1) && PlacedLeast(sorted, b, k - 1);
      LeastSlotIsUnique(a[k - 1].x, Clamp(sorted[k - 1].y), a[k - 1].y, b[k - 1].y, Boxes(a[..k - 1]));
      assert a[..k] == a[..k - 1] + [a[k - 1]] && b[..k] == b[..k - 1] + [b[k - 1]];
    }
  }

  /** The order in which the nodes are handed over does not show in the layout. */
  lemma LayoutIgnoresInputOrder(nodes: seq<Node>, shuffled: seq<Node>, a: seq<Node>, b: seq<Node>)
    requires IsLayout(nodes, a) && IsLayout(shuffled, b) && multiset(nodes) == multiset(shuffled)
    ensures a == b
  {
    SortIsInOrder(nodes);
    SortIsInOrder(shuffled);
    OrderIsUnique(SortNodes(nodes), SortNodes(shuffled));
    LayoutIsUnique(nodes, a, b, |a|);
    assert a[..|a|] == a && b[..|b|] == b;
  }

  predicate Inside(n: Node) {
    n.x >= MARGIN && n.y >= MARGIN
  }

  /** Nodes that already keep their distance from each other, inside the margin. */
  ghost predicate AlreadySeparated(nodes: seq<Node>) {
    && (forall k :: 0 <= k < |nodes| ==> Inside(nodes[k]))
    && (forall j, k :: 0 <= j < |nodes| && 0 <= k < |nodes| && j != k ==> Apart(nodes[j], nodes[k]))
  }

  /** The same of a collection without repetitions, where no order is left. */
  ghost predicate Scattered(nodes: multiset<Node>) {
    && (forall n :: n in nodes ==> Inside(n) && nodes[n] == 1)
    && (forall a, b :: a in nodes && b in nodes && a != b ==> Apart(a, b))
  }

  lemma {:induction false} DistinctCountsOnce(ns: seq<Node>, n: Node)
    requires Distinct(ns)
    ensures n in ns ==> multiset(ns)[n] == 1
  {
    if ns != [] {
      DistinctCountsOnce(ns[1..], n);
      assert ns == [ns[0]] + ns[1..];
      assert multiset(ns) == multiset{ns[0]} + multiset(ns[1..]);
      assert n !in ns[1..] ==> multiset(ns[1..])[n] == 0;
    }
  }

  lemma CountedOnceIsDistinct(ns: seq<Node>, j: nat, k: nat)
    requires j < k < |ns| && multiset(ns)[ns[k]] == 1
    ensures ns[j] != ns[k]
  {
    assert ns == ns[..k] + ns[k..];
    assert multiset(ns) == multiset(ns[..k]) + multiset(ns[k..]);
    assert ns[k..][0] == ns[k] && ns[k] in multiset(ns[k..]);
    assert ns[..k][j] == ns[j] && ns[j] in multiset(ns[..k]);
  }

  lemma SeparatedIsScattered(nodes: seq<Node>)
    requires AlreadySeparated(nodes)
    ensures Scattered(multiset(nodes))
  {
    assert Distinct(nodes) by {
      forall i, j | 0 <= i < j < |nodes| ensures nodes[i] != nodes[j] {
        assert Apart(nodes[i], nodes[j]);
      }
    }
    forall n | n in multiset(nodes) ensures Inside(n) && multiset(nodes)[n] == 1 {
      assert n in nodes;
      DistinctCountsOnce(nodes, n);
    }
    forall a, b | a in multiset(nodes) && b in multiset(nodes) && a != b ensures Apart(a, b) {
      assert a in nodes && b in nodes;
      var j :| 0 <= j < |nodes| && nodes[j] == a;
      var k :| 0 <= k < |nodes| && nodes[k] == b;
      assert Apart(nodes[j], nodes[k]);
    }
  }

  /** Laying out an already separated layout moves nothing. */
  lemma LayoutIsIdempotent(nodes: seq<Node>, result: seq<Node>)
    requires IsLayout(nodes, result) && AlreadySeparated(nodes)
    ensures result == SortNodes(nodes) && multiset(result) == multiset(nodes)
  {
    SeparatedIsScattered(nodes);
    NothingMoves(SortNodes(nodes), result, |result|);
    assert result[..|result|] == result;
  }

  lemma FreeWhereItIs(sorted: seq<Node>, k: nat)
    requires Scattered(multiset(sorted)) && k < |sorted|
    ensures Free(sorted[k].x, sorted[k].y, Boxes(sorted[..k]))
  {
    var n := sorted[k];
    assert n in multiset(sorted);
    forall i | 0 <= i < k ensures !Overlaps(n.x, n.y, Boxes(sorted[..k])[i]) {
      CountedOnceIsDistinct(sorted, i, k);
      assert sorted[i] in multiset(sorted) && Apart(n, sorted[i]);
    }
  }

  lemma FreeStartIsKept(x: real, start: real, y: real, placed: seq<Box>)
    requires IsLeastSlot(x, start, y, placed) && Free(x, start, placed)
    ensures y == start
  {
  }

  lemma StaysPut(sorted: seq<Node>, result: seq<Node>, k: nat)
    requires k < |result| <= |sorted| && PlacedLeast(sorted, result, k)
    requires Scattered(multiset(sorted)) && result[..k] == sorted[..k]
    ensures result[k] == sorted[k]
  {
    assert sorted[k] in multiset(sorted);
    FreeWhereItIs(sorted, k);
    FreeStartIsKept(sorted[k].x, sorted[k].y, result[k].y, Boxes(result[..k]));
  }

  lemma {:induction false} NothingMoves(sorted: seq<Node>, result: seq<Node>, k: nat)
    requires k <= |result| <= |sorted| && Scattered(multiset(sorted))
    requires forall i :: 0 <= i < |result| ==> PlacedLeast(sorted, result, i)
    ensures result[..k] == sorted[..k]
  {
    if k > 0 {
      NothingMoves(sorted, result, k - 1);
      StaysPut(sorted, result, k - 1);
      assert result[..k] == result[..k - 1] + [result[k - 1]] && sorted[..k] == sorted[..k - 1] + [sorted[k - 1]];
    }
  }

  /** The output of the layout is itself separated, so laying it out again moves nothing. */
  lemma SecondLayoutMovesNothing(nodes: seq<Node>, result: seq<Node>, again: seq<Node>)
    requires IsLayout(nodes, result) && IsLayout(result, again)
    ensures multiset(again) == multiset(result)
  {
    LayoutIsCollisionFree(nodes, result);
    forall j, k | 0 <= j < |result| && 0 <= k < |result| && j != k ensures Apart(result[j], result[k]) {
      assert SeparatedOnSomeAxis(result[if j < k then j else k], result[if j < k then k else j]);
    }
    LayoutIsIdempotent(result, again);
  }
}
