/**
 The component row that the audit stream and the control plane both write, with the database trigger that runs
 before every update of it.
 */
module Components {
  import opened CodeUnits
  import opened Options

  datatype Lifecycle = Draft | Review | Approved | Active | Suspended | Quarantined | Retired | Deregistered

  datatype Activation =
    | Inactive | Ready | ReadyForActivation | Active | Blocked
    | EnableRequested | DisableRequested | DisableUnconfirmed

  datatype Operational = Unknown | Disabled | Healthy | Degraded | Unhealthy | Maintenance | Quarantined | Retired

  datatype Monitoring = NotConfigured | Pending | Healthy | Degraded | Failed

  datatype Component = Component(
    lifecycle: Lifecycle, activation: Activation, operational: Operational, monitoring: Monitoring,
    enabled: bool, ingress: bool, pulse: bool, egress: bool,
    policyEpoch: int, activeRevision: Option<Text>)
  {
    predicate SameState(other: Component) {
      && lifecycle == other.lifecycle && activation == other.activation
      && operational == other.operational && monitoring == other.monitoring
      && enabled == other.enabled && ingress == other.ingress && pulse == other.pulse && egress == other.egress
    }

    /** The four traffic flags move together. */
    predicate FlagsAgree() {
      enabled == ingress == pulse == egress
    }

    function WithFlags(open: bool): Component {
      this.(enabled := open, ingress := open, pulse := open, egress := open)
    }
  }

  /**
   The row stored by `update component`: unless the transaction marked itself a health transition, a change of
   any state column replaces the epoch by the old epoch plus one.
   */
  function Stored(before: Component, after: Component, healthTransition: bool): Component {
    if !healthTransition && !before.SameState(after) then after.(policyEpoch := before.policyEpoch + 1) else after
  }

  /** The update that an audit conflict makes. */
  function Quarantine(c: Component): Component {
    Stored(c, c.WithFlags(false).(lifecycle := Lifecycle.Quarantined, activation := Activation.Blocked,
                                  operational := Operational.Quarantined), false)
  }
}
