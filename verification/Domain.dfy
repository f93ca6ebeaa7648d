// Configuration entities shared by the daemon's modules (cmd/daemon/config.go, lines 86-98).
module Domain {
  datatype Option<+T> = None | Some(value: T) {
    function Or(default: T): T {
      if Some? then value else default
    }
  }

  // Instants in nanoseconds.
  type Time = int

  function Seconds(n: int): int { n * 1_000_000_000 }

  // Restart policies that loadConfig accepts; the empty string is Unset.
  datatype Policy = Unset | No | OnFailure | UnlessStopped | Always

  // One managed systemd unit, as listed in services.yaml.
  datatype Service = Service(
    unit: string,
    enabled: bool,
    order: int,
    bootDelay: int,
    dependsOn: seq<string>,
    requiresMounts: seq<string>,
    restart: Policy,
    restartDelay: int,
    iconURL: string,
    homepageURL: string)

  function Units(services: seq<Service>): (units: seq<string>)
    ensures |units| == |services|
    ensures forall i :: 0 <= i < |services| ==> units[i] == services[i].unit
  {
    seq(|services|, i requires 0 <= i < |services| => services[i].unit)
  }

  function Elements(units: seq<string>): set<string> { set u | u in units }

  ghost predicate Distinct<T>(xs: seq<T>) {
    forall i, j :: 0 <= i < j < |xs| ==> xs[i] != xs[j]
  }
}
