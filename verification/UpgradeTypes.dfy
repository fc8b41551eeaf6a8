/** Upgrade states of a node and the upgrade policy of a DeviceConfig. */
module UpgradeTypes {
  import opened Common

  datatype UpgradeState =
    | Empty
    | NotStarted
    | Started
    | InstallInProgress
    | InstallComplete
    | InProgress
    | Complete
    | Failed
    | TimedOut
    | CordonFailed
    | UncordonFailed
    | DrainFailed
    | RebootInProgress
    | RebootFailed

  /** The states the manager treats as failed; RebootFailed is not one of them. */
  predicate IsFailed(s: UpgradeState) {
    s.Failed? || s.CordonFailed? || s.UncordonFailed? || s.DrainFailed? || s.TimedOut?
  }

  predicate InFlight(s: UpgradeState) {
    s.Started? || s.RebootInProgress? || s.InProgress?
  }

  /** A node in such a state is taken out of service, or stuck, because of an upgrade. */
  predicate Unavailable(s: UpgradeState) {
    InFlight(s) || IsFailed(s)
  }

  type StatusMap = map<string, UpgradeState>

  /** A node without an entry is in state Empty. */
  function StateOf(m: StatusMap, n: string): UpgradeState {
    if n in m then m[n] else Empty
  }

  /** maxUnavailableNodes: a number, a percentage, or a string that is neither. */
  datatype IntOrPercent = Absolute(n: int) | Percent(p: int) | Malformed

  /** maxParallel == 0 means that only maxUnavailable limits the pass. */
  datatype Limits = Limits(maxParallel: int, maxUnavailable: IntOrPercent)

  function CeilDiv(a: int, b: int): int
    requires b > 0
  {
    if a % b == 0 then a / b else a / b + 1
  }

  /** The number of nodes that maxUnavailable stands for when `total` nodes are selected. */
  function Scaled(v: IntOrPercent, total: nat): Option<int> {
    match v
    case Absolute(n) => Some(n)
    case Percent(p) => Some(CeilDiv(p * total, 100))
    case Malformed => None
  }

  /** The limit that applies to upgrades in progress, and whether it is already used up. */
  datatype Verdict = Verdict(allowed: int, violated: bool)

  function CheckPolicy(upgrading: int, failed: int, total: nat, limits: Limits): Verdict {
    match Scaled(limits.maxUnavailable, total)
    case None => Verdict(limits.maxParallel, true)
    case Some(max) =>
      var remaining := max - failed;
      var allowed := if limits.maxParallel == 0 then remaining else Min(limits.maxParallel, remaining);
      Verdict(allowed, allowed == 0 || upgrading >= allowed)
  }

  /** How many candidates the admission loop starts. */
  function Quota(upgrading: int, failed: int, total: nat, candidates: nat, limits: Limits): (q: nat)
    ensures q <= candidates
  {
    var v := CheckPolicy(upgrading, failed, total, limits);
    if candidates == 0 || v.violated then 0 else Max(0, Min(v.allowed - upgrading, candidates))
  }

  /**
   * Exact admission. With a well-formed policy the number of started nodes is the free room
   * below the smaller of the two limits, cut off at the number of candidates, and a pass that
   * starts anything stays within both limits.
   */
  lemma QuotaIsExact(upgrading: nat, failed: nat, total: nat, candidates: nat, limits: Limits)
    ensures var q := Quota(upgrading, failed, total, candidates, limits);
            match Scaled(limits.maxUnavailable, total)
            case None => q == 0
            case Some(max) =>
              && (limits.maxParallel == 0 ==> q == Min(Max(0, max - failed - upgrading), candidates))
              && (limits.maxParallel != 0 ==>
                    q == Min(Max(0, Min(limits.maxParallel - upgrading, max - failed - upgrading)), candidates))
              && (q > 0 ==> upgrading + q + failed <= max)
              && (q > 0 && limits.maxParallel != 0 ==> upgrading + q <= limits.maxParallel)
  {
  }

  /**
   * Rounding up: the scaled bound is the least integer that is at least p percent of the nodes. A number
   * stands for itself, and anything else for no bound at all.
   */
  lemma ScaledPercent(p: int, total: nat)
    ensures Scaled(Absolute(p), total) == Some(p) && Scaled(Malformed, total) == None
    ensures Scaled(Percent(p), total).Some?
    ensures var m := Scaled(Percent(p), total).value; p * total <= 100 * m < p * total + 100
    ensures p > 0 && total > 0 ==> Scaled(Percent(p), total).value > 0
  {
    var x := p * total;
    assert x == 100 * (x / 100) + x % 100;
    if p > 0 && total > 0 {
      assert x >= p by { Scale(p, total); }
    }
  }

  lemma Scale(p: int, total: nat)
    requires p > 0 && total > 0
    ensures p * total >= p
  {
  }

  /**
   * No deadlock from rounding: with a positive limit, nothing failed and nothing in progress, a
   * pass that has a candidate starts at least one node.
   */
  lemma PositiveLimitMakesProgress(total: nat, candidates: nat, limits: Limits)
    requires 0 < candidates <= total
    requires limits.maxParallel >= 0
    requires match limits.maxUnavailable
             case Absolute(n) => n > 0
             case Percent(p) => p > 0
             case Malformed => false
    ensures Quota(0, 0, total, candidates, limits) >= 1
  {
    if limits.maxUnavailable.Percent? {
      ScaledPercent(limits.maxUnavailable.p, total);
    }
  }
}
