/**
 * The order of the checks tolerates concurrent progress, said of one node and one pass: from the
 * moment the pass begins to look at a node in flight, whatever its own worker completes meanwhile
 * and whatever happens to other nodes, the pass does not offer the node for another upgrade.
 */
module UpgradeProgress {
  import opened Common
  import opened UpgradeTypes
  import opened Classification
  import opened UpgradeRuns
  import NodeWorker

  /** A success move of a worker, or none. */
  predicate Progress(x: UpgradeState, y: UpgradeState) {
    || x == y
    || (x.Started? && (y.RebootInProgress? || y.InProgress?))
    || (x.RebootInProgress? && y.InProgress?)
  }

  /** The action leaves the premise for node n: a failed uncordon, or a store that is no success move. */
  predicate Disturbs(c: Config, s: System, n: string, a: Action) {
    match a
    case Look(f) => UnderScan(c, s, n) && !(f.uncordonMissingOk && f.uncordonReadyOk)
    case Work(w, _) =>
      && UnderScan(c, s, n) && w < |s.workers| && s.workers[w].node == n && s.workers[w].pc.Store?
      && !Progress(StateOf(s.status, n), s.workers[w].pc.state)
    case BeginPass => true
    case _ => false
  }

  /** No action of the run disturbs node n, and no other pass begins. */
  predicate Undisturbed(c: Config, s: System, n: string, actions: seq<Action>)
    requires Run(c, s, actions)
    decreases |actions|
  {
    actions == [] || (!Disturbs(c, s, n, actions[0]) && Undisturbed(c, After(c, s, actions[0]), n, actions[1..]))
  }

  /** What a node that was in flight at the first check can look like at a later one. */
  predicate OnTrack(check: Check, x: UpgradeState) {
    match check
    case InitLoad | RetryLoad | TimeoutLoad | TimeoutStore => InFlight(x)
    case FailedLoad => InFlight(x) || x.TimedOut?
    case MissingLoad | StartedLoad => InFlight(x)
    case RebootLoad => x.RebootInProgress? || x.InProgress?
    case ReadyLoad | ReadyStore(_) | NewTest | NewStore => x.InProgress?
    case InstallLoad | ProgressLoad | ProgressFailStore | ProgressReload => x.InProgress?
    case _ => false
  }

  lemma ProgressStaysOnTrack(check: Check, x: UpgradeState, y: UpgradeState)
    requires OnTrack(check, x) && Progress(x, y)
    ensures OnTrack(check, y)
  {
  }

  lemma CheckStaysOnTrack(check: Check, f: Facts, x: UpgradeState)
    requires OnTrack(check, x) && f.uncordonMissingOk && f.uncordonReadyOk
    ensures var (check', y) := Advance(check, f, x);
            if check'.Placed? then !check'.bucket.Candidate? else OnTrack(check', y)
  {
  }

  /** The pass has begun to look at the i-th node and has not offered it. */
  predicate NotOffered(c: Config, s: System, i: nat)
    requires i < |c.nodes|
  {
    var n := c.nodes[i];
    match s.pass
    case Idle => true
    case Admitting(_, _, _, admitted) => n !in admitted
    case Scanning(j, check, candidates, _, _) =>
      && i <= j && n !in candidates
      && (i == j ==> OnTrack(check, StateOf(s.status, n)))
  }

  lemma LookKeepsUnoffered(c: Config, s: System, i: nat, f: Facts)
    requires Distinct(c.nodes) && i < |c.nodes| && NotOffered(c, s, i)
    requires Possible(c, s, Look(f)) && !Disturbs(c, s, c.nodes[i], Look(f))
    ensures NotOffered(c, After(c, s, Look(f)), i)
  {
    if s.pass.i == i {
      CheckStaysOnTrack(s.pass.check, f, StateOf(s.status, c.nodes[i]));
    } else {
      assert c.nodes[s.pass.i] != c.nodes[i];
    }
  }

  lemma StepKeepsUnoffered(c: Config, s: System, i: nat, a: Action)
    requires Distinct(c.nodes) && i < |c.nodes| && NotOffered(c, s, i)
    requires Possible(c, s, a) && !Disturbs(c, s, c.nodes[i], a)
    ensures NotOffered(c, After(c, s, a), i)
  {
    match a
    case Look(f) => LookKeepsUnoffered(c, s, i, f);
    case Work(w, _) =>
      if UnderScan(c, s, c.nodes[i]) && s.pass.i == i && s.workers[w].node == c.nodes[i] && s.workers[w].pc.Store? {
        ProgressStaysOnTrack(s.pass.check, StateOf(s.status, c.nodes[i]), s.workers[w].pc.state);
      }
    case _ =>
  }

  lemma {:induction false} RunKeepsUnoffered(c: Config, s: System, i: nat, actions: seq<Action>)
    requires Distinct(c.nodes) && i < |c.nodes| && NotOffered(c, s, i)
    requires Run(c, s, actions) && Undisturbed(c, s, c.nodes[i], actions)
    ensures NotOffered(c, Final(c, s, actions), i)
    decreases |actions|
  {
    if actions != [] {
      StepKeepsUnoffered(c, s, i, actions[0]);
      RunKeepsUnoffered(c, After(c, s, actions[0]), i, actions[1..]);
    }
  }

  /**
   * A node that is in flight when the pass gets to it, whose worker only makes success moves while
   * the pass looks at it, is at no moment of that pass among the candidates or the admitted nodes;
   * the other nodes, their workers and the facts learned in each step may be anything.
   */
  lemma ProgressIsNeverOffered(c: Config, s: System, actions: seq<Action>)
    requires Distinct(c.nodes) && s.pass.Scanning? && s.pass.i < |c.nodes| && s.pass.check == InitLoad
    requires c.nodes[s.pass.i] !in s.pass.candidates && InFlight(StateOf(s.status, c.nodes[s.pass.i]))
    requires Run(c, s, actions) && Undisturbed(c, s, c.nodes[s.pass.i], actions)
    ensures var n, t := c.nodes[s.pass.i], Final(c, s, actions);
            && (t.pass.Scanning? ==> n !in t.pass.candidates)
            && (t.pass.Admitting? ==> n !in t.pass.admitted)
  {
    RunKeepsUnoffered(c, s, s.pass.i, actions);
  }
}
