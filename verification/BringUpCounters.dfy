/**
 * What a bring-up leaves in the wake-up counter. The steps count down before they
 * hand their command over, so an aborted run has used up groups that never went out.
 */
module BringUpCounters {
  import opened HciCommand
  import opened FirmwareFile
  import opened BringUp
  import opened BringUpPlan
  import opened BringUpRuns
  import opened BringUpImage
  import opened BringUpWake
  import opened BringUpEndings

  /**
   * How many steps are dispatched while `cmds` are to be sent. A completion with a
   * clean status and a buffer dispatches one; the first that sends nothing is the last.
   */
  function Dispatched(es: seq<Completion>, cmds: seq<Command>): (n: nat)
    ensures n <= |cmds|
    decreases |es|
  {
    if es == [] || cmds == [] then 0
    else if Sends(es[0], cmds[0]) then 1 + Dispatched(es[1..], cmds[1..])
    else if es[0].status == 0 && es[0].allocOk then 1
    else 0
  }

  /** How many of these steps fall on the last `groups` commands. */
  function GroupsTaken(es: seq<Completion>, cmds: seq<Command>, groups: nat): (n: nat)
    ensures n <= groups
  {
    var taken := Dispatched(es, cmds) - (|cmds| - groups);
    if taken > 0 then taken else 0
  }

  /** The groups that a run is still to take from the configuration. */
  function GroupsAhead(c: Config, g: Globals): nat {
    if g.manfCnt == 0 || Doomed(g) then 0
    else
      match g.state
      case SetManuData | SetWaveform => 0
      case SetWakeup => g.manfCnt / 6
      case SetBdAddr => if c.chip == W1 then 1 else g.manfCnt / 6
      case _ => if c.chip == W1U then 0 else if c.chip == W1 then 1 else g.manfCnt / 6
  }

  lemma WakePlanLength(c: Config, cnt: nat, manfCnt: nat, once: bool)
    requires c.Valid() && cnt + manfCnt <= 252 && WholeGroups(manfCnt)
    ensures |WakePlan(c, cnt, manfCnt, once)| == if manfCnt == 0 || once then 1 else manfCnt / 6
  {
    if manfCnt > 0 && !once {
      WakeChunksCount(c.manfData[cnt..cnt + manfCnt]);
    }
  }

  lemma AheadFits(c: Config, g: Globals)
    requires c.Valid() && Sound(c, g)
    ensures GroupsAhead(c, g) <= |Remaining(c, g)|
    ensures GroupsAhead(c, g) > 0 && GroupsAhead(c, g) == |Remaining(c, g)| <==>
            g.manfCnt > 0 && (g.state.SetBdAddr? || g.state.SetWakeup?)
  {
    if g.state.SetBdAddr? || g.state.SetWakeup? {
      WakePlanLength(c, g.cnt, g.manfCnt, g.state.SetBdAddr? && c.chip == W1);
    } else {
      FinalPlanLength(c, g.manfCnt);
    }
  }

  /** A step takes a group exactly if nothing but groups is left to send. */
  lemma StepTakes(c: Config, g: Globals, mallocOk: bool, nodeOk: bool)
    requires c.Valid() && Sound(c, g)
    ensures var o, ahead := Dispatch(c, g, mallocOk, nodeOk), GroupsAhead(c, g);
            var taken := if ahead > 0 && |Remaining(c, g)| == ahead then 1 else 0;
            && (o.Offer? ==> o.next.manfCnt == g.manfCnt - 6 * taken && GroupsAhead(c, o.next) == ahead - taken)
            && (o.Refuse? ==> o.next.manfCnt == g.manfCnt && taken == 0)
  {
    AheadFits(c, g);
    StepTakesIn(c, g, mallocOk, nodeOk);
  }

  lemma StepTakesIn(c: Config, g: Globals, mallocOk: bool, nodeOk: bool)
    requires c.Valid() && Sound(c, g)
    ensures var o, ahead := Dispatch(c, g, mallocOk, nodeOk), GroupsAhead(c, g);
            var taken := if g.manfCnt > 0 && (g.state.SetBdAddr? || g.state.SetWakeup?) then 1 else 0;
            && (o.Offer? ==> o.next.manfCnt == g.manfCnt - 6 * taken && GroupsAhead(c, o.next) == ahead - taken)
            && (o.Refuse? ==> o.next.manfCnt == g.manfCnt && taken == 0)
  {
  }

  lemma CompletionTakes(c: Config, v: View, e: Completion)
    requires Underway(c, v)
    ensures var v', rest, ahead := Complete(c, v, e), Remaining(c, v.g), GroupsAhead(c, v.g);
            var taken := if ahead > 0 && |rest| == ahead then 1 else 0;
            if rest != [] && Sends(e, rest[0]) then
              && Underway(c, v') && rest[1..] == Remaining(c, v'.g)
              && v'.g.manfCnt == v.g.manfCnt - 6 * taken && GroupsAhead(c, v'.g) == ahead - taken
            else
              && !Awaiting(v')
              && v'.g.manfCnt == v.g.manfCnt - if rest != [] && e.status == 0 && e.allocOk then 6 * taken else 0
  {
    var o := Dispatch(c, v.g, e.mallocOk, e.nodeOk);
    StepTakes(c, v.g, e.mallocOk, e.nodeOk);
    StepOnPlan(c, v.g, e.mallocOk, e.nodeOk);
    RefusesExactly(c, v.g, e.mallocOk, e.nodeOk);
    StepOnInputs(c, v, e);
    ReactGlobals(v.(led := v.led.Deliver()), v.led.next, e, o);
    AheadFits(c, v.g);
  }

  lemma {:induction false} CounterOnInputs(c: Config, v: View, es: seq<Completion>)
    requires Underway(c, v)
    ensures GroupsAhead(c, v.g) <= |Remaining(c, v.g)|
    ensures Run(c, v, es).g.manfCnt
         == v.g.manfCnt - 6 * GroupsTaken(es, Remaining(c, v.g), GroupsAhead(c, v.g))
    decreases |es|
  {
    AheadFits(c, v.g);
    if es != [] {
      var rest := Remaining(c, v.g);
      CompletionTakes(c, v, es[0]);
      if rest != [] && Sends(es[0], rest[0]) {
        CounterOnInputs(c, Complete(c, v, es[0]), es[1..]);
      }
    }
  }

  /** The groups of a whole bring-up. */
  function GroupsOf(c: Config, s: Start, manfCnt: nat): nat
    requires Startable(c, s)
  {
    if manfCnt == 0 || !SendsGroups(c, s) || NothingToDownload(c, s) then 0
    else if SendsOneGroup(c, s) then 1
    else manfCnt / 6
  }

  /** The counter after a bring-up that begins with `manfCnt`. */
  function CounterAfter(c: Config, s: Session, manfCnt: nat): (left: nat)
    requires Startable(c, s.start) && WholeGroups(manfCnt)
    ensures WholeGroups(left) && left <= manfCnt
  {
    if s.allocOk && s.xmitOk then
      manfCnt - 6 * GroupsTaken(s.es, Plan(c, s.start, manfCnt)[1..], GroupsOf(c, s.start, manfCnt))
    else manfCnt
  }

  lemma BeginGroups(c: Config, v0: View, s: Start)
    requires AtRest(c, v0) && Startable(c, s)
    ensures var v := Begin(c, v0, s, true, true);
            && Underway(c, v) && Remaining(c, v.g) == Plan(c, s, v0.g.manfCnt)[1..]
            && GroupsAhead(c, v.g) == GroupsOf(c, s, v0.g.manfCnt) && v.g.manfCnt == v0.g.manfCnt
  {
    BeginUnderway(c, v0, s);
  }

  lemma StartedRunCounts(c: Config, v0: View, s: Start, es: seq<Completion>)
    requires AtRest(c, v0) && Startable(c, s)
    ensures BringUpRun(c, v0, s, true, true, es).g.manfCnt
         == v0.g.manfCnt - 6 * GroupsTaken(es, Plan(c, s, v0.g.manfCnt)[1..], GroupsOf(c, s, v0.g.manfCnt))
  {
    BeginGroups(c, v0, s);
    CounterOnInputs(c, Begin(c, v0, s, true, true), es);
  }

  /**
   * The counter after every bring-up, finished or not: six less for each wake step
   * that a completion dispatched, whether or not its command was accepted.
   */
  lemma CounterAfterRun(c: Config, v0: View, s: Session)
    requires AtRest(c, v0) && Startable(c, s.start)
    ensures BringUpRun(c, v0, s.start, s.allocOk, s.xmitOk, s.es).g.manfCnt == CounterAfter(c, s, v0.g.manfCnt)
  {
    if s.allocOk && s.xmitOk {
      StartedRunCounts(c, v0, s.start, s.es);
    }
  }

  lemma {:induction false} CompletesDispatchesAll(es: seq<Completion>, cmds: seq<Command>)
    requires Completes(es, cmds)
    ensures Dispatched(es, cmds) == |cmds|
    decreases |es|
  {
    if cmds != [] {
      CompletesTail(es, cmds);
      CompletesDispatchesAll(es[1..], cmds[1..]);
    }
  }

  /** After a success, the counter is used up, except for what a downloading W1 does not send. */
  lemma SuccessLeaves(c: Config, s: Session, manfCnt: nat)
    requires Startable(c, s.start) && WholeGroups(manfCnt) && SendsGroups(c, s.start) && !NothingToDownload(c, s.start)
    requires s.allocOk && s.xmitOk && Completes(s.es, Plan(c, s.start, manfCnt)[1..])
    ensures CounterAfter(c, s, manfCnt) == LeftOver(c, s.start, manfCnt)
  {
    CompletesDispatchesAll(s.es, Plan(c, s.start, manfCnt)[1..]);
  }

  lemma {:induction false} DispatchedUpTo(es: seq<Completion>, cmds: seq<Command>, k: nat)
    requires k < |es| && k < |cmds| && forall i :: 0 <= i <= k ==> !cmds[i].WakeRecords?
    requires forall i :: 0 <= i < k ==> es[i].status == 0 && es[i].allocOk && es[i].xmitOk
    requires es[k].status == 0 && es[k].allocOk && !es[k].xmitOk
    ensures Dispatched(es, cmds) == k + 1
    decreases k
  {
    if k > 0 {
      DispatchedUpTo(es[1..], cmds[1..], k - 1);
    }
  }

  /**
   * A quick start with `n` configured groups that gets `k` of them out, and whose next
   * command is refused, has `n - k - 1` left: the refused group is gone without having
   * been sent.
   */
  lemma RefusedGroupIsGone(c: Config, v0: View, es: seq<Completion>, n: nat, k: nat)
    requires AtRest(c, v0) && c.Valid() && c.chip != W2 && v0.g.manfCnt == 6 * n && k < n && |es| > k
    requires forall i :: 0 <= i < k ==> es[i].status == 0 && es[i].allocOk && es[i].xmitOk
    requires es[k].status == 0 && es[k].allocOk && !es[k].xmitOk
    ensures BringUpRun(c, v0, QuickStart, true, true, es).g.manfCnt == 6 * (n - k - 1)
  {
    StartedRunCounts(c, v0, QuickStart, es);
    var later := Plan(c, QuickStart, 6 * n)[1..];
    assert later == WakeChunks(c.manfData[0..0 + 6 * n]);
    WakeChunksCount(c.manfData[0..0 + 6 * n]);
    DispatchedUpTo(es, later, k);
  }
}
