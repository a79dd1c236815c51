/**
 * One bring-up after the other, hangs included. A buffer lost to an earlier run
 * stays owned for ever and changes nothing else, so what holds of runs from rest
 * holds of every run that begins when the one before is over.
 */
module BringUpSessions {
  import opened Bytes
  import opened HciCommand
  import opened VendorCallbacks
  import opened BringUp
  import opened BringUpPlan
  import opened BringUpRuns
  import opened BringUpWake
  import opened BringUpEndings
  import opened BringUpCounters

  // ----- lost buffers change nothing -----

  /** A bring-up may begin: nothing is in flight and every buffer is accounted for, though some may be lost. */
  ghost predicate Settled(v: View) {
    v.led.InFlight() == 0 && v.led.Balanced() && WholeGroups(v.g.manfCnt)
  }

  /** The same ledger, had the buffers `lost` never been disposed of. */
  ghost function Losing(l: Ledger, lost: set<nat>): Ledger {
    l.(owned := l.owned + lost, disposed := l.disposed - multiset(lost))
  }

  ghost function LosingIn(v: View, lost: set<nat>): View {
    View(v.g, Losing(v.led, lost))
  }

  /** They are old, and the run does not own them. */
  ghost predicate Apart(l: Ledger, lost: set<nat>) {
    lost !! l.owned && forall id :: id in lost ==> id < l.next
  }

  lemma LosingAcquire(l: Ledger, lost: set<nat>)
    requires Apart(l, lost)
    ensures Losing(l.Acquire(), lost) == Losing(l, lost).Acquire() && Apart(l.Acquire(), lost)
  {
    assert l.owned + {l.next} + lost == l.owned + lost + {l.next};
  }

  lemma LosingRelease(l: Ledger, lost: set<nat>, id: nat)
    requires Apart(l, lost) && id !in lost
    ensures Losing(l.Release(id), lost) == Losing(l, lost).Release(id) && Apart(l.Release(id), lost)
  {
    assert l.owned - {id} + lost == l.owned + lost - {id};
    assert l.disposed + multiset{id} - multiset(lost) == l.disposed - multiset(lost) + multiset{id};
  }

  lemma LosingTransmit(l: Ledger, lost: set<nat>, id: nat, cmd: Command, accepted: bool)
    requires Apart(l, lost) && id !in lost
    ensures Losing(l.Transmit(id, cmd, accepted), lost) == Losing(l, lost).Transmit(id, cmd, accepted)
    ensures Apart(l.Transmit(id, cmd, accepted), lost)
  {
    LosingRelease(l, lost, id);
  }

  lemma LosingPerform(v: View, buf: nat, o: Outcome, xmitOk: bool, lost: set<nat>)
    requires Apart(v.led, lost) && buf !in lost
    ensures var w := Perform(v, buf, o, xmitOk);
            Perform(LosingIn(v, lost), buf, o, xmitOk) == LosingIn(w, lost) && Apart(w.led, lost)
  {
    match o
    case Offer(cmd, _, _) => LosingTransmit(v.led, lost, buf, cmd, xmitOk);
    case Refuse(_) =>
    case Finish => LosingRelease(v.led, lost, buf);
  }

  lemma LosingReact(v: View, evt: nat, e: Completion, o: Outcome, lost: set<nat>)
    requires Apart(v.led, lost) && evt !in lost
    ensures var w := React(v, evt, e, o);
            React(LosingIn(v, lost), evt, e, o) == LosingIn(w, lost) && Apart(w.led, lost)
  {
    if e.status != 0 || !e.allocOk {
      LosingRelease(v.led, lost, evt);
    } else {
      var buf := v.led.next;
      LosingAcquire(v.led, lost);
      var v1 := Perform(v.(led := v.led.Acquire()), buf, o, e.xmitOk);
      LosingPerform(v.(led := v.led.Acquire()), buf, o, e.xmitOk, lost);
      LosingRelease(v1.led, lost, evt);
      LosingRelease(v1.led.Release(evt), lost, buf);
    }
  }

  lemma LosingComplete(c: Config, v: View, e: Completion, lost: set<nat>)
    requires c.Valid() && Sound(c, v.g) && Apart(v.led, lost)
    ensures var w := Complete(c, v, e);
            Complete(c, LosingIn(v, lost), e) == LosingIn(w, lost) && Apart(w.led, lost)
  {
    LosingAcquire(v.led, lost);
    LosingReact(v.(led := v.led.Deliver()), v.led.next, e, Dispatch(c, v.g, e.mallocOk, e.nodeOk), lost);
  }

  lemma {:induction false} LosingRun(c: Config, v: View, es: seq<Completion>, lost: set<nat>)
    requires c.Valid() && v.led.InFlight() <= 1 && (Awaiting(v) ==> Sound(c, v.g)) && Apart(v.led, lost)
    ensures var w := Run(c, v, es);
            Run(c, LosingIn(v, lost), es) == LosingIn(w, lost) && Apart(w.led, lost)
    decreases |es|
  {
    if es != [] && Awaiting(v) {
      CompletionKeepsSound(c, v, es[0]);
      LosingComplete(c, v, es[0], lost);
      LosingRun(c, Complete(c, v, es[0]), es[1..], lost);
    }
  }

  /** The view of a library that has forgotten its lost buffers. */
  ghost function WrittenOff(v: View): View {
    View(v.g.(state := IDLE), v.led.(owned := {}, disposed := v.led.disposed + multiset(v.led.owned)))
  }

  lemma WrittenOffAtRest(c: Config, v: View)
    requires Settled(v)
    ensures AtRest(c, WrittenOff(v)) && Apart(WrittenOff(v).led, v.led.owned)
    ensures Losing(WrittenOff(v).led, v.led.owned) == v.led
  {
    var l := v.led;
    assert l.disposed + multiset(l.owned) - multiset(l.owned) == l.disposed;
  }

  lemma LosingBegin(c: Config, v: View, s: Start, allocOk: bool, xmitOk: bool)
    requires Settled(v) && Startable(c, s)
    ensures var w := Begin(c, WrittenOff(v), s, allocOk, xmitOk);
            Begin(c, v, s, allocOk, xmitOk) == LosingIn(w, v.led.owned) && Apart(w.led, v.led.owned)
  {
    var u, lost := WrittenOff(v), v.led.owned;
    WrittenOffAtRest(c, v);
    if allocOk {
      var (g, cmd) := Prepared(c, v.g, s);
      assert Prepared(c, u.g, s) == (g, cmd);
      LosingAcquire(u.led, lost);
      LosingTransmit(u.led.Acquire(), lost, u.led.next, cmd, xmitOk);
    }
  }

  /** A bring-up after any others is the bring-up from rest, with the lost buffers still owned. */
  lemma LosingBringUp(c: Config, v: View, s: Start, allocOk: bool, xmitOk: bool, es: seq<Completion>)
    requires Settled(v) && Startable(c, s)
    ensures AtRest(c, WrittenOff(v))
    ensures var w := BringUpRun(c, WrittenOff(v), s, allocOk, xmitOk, es);
            BringUpRun(c, v, s, allocOk, xmitOk, es) == LosingIn(w, v.led.owned) && Apart(w.led, v.led.owned)
  {
    WrittenOffAtRest(c, v);
    LosingBegin(c, v, s, allocOk, xmitOk);
    BeginKeepsSound(c, WrittenOff(v), s, allocOk, xmitOk);
    LosingRun(c, Begin(c, WrittenOff(v), s, allocOk, xmitOk), es, v.led.owned);
  }

  // ----- one more bring-up -----

  /** What a bring-up is meant to send after its first command. */
  function Later(c: Config, s: Session, manfCnt: nat): seq<Command>
    requires Startable(c, s.start) && WholeGroups(manfCnt)
  {
    Plan(c, s.start, manfCnt)[1..]
  }

  /** It is over: not every completion so far sent the next command, or one came after the last. */
  ghost predicate Finishes(c: Config, s: Session, manfCnt: nat)
    requires Startable(c, s.start) && WholeGroups(manfCnt)
  {
    !(s.allocOk && s.xmitOk && |s.es| <= |Later(c, s, manfCnt)| && AllSend(s.es, Later(c, s, manfCnt)))
  }

  ghost predicate Succeeds(c: Config, s: Session, manfCnt: nat)
    requires Startable(c, s.start) && WholeGroups(manfCnt)
  {
    s.allocOk && s.xmitOk && !NothingToDownload(c, s.start) && Completes(s.es, Later(c, s, manfCnt))
  }

  ghost predicate Hangs(c: Config, s: Session)
    requires Startable(c, s.start)
  {
    HangsOn(c, s.start, s.allocOk, s.xmitOk, s.es)
  }

  /** What a finished bring-up reports. */
  ghost function Verdict(c: Config, s: Session, manfCnt: nat): seq<bool>
    requires Startable(c, s.start) && WholeGroups(manfCnt)
  {
    if Hangs(c, s) then [] else [Succeeds(c, s, manfCnt)]
  }

  ghost function RunOf(c: Config, v: View, s: Session): View
    requires Settled(v) && Startable(c, s.start)
  {
    BringUpRun(c, v, s.start, s.allocOk, s.xmitOk, s.es)
  }

  /** What a finished bring-up adds to the account, whatever went before it. */
  ghost predicate Accounted(c: Config, v: View, s: Session, w: View)
    requires Startable(c, s.start) && WholeGroups(v.g.manfCnt)
  {
    && Settled(w)
    && w.led.verdicts == v.led.verdicts + Verdict(c, s, v.g.manfCnt)
    && v.led.owned <= w.led.owned && |w.led.owned| == |v.led.owned| + (if Hangs(c, s) then 1 else 0)
    && w.g.manfCnt == CounterAfter(c, s, v.g.manfCnt)
    && ImagesAccounted(c, v, s, w)
  }

  lemma VerdictFromRest(c: Config, u: View, s: Session)
    requires AtRest(c, u) && Startable(c, s.start) && Finishes(c, s, u.g.manfCnt)
    ensures var w := BringUpRun(c, u, s.start, s.allocOk, s.xmitOk, s.es);
            !Awaiting(w) && w.led.verdicts == u.led.verdicts + Verdict(c, s, u.g.manfCnt)
  {
    var w := BringUpRun(c, u, s.start, s.allocOk, s.xmitOk, s.es);
    OutcomeOnInputs(c, u, s.start, s.allocOk, s.xmitOk, s.es);
    assert w.led.verdicts == u.led.verdicts + [true] <==> Succeeds(c, s, u.g.manfCnt);
    if Hangs(c, s) {
      assert Verdict(c, s, u.g.manfCnt) == [];
    } else {
      assert w.led.verdicts == u.led.verdicts + [Succeeds(c, s, u.g.manfCnt)];
    }
  }

  lemma OwnedFromRest(c: Config, u: View, s: Session)
    requires AtRest(c, u) && Startable(c, s.start)
    requires !Awaiting(BringUpRun(c, u, s.start, s.allocOk, s.xmitOk, s.es))
    ensures var w := BringUpRun(c, u, s.start, s.allocOk, s.xmitOk, s.es);
            w.led.InFlight() == 0 && w.led.Balanced() && |w.led.owned| == if Hangs(c, s) then 1 else 0
  {
    RunFollowsPlan(c, u, s.start, s.allocOk, s.xmitOk, s.es);
    OneVerdictExactOwnership(c, u, s.start, s.allocOk, s.xmitOk, s.es);
    LosesBufferExactly(c, u, s.start, s.allocOk, s.xmitOk, s.es);
  }

  lemma FromRest(c: Config, u: View, s: Session)
    requires AtRest(c, u) && Startable(c, s.start) && Finishes(c, s, u.g.manfCnt)
    ensures Accounted(c, u, s, BringUpRun(c, u, s.start, s.allocOk, s.xmitOk, s.es))
  {
    VerdictFromRest(c, u, s);
    OwnedFromRest(c, u, s);
    BringUpImages(c, u, s);
    CounterAfterRun(c, u, s);
  }

  /** The account of a bring-up from rest is its account with buffers lost before. */
  lemma LosingAccounted(c: Config, v: View, s: Session, w: View)
    requires Settled(v) && Startable(c, s.start) && Accounted(c, WrittenOff(v), s, w) && Apart(w.led, v.led.owned)
    requires forall id :: id in v.led.owned ==> id < w.led.next
    ensures Accounted(c, v, s, LosingIn(w, v.led.owned))
  {
    var lost := v.led.owned;
    assert forall id :: id in lost ==> w.led.disposed[id] == 1;
    assert |w.led.owned + lost| == |w.led.owned| + |lost|;
  }

  /**
   * A bring-up after any others, hangs included: it reports once unless it hangs,
   * and then one more buffer is lost; the images and the counter are accounted for.
   */
  lemma BringUpAccounted(c: Config, v: View, s: Session)
    requires Settled(v) && Startable(c, s.start) && Finishes(c, s, v.g.manfCnt)
    ensures Accounted(c, v, s, RunOf(c, v, s))
  {
    var u := WrittenOff(v);
    LosingBringUp(c, v, s.start, s.allocOk, s.xmitOk, s.es);
    FromRest(c, u, s);
    LosingAccounted(c, v, s, BringUpRun(c, u, s.start, s.allocOk, s.xmitOk, s.es));
  }

  // ----- any sequence -----

  /** Bring-ups in sequence; each begins when the one before is over. */
  ghost function RunSessions(c: Config, v: View, ss: seq<Session>): View
    requires forall i :: 0 <= i < |ss| ==> Startable(c, ss[i].start)
    decreases |ss|
  {
    if ss == [] || !Settled(v) then v else RunSessions(c, RunOf(c, v, ss[0]), ss[1..])
  }

  /** Every one of them is finished when the next begins. */
  ghost predicate AllFinish(c: Config, manfCnt: nat, ss: seq<Session>)
    requires WholeGroups(manfCnt) && forall i :: 0 <= i < |ss| ==> Startable(c, ss[i].start)
    decreases |ss|
  {
    ss == [] || (Finishes(c, ss[0], manfCnt) && AllFinish(c, CounterAfter(c, ss[0], manfCnt), ss[1..]))
  }

  ghost function Verdicts(c: Config, manfCnt: nat, ss: seq<Session>): seq<bool>
    requires WholeGroups(manfCnt) && forall i :: 0 <= i < |ss| ==> Startable(c, ss[i].start)
    decreases |ss|
  {
    if ss == [] then [] else Verdict(c, ss[0], manfCnt) + Verdicts(c, CounterAfter(c, ss[0], manfCnt), ss[1..])
  }

  ghost function HangCount(c: Config, ss: seq<Session>): nat
    requires forall i :: 0 <= i < |ss| ==> Startable(c, ss[i].start)
    decreases |ss|
  {
    if ss == [] then 0 else (if Hangs(c, ss[0]) then 1 else 0) + HangCount(c, ss[1..])
  }

  function CounterAfterAll(c: Config, manfCnt: nat, ss: seq<Session>): nat
    requires WholeGroups(manfCnt) && forall i :: 0 <= i < |ss| ==> Startable(c, ss[i].start)
    decreases |ss|
  {
    if ss == [] then manfCnt else CounterAfterAll(c, CounterAfter(c, ss[0], manfCnt), ss[1..])
  }

  /** The account of a sequence of bring-ups that began at `v` and ended at `w`. */
  ghost predicate AllAccounted(c: Config, v: View, ss: seq<Session>, w: View)
    requires WholeGroups(v.g.manfCnt) && forall i :: 0 <= i < |ss| ==> Startable(c, ss[i].start)
  {
    && Settled(w)
    && w.led.verdicts == v.led.verdicts + Verdicts(c, v.g.manfCnt, ss)
    && |Verdicts(c, v.g.manfCnt, ss)| + HangCount(c, ss) == |ss|
    && v.led.owned <= w.led.owned && |w.led.owned| == |v.led.owned| + HangCount(c, ss)
    && w.g.manfCnt == CounterAfterAll(c, v.g.manfCnt, ss)
    && w.g.fwLost == v.g.fwLost + ImagesLost(c, v.g.fwLive, ss)
  }

  lemma OneMoreAccounted(c: Config, v: View, ss: seq<Session>, v': View, w: View)
    requires Settled(v) && ss != [] && forall i :: 0 <= i < |ss| ==> Startable(c, ss[i].start)
    requires Accounted(c, v, ss[0], v') && AllAccounted(c, v', ss[1..], w)
    ensures AllAccounted(c, v, ss, w)
  {
    var first, rest := Verdict(c, ss[0], v.g.manfCnt), Verdicts(c, v'.g.manfCnt, ss[1..]);
    assert v.led.verdicts + first + rest == v.led.verdicts + (first + rest);
  }

  /**
   * Over any sequence of finished bring-ups, failed and hung ones included: the
   * verdicts are theirs, in order; verdicts and hangs together are as many as
   * bring-ups; one buffer is lost for each hang and no other; and the images lost
   * and the counter left are those that the inputs determine.
   */
  lemma {:induction false} EverySessionAccounted(c: Config, v: View, ss: seq<Session>)
    requires Settled(v) && forall i :: 0 <= i < |ss| ==> Startable(c, ss[i].start)
    requires AllFinish(c, v.g.manfCnt, ss)
    ensures AllAccounted(c, v, ss, RunSessions(c, v, ss))
    decreases |ss|
  {
    if ss != [] {
      var v' := RunOf(c, v, ss[0]);
      BringUpAccounted(c, v, ss[0]);
      EverySessionAccounted(c, v', ss[1..]);
      OneMoreAccounted(c, v, ss, v', RunSessions(c, v', ss[1..]));
    }
  }

  // ----- wake-up data without a reload of the configuration -----

  /** A successful bring-up sends what its counter says, whatever went before it. */
  lemma WakeDataSent(c: Config, v: View, t: Session)
    requires Settled(v) && Startable(c, t.start) && SendsGroups(c, t.start) && Succeeds(c, t, v.g.manfCnt)
    ensures var w := RunOf(c, v, t);
            v.led.sent <= w.led.sent && WakePayload(SentSince(v, w)) == MeantWakeData(c, t.start, v.g.manfCnt)
  {
    LosingBringUp(c, v, t.start, t.allocOk, t.xmitOk, t.es);
    OutcomeOnInputs(c, WrittenOff(v), t.start, t.allocOk, t.xmitOk, t.es);
    WakeDataConserved(c, WrittenOff(v), t.start, t.allocOk, t.xmitOk, t.es);
  }

  /** With `left` of the `n` configured bytes, a start still sends what it is meant to. */
  predicate StillMeans(c: Config, t: Start, n: nat, left: nat)
    requires c.Valid() && WholeGroups(n)
  {
    left == n || (SendsOneGroup(c, t) && left > 0) || (left == 0 && MeantWakeData(c, t, n) == DEFAULT_MANF_DATA)
  }

  lemma StillMeansExactly(c: Config, t: Start, n: nat, left: nat)
    requires c.Valid() && WholeGroups(n) && WholeGroups(left) && left <= n
    ensures MeantWakeData(c, t, left) == MeantWakeData(c, t, n) <==> StillMeans(c, t, n, left)
  {
    if 0 < left < n && !SendsOneGroup(c, t) {
      assert |MeantWakeData(c, t, left)| == left && |MeantWakeData(c, t, n)| == n;
    }
  }

  /** The wake-up data of the bring-up `t` that follows `s`. */
  ghost function SecondPayload(c: Config, v: View, s: Session, t: Session): seq<byte>
    requires Settled(v) && Startable(c, s.start) && Startable(c, t.start)
  {
    var w := RunOf(c, v, s);
    if Settled(w) && w.led.sent <= RunOf(c, w, t).led.sent then WakePayload(SentSince(w, RunOf(c, w, t))) else []
  }

  /**
   * Two bring-ups without a reload of the configuration in between, the first one
   * finished in any way: the second, if it succeeds, sends what the first has left in
   * the counter, from the start of the configuration. That is the configured data
   * again exactly if nothing was taken, or a downloading W1 has a group left, or the
   * configured data is the default and all of it was taken.
   */
  lemma SecondRunWakeData(c: Config, v: View, s: Session, t: Session)
    requires Settled(v) && Startable(c, s.start) && Startable(c, t.start) && SendsGroups(c, t.start)
    requires Finishes(c, s, v.g.manfCnt) && Succeeds(c, t, CounterAfter(c, s, v.g.manfCnt))
    ensures SecondPayload(c, v, s, t) == MeantWakeData(c, t.start, CounterAfter(c, s, v.g.manfCnt))
    ensures SecondPayload(c, v, s, t) == MeantWakeData(c, t.start, v.g.manfCnt)
            <==> StillMeans(c, t.start, v.g.manfCnt, CounterAfter(c, s, v.g.manfCnt))
  {
    BringUpAccounted(c, v, s);
    WakeDataSent(c, RunOf(c, v, s), t);
    StillMeansExactly(c, t.start, v.g.manfCnt, CounterAfter(c, s, v.g.manfCnt));
  }

  lemma SuccessFinishes(c: Config, s: Session, manfCnt: nat)
    requires Startable(c, s.start) && WholeGroups(manfCnt) && Succeeds(c, s, manfCnt)
    ensures Finishes(c, s, manfCnt)
  {
  }

  lemma StillMeansAfterSuccess(c: Config, s: Start, t: Start, n: nat)
    requires c.Valid() && WholeGroups(n)
    ensures StillMeans(c, t, n, LeftOver(c, s, n))
            <==> n == 0 || (SendsOneGroup(c, s) && SendsOneGroup(c, t) && n >= 12)
                 || (LeftOver(c, s, n) == 0 && MeantWakeData(c, t, n) == DEFAULT_MANF_DATA)
  {
  }

  /**
   * If the first one succeeded: the second sends the configured data again exactly if
   * none was configured, or both download a W1 that had two groups at least, or
   * everything was sent and was the default.
   */
  lemma SecondAfterSuccess(c: Config, v: View, s: Session, t: Session)
    requires Settled(v) && Startable(c, s.start) && Startable(c, t.start)
    requires SendsGroups(c, s.start) && SendsGroups(c, t.start)
    requires Succeeds(c, s, v.g.manfCnt) && Succeeds(c, t, LeftOver(c, s.start, v.g.manfCnt))
    ensures SecondPayload(c, v, s, t) == MeantWakeData(c, t.start, LeftOver(c, s.start, v.g.manfCnt))
    ensures var n := v.g.manfCnt;
            SecondPayload(c, v, s, t) == MeantWakeData(c, t.start, n)
            <==> n == 0 || (SendsOneGroup(c, s.start) && SendsOneGroup(c, t.start) && n >= 12)
                 || (LeftOver(c, s.start, n) == 0 && MeantWakeData(c, t.start, n) == DEFAULT_MANF_DATA)
  {
    SuccessLeaves(c, s, v.g.manfCnt);
    SuccessFinishes(c, s, v.g.manfCnt);
    SecondRunWakeData(c, v, s, t);
    StillMeansAfterSuccess(c, s.start, t.start, v.g.manfCnt);
  }
}
