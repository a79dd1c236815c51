/** What holds over every run of the bring-up state machine, aborted ones included. */
module BringUpRuns {
  import opened HciCommand
  import opened FirmwareFile
  import opened BringUp
  import opened BringUpPlan

  /** The commands on the wire since `v0`. */
  function SentSince(v0: View, v: View): seq<Command>
    requires v0.led.sent <= v.led.sent
  {
    v.led.sent[|v0.led.sent|..]
  }

  /** A command is in flight and everything is accounted for. */
  ghost predicate Underway(c: Config, v: View) {
    c.Valid() && Sound(c, v.g) && v.led.InFlight() == 1 && v.led.owned == {} && v.led.Balanced()
  }

  /**
   * The one completion that leaves the library hanging: the last DCCM chunk is
   * refused, but the step still reports "proceeding" because the device node
   * could not be opened and -1 is not FALSE.
   */
  predicate Strands(c: Config, g: Globals, e: Completion) {
    && MayCarryExtraIccm(c.chip, c.intf)
    && g.state == Dccm && 0 < g.lenDccm <= RW_OPERATION_SIZE
    && e.status == 0 && e.allocOk && !e.xmitOk && !e.nodeOk
  }

  // ----- one completion -----

  /** The run goes on with one more command of the plan in flight. */
  ghost predicate Advances(c: Config, v: View, v': View) {
    && Underway(c, v) && Underway(c, v')
    && v'.led.verdicts == v.led.verdicts
    && |v'.led.sent| == |v.led.sent| + 1 && v.led.sent <= v'.led.sent
    && Remaining(c, v.g) == [v'.led.sent[|v.led.sent|]] + Remaining(c, v'.g)
    && Doomed(v.g) == Doomed(v'.g)
  }

  /** The run is over and reported; no buffer is left behind. */
  ghost predicate Concludes(v: View, v': View, ok: bool) {
    && v'.g.state == IDLE && WholeGroups(v'.g.manfCnt)
    && v'.led.InFlight() == 0 && v'.led.owned == {} && v'.led.Balanced()
    && v'.led.sent == v.led.sent && v'.led.verdicts == v.led.verdicts + [ok]
  }

  /** Nothing is in flight any more, nothing was reported, and one buffer is lost. */
  ghost predicate Hangs(v: View, v': View) {
    && v'.led.InFlight() == 0 && |v'.led.owned| == 1 && v'.led.Balanced()
    && v'.led.sent == v.led.sent && v'.led.verdicts == v.led.verdicts
  }

  lemma OnlyLastDccmForces(c: Config, g: Globals, mallocOk: bool, nodeOk: bool)
    requires c.Valid() && Sound(c, g)
    ensures var o := Dispatch(c, g, mallocOk, nodeOk);
            o.Offer? && o.force <==>
            MayCarryExtraIccm(c.chip, c.intf) && g.state == Dccm && 0 < g.lenDccm <= RW_OPERATION_SIZE && !nodeOk
  {
  }

  /** The ledger's side of a completion, whatever the outcome `o` of the step. */
  lemma Accounting(v: View, e: Completion, o: Outcome)
    requires v.led.InFlight() == 1 && v.led.owned == {} && v.led.Balanced()
    requires WholeGroups(v.g.manfCnt) && (!o.Finish? ==> WholeGroups(o.next.manfCnt))
    ensures var v' := React(v.(led := v.led.Deliver()), v.led.next, e, o);
            if e.status != 0 || !e.allocOk || o.Refuse? then Concludes(v, v', false)
            else if o.Finish? then Concludes(v, v', true) && v'.g == v.g.(state := IDLE)
            else if e.xmitOk then
              && v'.g == o.next
              && v'.led.InFlight() == 1 && v'.led.owned == {} && v'.led.Balanced()
              && v'.led.sent == v.led.sent + [o.cmd] && v'.led.verdicts == v.led.verdicts
            else if o.force then Hangs(v, v')
            else Concludes(v, v', false)
  {
    var evt, buf := v.led.next, v.led.next + 1;
    var v' := React(v.(led := v.led.Deliver()), evt, e, o);
    assert v.led.Deliver().owned == {evt};
    if e.status == 0 && e.allocOk {
      var l := v.led.Deliver().Acquire();
      assert l.Balanced() && l.owned == {evt, buf};
      if o.Offer? && !e.xmitOk && o.force {
        assert v'.led.owned == {buf};
      }
    }
  }

  lemma CompletionOutcome(c: Config, v: View, e: Completion)
    requires Underway(c, v)
    ensures var v' := Complete(c, v, e);
            if Strands(c, v.g, e) then Hangs(v, v')
            else Advances(c, v, v') || Concludes(v, v', false)
                 || (Concludes(v, v', true) && Remaining(c, v.g) == [] && !Doomed(v.g))
  {
    var o := Dispatch(c, v.g, e.mallocOk, e.nodeOk);
    StepOnPlan(c, v.g, e.mallocOk, e.nodeOk);
    OnlyLastDccmForces(c, v.g, e.mallocOk, e.nodeOk);
    OutcomeOf(c, v, e, o, Complete(c, v, e));
  }

  lemma OutcomeOf(c: Config, v: View, e: Completion, o: Outcome, v': View)
    requires Underway(c, v) && OnPlan(c, v.g, o, e.mallocOk)
    requires v' == React(v.(led := v.led.Deliver()), v.led.next, e, o)
    ensures if e.status != 0 || !e.allocOk || o.Refuse? then Concludes(v, v', false)
            else if o.Finish? then Concludes(v, v', true) && Remaining(c, v.g) == [] && !Doomed(v.g)
            else if e.xmitOk then Advances(c, v, v')
            else if o.force then Hangs(v, v')
            else Concludes(v, v', false)
  {
    Accounting(v, e, o);
  }

  // ----- runs -----

  /** Completions are consumed as long as a command is in flight. */
  function Run(c: Config, v: View, es: seq<Completion>): View
    requires c.Valid() && v.led.InFlight() <= 1 && (Awaiting(v) ==> Sound(c, v.g))
    decreases |es|
  {
    if es == [] || !Awaiting(v) then v
    else
      CompletionKeepsSound(c, v, es[0]);
      Run(c, Complete(c, v, es[0]), es[1..])
  }

  lemma CompletionKeepsSound(c: Config, v: View, e: Completion)
    requires c.Valid() && v.led.InFlight() == 1 && Sound(c, v.g)
    ensures var v' := Complete(c, v, e); v'.led.InFlight() <= 1 && (Awaiting(v') ==> Sound(c, v'.g))
  {
    StepOnPlan(c, v.g, e.mallocOk, e.nodeOk);
  }

  predicate StartableFrom(c: Config, v0: View, s: Start) {
    Startable(c, s) && v0.led.InFlight() == 0 && WholeGroups(v0.g.manfCnt)
  }

  lemma BeginKeepsSound(c: Config, v0: View, s: Start, allocOk: bool, xmitOk: bool)
    requires StartableFrom(c, v0, s)
    ensures var v := Begin(c, v0, s, allocOk, xmitOk); v.led.InFlight() <= 1 && (Awaiting(v) ==> Sound(c, v.g))
  {
    PreparedOnPlan(c, v0.g, s);
  }

  /** A whole bring-up: one of the starts, then whatever completions arrive. */
  function BringUpRun(c: Config, v0: View, s: Start, allocOk: bool, xmitOk: bool, es: seq<Completion>): View
    requires StartableFrom(c, v0, s)
  {
    BeginKeepsSound(c, v0, s, allocOk, xmitOk);
    Run(c, Begin(c, v0, s, allocOk, xmitOk), es)
  }

  // ----- the invariant of a run, relative to its plan -----

  /**
   * `v0` is where the run began, `plan` what it is meant to send and `doomed`
   * whether it can only abort. While a command is in flight, sent and remaining
   * commands make up the plan; once the run is over it has either reported
   * exactly one verdict or hangs.
   */
  ghost predicate Tracks(c: Config, v0: View, plan: seq<Command>, doomed: bool, v: View) {
    && v0.led.sent <= v.led.sent
    && if Awaiting(v) then
      && Underway(c, v)
      && v.led.verdicts == v0.led.verdicts
      && SentSince(v0, v) + Remaining(c, v.g) == plan
      && Doomed(v.g) == doomed
    else
      && v.led.InFlight() == 0 && v.led.Balanced()
      && SentSince(v0, v) <= plan
      && ((v.led.verdicts == v0.led.verdicts && |v.led.owned| == 1)
          || (v.led.verdicts == v0.led.verdicts + [false] && AtRest(c, v))
          || (v.led.verdicts == v0.led.verdicts + [true] && AtRest(c, v) && SentSince(v0, v) == plan && !doomed))
  }

  lemma TracksAdvance(c: Config, v0: View, plan: seq<Command>, doomed: bool, v: View, v': View)
    requires Tracks(c, v0, plan, doomed, v) && Awaiting(v) && Advances(c, v, v')
    ensures Tracks(c, v0, plan, doomed, v')
  {
    OneMoreSent(v0.led.sent, v.led.sent, v'.led.sent, Remaining(c, v.g), Remaining(c, v'.g));
  }

  lemma OneMoreSent<T>(s0: seq<T>, s: seq<T>, s': seq<T>, rest: seq<T>, rest': seq<T>)
    requires s0 <= s <= s' && |s'| == |s| + 1
    requires rest == [s'[|s|]] + rest'
    ensures s0 <= s' && s'[|s0|..] + rest' == s[|s0|..] + rest
  {
    assert s'[|s0|..] == s[|s0|..] + [s'[|s|]];
  }

  lemma TracksEnd(c: Config, v0: View, plan: seq<Command>, doomed: bool, v: View, v': View)
    requires Tracks(c, v0, plan, doomed, v) && Awaiting(v)
    requires Hangs(v, v') || Concludes(v, v', false)
             || (Concludes(v, v', true) && Remaining(c, v.g) == [] && !Doomed(v.g))
    ensures Tracks(c, v0, plan, doomed, v')
  {
    assert SentSince(v0, v') == SentSince(v0, v);
  }

  lemma CompletionTracks(c: Config, v0: View, plan: seq<Command>, doomed: bool, v: View, e: Completion)
    requires Tracks(c, v0, plan, doomed, v) && Awaiting(v)
    ensures Tracks(c, v0, plan, doomed, Complete(c, v, e))
  {
    CompletionOutcome(c, v, e);
    if Advances(c, v, Complete(c, v, e)) {
      TracksAdvance(c, v0, plan, doomed, v, Complete(c, v, e));
    } else {
      TracksEnd(c, v0, plan, doomed, v, Complete(c, v, e));
    }
  }

  lemma {:induction false} RunTracks(
    c: Config, v0: View, plan: seq<Command>, doomed: bool, v: View, es: seq<Completion>)
    requires c.Valid() && Tracks(c, v0, plan, doomed, v)
    ensures Tracks(c, v0, plan, doomed, Run(c, v, es))
    decreases |es|
  {
    if es != [] && Awaiting(v) {
      CompletionTracks(c, v0, plan, doomed, v, es[0]);
      RunTracks(c, v0, plan, doomed, Complete(c, v, es[0]), es[1..]);
    }
  }

  lemma BeginTracks(c: Config, v0: View, s: Start, allocOk: bool, xmitOk: bool)
    requires AtRest(c, v0) && Startable(c, s)
    ensures Tracks(c, v0, Plan(c, s, v0.g.manfCnt), NothingToDownload(c, s), Begin(c, v0, s, allocOk, xmitOk))
  {
    PreparedOnPlan(c, v0.g, s);
    var v := Begin(c, v0, s, allocOk, xmitOk);
    if allocOk {
      var (g, cmd) := Prepared(c, v0.g, s);
      if xmitOk {
        assert SentSince(v0, v) == [cmd];
      } else {
        assert v.led.owned == {v0.led.next};
      }
    }
  }

  lemma BringUpTracks(c: Config, v0: View, s: Start, allocOk: bool, xmitOk: bool, es: seq<Completion>)
    requires AtRest(c, v0) && Startable(c, s)
    ensures Tracks(c, v0, Plan(c, s, v0.g.manfCnt), NothingToDownload(c, s),
                   BringUpRun(c, v0, s, allocOk, xmitOk, es))
  {
    BeginTracks(c, v0, s, allocOk, xmitOk);
    RunTracks(c, v0, Plan(c, s, v0.g.manfCnt), NothingToDownload(c, s), Begin(c, v0, s, allocOk, xmitOk), es);
  }

  lemma TracksMeans(c: Config, v0: View, plan: seq<Command>, doomed: bool, v: View)
    requires Tracks(c, v0, plan, doomed, v)
    ensures SentSince(v0, v) <= plan && 0 <= v.led.InFlight() <= 1
    ensures v.led.verdicts == v0.led.verdicts + [true] ==> SentSince(v0, v) == plan && !doomed && !Awaiting(v)
    ensures |v.led.sent| <= |v0.led.sent| + |plan|
  {
    if v.led.verdicts == v0.led.verdicts + [true] {
      assert v.led.verdicts[|v0.led.verdicts|];
    }
  }

  // ----- main results -----

  /**
   * Refinement: whatever the environment does, a run puts a prefix of its plan on
   * the wire, in order, with at most one command in flight; it reports success
   * only when the plan is complete.
   */
  lemma RunFollowsPlan(c: Config, v0: View, s: Start, allocOk: bool, xmitOk: bool, es: seq<Completion>)
    requires AtRest(c, v0) && Startable(c, s)
    ensures var v := BringUpRun(c, v0, s, allocOk, xmitOk, es);
            && v0.led.sent <= v.led.sent
            && SentSince(v0, v) <= Plan(c, s, v0.g.manfCnt)
            && 0 <= v.led.InFlight() <= 1
            && (v.led.verdicts == v0.led.verdicts + [true]
                ==> SentSince(v0, v) == Plan(c, s, v0.g.manfCnt) && !NothingToDownload(c, s))
  {
    BringUpTracks(c, v0, s, allocOk, xmitOk, es);
    TracksMeans(c, v0, Plan(c, s, v0.g.manfCnt), NothingToDownload(c, s),
                BringUpRun(c, v0, s, allocOk, xmitOk, es));
  }

  /** The completions of a run include one that strands it. */
  predicate StrandsDuring(c: Config, v: View, es: seq<Completion>)
    requires c.Valid() && v.led.InFlight() <= 1 && (Awaiting(v) ==> Sound(c, v.g))
    decreases |es|
  {
    es != [] && Awaiting(v) &&
    (Strands(c, v.g, es[0]) ||
     (CompletionKeepsSound(c, v, es[0]); StrandsDuring(c, Complete(c, v, es[0]), es[1..])))
  }

  lemma {:induction false} HangsIffStranded(
    c: Config, v0: View, plan: seq<Command>, doomed: bool, v: View, es: seq<Completion>)
    requires c.Valid() && Tracks(c, v0, plan, doomed, v) && Awaiting(v)
    ensures var w := Run(c, v, es);
            !Awaiting(w) && w.led.verdicts == v0.led.verdicts <==> StrandsDuring(c, v, es)
    decreases |es|
  {
    if es != [] {
      CompletionOutcome(c, v, es[0]);
      CompletionTracks(c, v0, plan, doomed, v, es[0]);
      var v' := Complete(c, v, es[0]);
      if Awaiting(v') {
        HangsIffStranded(c, v0, plan, doomed, v', es[1..]);
      }
    }
  }

  /** The first command is refused, or a stranding completion arrives. */
  predicate LosesBuffer(c: Config, v0: View, s: Start, allocOk: bool, xmitOk: bool, es: seq<Completion>)
    requires StartableFrom(c, v0, s)
  {
    BeginKeepsSound(c, v0, s, allocOk, xmitOk);
    (allocOk && !xmitOk) || StrandsDuring(c, Begin(c, v0, s, allocOk, xmitOk), es)
  }

  /**
   * One verdict and exact ownership: once nothing is in flight, the run has
   * reported exactly once, it is ready for the next start and every buffer it ever
   * owned was handed over or freed exactly once, unless the first command was refused or a
   * stranding completion arrived; then nothing is ever reported and exactly one
   * buffer is lost.
   */
  lemma OneVerdictExactOwnership(
    c: Config, v0: View, s: Start, allocOk: bool, xmitOk: bool, es: seq<Completion>)
    requires AtRest(c, v0) && Startable(c, s)
    ensures var v := BringUpRun(c, v0, s, allocOk, xmitOk, es);
            var hung := LosesBuffer(c, v0, s, allocOk, xmitOk, es);
            && v.led.Balanced()
            && (Awaiting(v) ==> !hung && v.led.owned == {} && v.led.verdicts == v0.led.verdicts)
            && (!Awaiting(v) && !hung ==>
                  && AtRest(c, v)
                  && (v.led.verdicts == v0.led.verdicts + [true] || v.led.verdicts == v0.led.verdicts + [false]))
            && (hung ==> !Awaiting(v) && |v.led.owned| == 1 && v.led.verdicts == v0.led.verdicts)
  {
    BeginTracks(c, v0, s, allocOk, xmitOk);
    var plan, doomed, v1 := Plan(c, s, v0.g.manfCnt), NothingToDownload(c, s), Begin(c, v0, s, allocOk, xmitOk);
    RunTracks(c, v0, plan, doomed, v1, es);
    if Awaiting(v1) {
      HangsIffStranded(c, v0, plan, doomed, v1, es);
    }
  }

  /** A completion that reports success and finds every resource available. */
  predicate Smooth(e: Completion) {
    e.status == 0 && e.allocOk && e.xmitOk && e.mallocOk
  }

  lemma SmoothStep(c: Config, v: View, e: Completion)
    requires Underway(c, v) && Smooth(e) && !Doomed(v.g)
    ensures var v' := Complete(c, v, e);
            if Remaining(c, v.g) == [] then Concludes(v, v', true) else Advances(c, v, v')
  {
    StepOnPlan(c, v.g, e.mallocOk, e.nodeOk);
    OutcomeOf(c, v, e, Dispatch(c, v.g, e.mallocOk, e.nodeOk), Complete(c, v, e));
  }

  lemma {:induction false} SmoothRun(c: Config, v: View, es: seq<Completion>)
    requires Underway(c, v) && !Doomed(v.g)
    requires forall e :: e in es ==> Smooth(e)
    requires |es| > |Remaining(c, v.g)|
    ensures var w := Run(c, v, es);
            w.led.verdicts == v.led.verdicts + [true] && !Awaiting(w)
            && w.led.delivered == v.led.delivered + |Remaining(c, v.g)| + 1
    decreases |es|
  {
    SmoothStep(c, v, es[0]);
    var v' := Complete(c, v, es[0]);
    if Remaining(c, v.g) != [] {
      SmoothRun(c, v', es[1..]);
    }
  }

  /**
   * Progress: with a willing environment a run ends in success after exactly as
   * many completions as its plan has commands; for a download, if the ICCM is longer
   * than its ROM part.
   */
  lemma SmoothRunSucceeds(c: Config, v0: View, s: Start, es: seq<Completion>)
    requires AtRest(c, v0) && Startable(c, s)
    requires s.FirmwareStart? ==> |IccmImage(c.chip, c.intf, s.file)| > (if c.chip == W2L then 393216 else 262144)
    requires forall e :: e in es ==> Smooth(e)
    requires |es| >= |Plan(c, s, v0.g.manfCnt)|
    ensures var v := BringUpRun(c, v0, s, true, true, es);
            && v.led.verdicts == v0.led.verdicts + [true] && !Awaiting(v)
            && v0.led.sent <= v.led.sent && SentSince(v0, v) == Plan(c, s, v0.g.manfCnt)
            && v.led.delivered == v0.led.delivered + |Plan(c, s, v0.g.manfCnt)|
  {
    BeginSmooth(c, v0, s);
    SmoothRun(c, Begin(c, v0, s, true, true), es);
    RunFollowsPlan(c, v0, s, true, true, es);
  }

  lemma BeginSmooth(c: Config, v0: View, s: Start)
    requires AtRest(c, v0) && Startable(c, s) && !NothingToDownload(c, s)
    ensures var v := Begin(c, v0, s, true, true);
            && Underway(c, v) && !Doomed(v.g)
            && |Plan(c, s, v0.g.manfCnt)| == 1 + |Remaining(c, v.g)|
            && v.led.verdicts == v0.led.verdicts && v.led.delivered == v0.led.delivered
  {
    PreparedOnPlan(c, v0.g, s);
  }

  /** Termination: no run, however it ends, sees more completions than its plan has commands. */
  lemma RunIsBounded(c: Config, v0: View, s: Start, allocOk: bool, xmitOk: bool, es: seq<Completion>)
    requires AtRest(c, v0) && Startable(c, s)
    ensures var v := BringUpRun(c, v0, s, allocOk, xmitOk, es);
            && v.led.delivered - v0.led.delivered <= |Plan(c, s, v0.g.manfCnt)|
            && (|es| >= |Plan(c, s, v0.g.manfCnt)| ==> !Awaiting(v))
  {
    RunFollowsPlan(c, v0, s, allocOk, xmitOk, es);
    BeginKeepsSound(c, v0, s, allocOk, xmitOk);
    RunConsumes(c, Begin(c, v0, s, allocOk, xmitOk), es);
    var v := BringUpRun(c, v0, s, allocOk, xmitOk, es);
    assert |v.led.sent| <= |v0.led.sent| + |Plan(c, s, v0.g.manfCnt)|;
  }

  /** As long as a command is in flight, every completion was consumed. */
  lemma {:induction false} RunConsumes(c: Config, v: View, es: seq<Completion>)
    requires c.Valid() && v.led.InFlight() <= 1 && (Awaiting(v) ==> Sound(c, v.g))
    ensures var w := Run(c, v, es); Awaiting(w) ==> w.led.delivered == v.led.delivered + |es|
    decreases |es|
  {
    if es != [] && Awaiting(v) {
      CompletionKeepsSound(c, v, es[0]);
      RunConsumes(c, Complete(c, v, es[0]), es[1..]);
    }
  }

  /** A bring-up as a caller sees it: which start, and what its environment does. */
  datatype Session = Session(start: Start, allocOk: bool, xmitOk: bool, es: seq<Completion>)
}
