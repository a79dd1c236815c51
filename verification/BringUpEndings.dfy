/**
 * How a bring-up ends, read off what its environment does: which completions make a
 * run succeed, which leave it waiting, which make it hang, and which image buffers
 * are lost on the way. Nothing here looks at the states in between.
 */
module BringUpEndings {
  import opened Bytes
  import opened HciCommand
  import opened FirmwareFile
  import opened BringUp
  import opened BringUpPlan
  import opened BringUpRuns
  import opened BringUpImage

  /** A completion that arrives well and whose step gets its command out. */
  predicate Clean(e: Completion) {
    e.status == 0 && e.allocOk && e.xmitOk
  }

  /** The completion puts the next command of the plan on the wire; rows need memory to be gathered in. */
  predicate Sends(e: Completion, cmd: Command) {
    Clean(e) && (cmd.WakeRecords? ==> e.mallocOk)
  }

  /** The first completions send the first commands, one each, for as long as there are both. */
  ghost predicate AllSend(es: seq<Completion>, cmds: seq<Command>) {
    forall i :: 0 <= i < |es| && i < |cmds| ==> Sends(es[i], cmds[i])
  }

  lemma AllSendTail(es: seq<Completion>, cmds: seq<Command>)
    requires es != [] && cmds != []
    ensures AllSend(es, cmds) <==> Sends(es[0], cmds[0]) && AllSend(es[1..], cmds[1..])
  {
    if Sends(es[0], cmds[0]) && AllSend(es[1..], cmds[1..]) {
      forall i | 0 <= i < |es| && i < |cmds|
        ensures Sends(es[i], cmds[i])
      {
        assert i > 0 ==> Sends(es[1..][i - 1], cmds[1..][i - 1]);
      }
    }
  }

  // ----- one step -----

  /** A step refuses exactly where nothing is left to download, or where rows are due and there is no memory. */
  lemma RefusesExactly(c: Config, g: Globals, mallocOk: bool, nodeOk: bool)
    requires c.Valid() && Sound(c, g)
    ensures var o := Dispatch(c, g, mallocOk, nodeOk);
            var rest := Remaining(c, g);
            && (o.Refuse? <==> (Doomed(g) && rest == []) || (!mallocOk && rest != [] && rest[0].WakeRecords?))
            && (o.Finish? <==> rest == [] && !Doomed(g))
  {
    StepOnPlan(c, g, mallocOk, nodeOk);
  }

  lemma StepOnInputs(c: Config, v: View, e: Completion)
    requires Underway(c, v)
    ensures var v', rest := Complete(c, v, e), Remaining(c, v.g);
            if rest != [] && Sends(e, rest[0]) then Advances(c, v, v') && rest == [rest[0]] + Remaining(c, v'.g)
            else if rest == [] && !Doomed(v.g) && e.status == 0 && e.allocOk then Concludes(v, v', true)
            else Concludes(v, v', false) || Hangs(v, v')
  {
    var o := Dispatch(c, v.g, e.mallocOk, e.nodeOk);
    StepOnPlan(c, v.g, e.mallocOk, e.nodeOk);
    RefusesExactly(c, v.g, e.mallocOk, e.nodeOk);
    OutcomeOf(c, v, e, o, Complete(c, v, e));
  }

  // ----- success and waiting -----

  /** All commands go out, and the completion of the last one arrives well. */
  ghost predicate Completes(es: seq<Completion>, cmds: seq<Command>) {
    |es| > |cmds| && AllSend(es, cmds) && es[|cmds|].status == 0 && es[|cmds|].allocOk
  }

  lemma CompletesTail(es: seq<Completion>, cmds: seq<Command>)
    requires es != [] && cmds != []
    ensures Completes(es, cmds) <==> Sends(es[0], cmds[0]) && Completes(es[1..], cmds[1..])
  {
    AllSendTail(es, cmds);
  }

  lemma NotBoth(verdicts: seq<bool>, w: seq<bool>)
    requires w == verdicts + [false] || w == verdicts
    ensures w != verdicts + [true]
  {
    if w == verdicts + [false] {
      assert !w[|verdicts|];
    }
  }

  lemma {:induction false} WaitsOnInputs(c: Config, v: View, es: seq<Completion>)
    requires Underway(c, v)
    ensures Awaiting(Run(c, v, es)) <==> |es| <= |Remaining(c, v.g)| && AllSend(es, Remaining(c, v.g))
    decreases |es|
  {
    if es != [] {
      var v', rest := Complete(c, v, es[0]), Remaining(c, v.g);
      StepOnInputs(c, v, es[0]);
      if rest != [] {
        AllSendTail(es, rest);
        if Sends(es[0], rest[0]) {
          WaitsOnInputs(c, v', es[1..]);
          assert rest[1..] == Remaining(c, v'.g);
        }
      }
    }
  }

  /** A completion that sends nothing ends the run, in success only where nothing was left to send. */
  lemma EndOnInputs(c: Config, v: View, e: Completion)
    requires Underway(c, v)
    requires Remaining(c, v.g) == [] || !Sends(e, Remaining(c, v.g)[0])
    ensures !Awaiting(Complete(c, v, e))
    ensures Complete(c, v, e).led.verdicts == v.led.verdicts + [true]
            <==> Remaining(c, v.g) == [] && !Doomed(v.g) && e.status == 0 && e.allocOk
  {
    StepOnInputs(c, v, e);
    if Remaining(c, v.g) != [] || Doomed(v.g) || e.status != 0 || !e.allocOk {
      NotBoth(v.led.verdicts, Complete(c, v, e).led.verdicts);
    }
  }

  lemma {:induction false} SucceedsOnInputs(c: Config, v: View, es: seq<Completion>)
    requires Underway(c, v)
    ensures Run(c, v, es).led.verdicts == v.led.verdicts + [true]
            <==> !Doomed(v.g) && Completes(es, Remaining(c, v.g))
    decreases |es|
  {
    var rest := Remaining(c, v.g);
    if es == [] {
      NotBoth(v.led.verdicts, v.led.verdicts);
    } else if rest != [] && Sends(es[0], rest[0]) {
      var v' := Complete(c, v, es[0]);
      StepOnInputs(c, v, es[0]);
      CompletesTail(es, rest);
      SucceedsOnInputs(c, v', es[1..]);
      assert rest[1..] == Remaining(c, v'.g);
    } else {
      EndOnInputs(c, v, es[0]);
      if rest != [] {
        CompletesTail(es, rest);
      }
    }
  }

  // ----- hanging -----

  predicate InDownload(s: HwState) {
    Downloading(s) || s == CloseEvent
  }

  /** How many commands carry `len` bytes of an image. */
  function Blocks(len: int): int {
    if len <= 0 then 0 else (len + RW_OPERATION_SIZE - 1) / RW_OPERATION_SIZE
  }

  /** The commands that are left before the download is closed; one is left exactly in the last DCCM chunk. */
  function ToClose(g: Globals): (n: int)
    ensures n >= 0
    ensures InDownload(g.state) && !Doomed(g) && g.lenDccm > 0 ==>
              && (n == 0 <==> g.state == CloseEvent)
              && (n == 1 <==> g.state == Dccm && g.lenDccm <= RW_OPERATION_SIZE)
  {
    match g.state
    case Dccm => Blocks(g.lenDccm)
    case Iccm => Blocks(g.lenIccm) + Blocks(g.lenDccm)
    case TestWrite | TestRead => 1 + Blocks(g.lenIccm) + Blocks(g.lenDccm)
    case _ => 0
  }

  /** The globals after a completion whose step came to `o`. */
  function GlobalsAfter(g: Globals, e: Completion, o: Outcome): Globals {
    if e.status != 0 || !e.allocOk then g.(state := IDLE)
    else match o
      case Offer(_, next, force) => if e.xmitOk || force then next else next.(state := IDLE)
      case Refuse(next) => next.(state := IDLE)
      case Finish => g.(state := IDLE)
  }

  lemma ReactGlobals(v: View, evt: nat, e: Completion, o: Outcome)
    ensures React(v, evt, e, o).g == GlobalsAfter(v.g, e, o)
  {
  }

  /** What precedes the close needs no memory of its own. */
  lemma DownloadOutcome(c: Config, g: Globals, mallocOk: bool, nodeOk: bool)
    requires c.Valid() && Sound(c, g) && Downloading(g.state) && !Doomed(g)
    ensures var o := Dispatch(c, g, mallocOk, nodeOk);
            && o.Offer? && InDownload(o.next.state) && ToClose(o.next) == ToClose(g) - 1
            && o.next.fwLive && o.next.fwLost == g.fwLost
  {
  }

  lemma LaterOutcome(c: Config, g: Globals, mallocOk: bool, nodeOk: bool)
    requires c.Valid() && Sound(c, g) && !InDownload(g.state)
    ensures var o := Dispatch(c, g, mallocOk, nodeOk);
            && (o.Offer? ==> !InDownload(o.next.state))
            && (!o.Finish? ==> o.next.fwLive == g.fwLive && o.next.fwLost == g.fwLost)
  {
  }

  /** Only clean completions lead on to the close. */
  lemma DownloadStep(c: Config, v: View, e: Completion)
    requires Underway(c, v) && Downloading(v.g.state) && !Doomed(v.g)
    ensures var v' := Complete(c, v, e);
            && (if Clean(e) then Advances(c, v, v') && InDownload(v'.g.state) && ToClose(v'.g) == ToClose(v.g) - 1
                else !Awaiting(v'))
            && v'.g.fwLive && v'.g.fwLost == v.g.fwLost
  {
    var o := Dispatch(c, v.g, e.mallocOk, e.nodeOk);
    StepOnPlan(c, v.g, e.mallocOk, e.nodeOk);
    OutcomeOf(c, v, e, o, Complete(c, v, e));
    DownloadOutcome(c, v.g, e.mallocOk, e.nodeOk);
    ReactGlobals(v.(led := v.led.Deliver()), v.led.next, e, o);
  }

  /** After the close a run neither returns to the download nor touches the images. */
  lemma LaterStep(c: Config, v: View, e: Completion)
    requires Underway(c, v) && !InDownload(v.g.state)
    ensures var v' := Complete(c, v, e);
            && (Awaiting(v') ==> Underway(c, v') && !InDownload(v'.g.state))
            && v'.g.fwLive == v.g.fwLive && v'.g.fwLost == v.g.fwLost
  {
    var o := Dispatch(c, v.g, e.mallocOk, e.nodeOk);
    StepOnPlan(c, v.g, e.mallocOk, e.nodeOk);
    OutcomeOf(c, v, e, o, Complete(c, v, e));
    LaterOutcome(c, v.g, e.mallocOk, e.nodeOk);
    ReactGlobals(v.(led := v.led.Deliver()), v.led.next, e, o);
  }

  lemma {:induction false} LaterRun(c: Config, v: View, es: seq<Completion>)
    requires Underway(c, v) && !InDownload(v.g.state)
    ensures var w := Run(c, v, es);
            !StrandsDuring(c, v, es) && w.g.fwLive == v.g.fwLive && w.g.fwLost == v.g.fwLost
    decreases |es|
  {
    if es != [] {
      LaterStep(c, v, es[0]);
      if Awaiting(Complete(c, v, es[0])) {
        LaterRun(c, Complete(c, v, es[0]), es[1..]);
      }
    }
  }

  /** The step that closes the download frees the images, whether or not its command is accepted. */
  lemma CloseStep(c: Config, v: View, e: Completion)
    requires Underway(c, v) && v.g.state == CloseEvent
    ensures var v' := Complete(c, v, e);
            && (Awaiting(v') ==> Underway(c, v') && !InDownload(v'.g.state))
            && v'.g.fwLive == !(e.status == 0 && e.allocOk) && v'.g.fwLost == v.g.fwLost
  {
    CompletionOutcome(c, v, e);
  }

  ghost predicate CleanUpTo(es: seq<Completion>, n: int) {
    n <= |es| && forall i :: 0 <= i < n ==> Clean(es[i])
  }

  lemma CleanUpToTail(es: seq<Completion>, n: int)
    requires es != [] && n > 0
    ensures CleanUpTo(es, n) <==> Clean(es[0]) && CleanUpTo(es[1..], n - 1)
  {
    if Clean(es[0]) && CleanUpTo(es[1..], n - 1) {
      forall i | 0 <= i < n
        ensures Clean(es[i])
      {
        assert i > 0 ==> Clean(es[1..][i - 1]);
      }
    }
  }

  /** The chunk is refused and the device node does not open. */
  predicate Refuses(e: Completion) {
    e.status == 0 && e.allocOk && !e.xmitOk && !e.nodeOk
  }

  /** The `n`-th completion comes after clean ones only and sees the last chunk refused. */
  ghost predicate RefusedAfter(es: seq<Completion>, n: int) {
    n >= 0 && CleanUpTo(es, n) && |es| > n && Refuses(es[n])
  }

  /** The close of the download is reached: clean completions, and one more that gets its buffer. */
  ghost predicate ClosesAfter(es: seq<Completion>, n: int) {
    n >= 0 && CleanUpTo(es, n) && |es| > n && es[n].status == 0 && es[n].allocOk
  }

  lemma ClosesAfterTail(es: seq<Completion>, n: int)
    requires es != [] && n > 0
    ensures ClosesAfter(es, n) <==> Clean(es[0]) && ClosesAfter(es[1..], n - 1)
  {
    CleanUpToTail(es, n);
  }

  lemma RefusedAfterTail(es: seq<Completion>, n: int)
    requires es != [] && n > 0
    ensures RefusedAfter(es, n) <==> Clean(es[0]) && RefusedAfter(es[1..], n - 1)
  {
    CleanUpToTail(es, n);
  }

  /** At the close a run cannot be stranded any more, and one good completion frees the images. */
  lemma FromClose(c: Config, v: View, es: seq<Completion>)
    requires Underway(c, v) && v.g.state == CloseEvent
    ensures !StrandsDuring(c, v, es)
    ensures Run(c, v, es).g.fwLive == !ClosesAfter(es, 0)
    ensures Run(c, v, es).g.fwLost == v.g.fwLost
  {
    if es != [] {
      CloseStep(c, v, es[0]);
      if Awaiting(Complete(c, v, es[0])) {
        LaterRun(c, Complete(c, v, es[0]), es[1..]);
      }
    }
  }

  /** Before the close, the first completion either leads one command further or ends the run. */
  lemma ThroughDownload(c: Config, v: View, es: seq<Completion>)
    requires Underway(c, v) && Downloading(v.g.state) && !Doomed(v.g) && es != []
    ensures var v' := Complete(c, v, es[0]);
            if Clean(es[0]) then
              && Underway(c, v') && InDownload(v'.g.state) && !Doomed(v'.g) && v'.g.fwLost == v.g.fwLost
              && ToClose(v'.g) == ToClose(v.g) - 1
              && Run(c, v, es) == Run(c, v', es[1..])
              && StrandsDuring(c, v, es) == StrandsDuring(c, v', es[1..])
            else
              && Run(c, v, es).g.fwLive && Run(c, v, es).g.fwLost == v.g.fwLost
              && StrandsDuring(c, v, es) == Strands(c, v.g, es[0])
  {
    DownloadStep(c, v, es[0]);
  }

  lemma {:induction false} StrandsOnInputs(c: Config, v: View, es: seq<Completion>)
    requires Underway(c, v) && InDownload(v.g.state) && !Doomed(v.g)
    ensures StrandsDuring(c, v, es)
            <==> MayCarryExtraIccm(c.chip, c.intf) && RefusedAfter(es, ToClose(v.g) - 1)
    decreases |es|
  {
    var n := ToClose(v.g);
    if n == 0 {
      FromClose(c, v, es);
    } else if es != [] {
      ThroughDownload(c, v, es);
      if n > 1 {
        RefusedAfterTail(es, n - 1);
      }
      if Clean(es[0]) {
        StrandsOnInputs(c, Complete(c, v, es[0]), es[1..]);
      }
    }
  }

  /** What becomes of the images from here on. */
  ghost predicate ImagesEnd(c: Config, v: View, es: seq<Completion>)
    requires Underway(c, v)
  {
    Run(c, v, es).g.fwLive == !ClosesAfter(es, ToClose(v.g)) && Run(c, v, es).g.fwLost == v.g.fwLost
  }

  lemma ImagesThroughDownload(c: Config, v: View, es: seq<Completion>)
    requires Underway(c, v) && Downloading(v.g.state) && !Doomed(v.g) && es != [] && ToClose(v.g) > 0
    requires Clean(es[0]) ==>
               Underway(c, Complete(c, v, es[0])) && ImagesEnd(c, Complete(c, v, es[0]), es[1..])
    ensures ImagesEnd(c, v, es)
  {
    var n := ToClose(v.g);
    assert ClosesAfter(es, n) <==> Clean(es[0]) && ClosesAfter(es[1..], n - 1) by {
      ClosesAfterTail(es, n);
    }
    ThroughDownload(c, v, es);
    if Clean(es[0]) {
      var v' := Complete(c, v, es[0]);
      assert ImagesEnd(c, v', es[1..]);
      assert Run(c, v, es) == Run(c, v', es[1..]) && ToClose(v'.g) == n - 1;
    }
  }

  lemma {:induction false} ImagesOnInputs(c: Config, v: View, es: seq<Completion>)
    requires Underway(c, v) && InDownload(v.g.state) && !Doomed(v.g)
    ensures ImagesEnd(c, v, es)
    decreases |es|
  {
    if v.g.state == CloseEvent {
      FromClose(c, v, es);
    } else if es != [] {
      ThroughDownload(c, v, es);
      if Clean(es[0]) {
        ImagesOnInputs(c, Complete(c, v, es[0]), es[1..]);
      }
      ImagesThroughDownload(c, v, es);
    }
  }

  lemma {:induction false} DoomedRun(c: Config, v: View, es: seq<Completion>)
    requires Underway(c, v) && Doomed(v.g)
    ensures Run(c, v, es).g.fwLive && Run(c, v, es).g.fwLost == v.g.fwLost
    decreases |es|
  {
    if es != [] {
      var e := es[0];
      var o := Dispatch(c, v.g, e.mallocOk, e.nodeOk);
      CompletionOutcome(c, v, e);
      ReactGlobals(v.(led := v.led.Deliver()), v.led.next, e, o);
      assert o.next.fwLive && o.next.fwLost == v.g.fwLost;
      if Awaiting(Complete(c, v, e)) {
        DoomedRun(c, Complete(c, v, e), es[1..]);
      }
    }
  }

  // ----- whole bring-ups -----

  lemma BeginUnderway(c: Config, v0: View, s: Start)
    requires AtRest(c, v0) && Startable(c, s)
    ensures var v, plan := Begin(c, v0, s, true, true), Plan(c, s, v0.g.manfCnt);
            && Underway(c, v) && Doomed(v.g) == NothingToDownload(c, s)
            && v.led.verdicts == v0.led.verdicts && v.g == Prepared(c, v0.g, s).0
            && |plan| > 0 && Remaining(c, v.g) == plan[1..]
  {
    PreparedOnPlan(c, v0.g, s);
  }

  lemma BeginInDownload(c: Config, v0: View, file: seq<byte>)
    requires AtRest(c, v0) && Startable(c, FirmwareStart(file)) && !NothingToDownload(c, FirmwareStart(file))
    ensures var v := Begin(c, v0, FirmwareStart(file), true, true);
            && Underway(c, v) && InDownload(v.g.state) && !Doomed(v.g)
            && ToClose(v.g) == |BeforeClosing(c, file)| - 1
  {
    BeginUnderway(c, v0, FirmwareStart(file));
    var iccm, dccm := IccmImage(c.chip, c.intf, file), DccmImage(c.chip, c.intf, file);
    ChunksAreDownloads(ICCM_RAM_BASE + c.RomSize(), iccm[c.RomSize()..]);
    ChunksAreDownloads(DCCM_RAM_BASE, dccm);
  }

  /**
   * The first command is refused; or, on a W1U behind SDIO or PCIe, everything goes
   * well up to the last DCCM chunk, and that one is refused while the device node does
   * not open.
   */
  ghost predicate HangsOn(c: Config, s: Start, allocOk: bool, xmitOk: bool, es: seq<Completion>)
    requires Startable(c, s)
  {
    allocOk && (!xmitOk || (s.FirmwareStart? && !NothingToDownload(c, s) && MayCarryExtraIccm(c.chip, c.intf)
                            && RefusedAfter(es, |BeforeClosing(c, s.file)| - 2)))
  }

  /** A file with something to download. */
  lemma DownloadEnds(c: Config, v0: View, file: seq<byte>, es: seq<Completion>)
    requires AtRest(c, v0) && Startable(c, FirmwareStart(file)) && !NothingToDownload(c, FirmwareStart(file))
    ensures var v, w, n := Begin(c, v0, FirmwareStart(file), true, true),
                           BringUpRun(c, v0, FirmwareStart(file), true, true, es), |BeforeClosing(c, file)|;
            && Underway(c, v)
            && (StrandsDuring(c, v, es) <==> MayCarryExtraIccm(c.chip, c.intf) && RefusedAfter(es, n - 2))
            && w.g.fwLive == !ClosesAfter(es, n - 1)
            && w.g.fwLost == v0.g.fwLost + if v0.g.fwLive then 1 else 0
  {
    BeginInDownload(c, v0, file);
    StrandsOnInputs(c, Begin(c, v0, FirmwareStart(file), true, true), es);
    ImagesOnInputs(c, Begin(c, v0, FirmwareStart(file), true, true), es);
  }

  /** No download, or a file with nothing to download. */
  lemma OtherwiseEnds(c: Config, v0: View, s: Start, es: seq<Completion>)
    requires AtRest(c, v0) && Startable(c, s) && (s.FirmwareStart? ==> NothingToDownload(c, s))
    ensures var v, w := Begin(c, v0, s, true, true), BringUpRun(c, v0, s, true, true, es);
            && Underway(c, v) && !StrandsDuring(c, v, es)
            && w.g.fwLive == (s.FirmwareStart? || v0.g.fwLive)
            && w.g.fwLost == v0.g.fwLost + if s.FirmwareStart? && v0.g.fwLive then 1 else 0
  {
    BeginUnderway(c, v0, s);
    var v := Begin(c, v0, s, true, true);
    if s.FirmwareStart? {
      DoomedDoesNotStrand(c, v, es);
      DoomedRun(c, v, es);
    } else {
      LaterRun(c, v, es);
    }
  }

  /** A start without a buffer reports at once; one whose command is refused still loads the images. */
  lemma FailedStart(c: Config, v0: View, s: Start, allocOk: bool, xmitOk: bool, es: seq<Completion>)
    requires AtRest(c, v0) && Startable(c, s) && !(allocOk && xmitOk)
    ensures var w := BringUpRun(c, v0, s, allocOk, xmitOk, es);
            && w.g.fwLive == ((s.FirmwareStart? && allocOk) || v0.g.fwLive)
            && w.g.fwLost == v0.g.fwLost + if s.FirmwareStart? && allocOk && v0.g.fwLive then 1 else 0
  {
  }

  lemma LosesBufferExactly(c: Config, v0: View, s: Start, allocOk: bool, xmitOk: bool, es: seq<Completion>)
    requires AtRest(c, v0) && Startable(c, s)
    ensures LosesBuffer(c, v0, s, allocOk, xmitOk, es) <==> HangsOn(c, s, allocOk, xmitOk, es)
  {
    if allocOk && xmitOk {
      if s.FirmwareStart? && !NothingToDownload(c, s) {
        DownloadEnds(c, v0, s.file, es);
      } else {
        OtherwiseEnds(c, v0, s, es);
      }
    }
  }

  /**
   * The outcome of every bring-up, decided by what the environment did: it is still
   * waiting exactly if every completion so far sent the next command; it succeeds
   * exactly if all of the plan went out and the last completion arrived well; it hangs
   * exactly under `HangsOn`; in every other case it reports failure.
   */
  lemma OutcomeOnInputs(c: Config, v0: View, s: Start, allocOk: bool, xmitOk: bool, es: seq<Completion>)
    requires AtRest(c, v0) && Startable(c, s)
    ensures var v, later := BringUpRun(c, v0, s, allocOk, xmitOk, es), Plan(c, s, v0.g.manfCnt)[1..];
            && (Awaiting(v) <==> allocOk && xmitOk && |es| <= |later| && AllSend(es, later))
            && (v.led.verdicts == v0.led.verdicts + [true] <==>
                  allocOk && xmitOk && !NothingToDownload(c, s) && Completes(es, later))
            && (!Awaiting(v) && v.led.verdicts == v0.led.verdicts <==> HangsOn(c, s, allocOk, xmitOk, es))
            && (Awaiting(v) || v.led.verdicts == v0.led.verdicts || v.led.verdicts == v0.led.verdicts + [true]
                || v.led.verdicts == v0.led.verdicts + [false])
  {
    BeginUnderway(c, v0, s);
    OneVerdictExactOwnership(c, v0, s, allocOk, xmitOk, es);
    LosesBufferExactly(c, v0, s, allocOk, xmitOk, es);
    if allocOk && xmitOk {
      WaitsOnInputs(c, Begin(c, v0, s, true, true), es);
      SucceedsOnInputs(c, Begin(c, v0, s, true, true), es);
    } else {
      NotBoth(v0.led.verdicts, Begin(c, v0, s, allocOk, xmitOk).led.verdicts);
    }
  }

  /**
   * On every W1U behind SDIO or PCIe the mid-run hang is within reach: let all go
   * well up to the last DCCM chunk, then refuse that chunk and fail to open the
   * device node. The run ends without a verdict and with one buffer lost.
   */
  lemma RefusedLastChunkHangs(c: Config, v0: View, file: seq<byte>, es: seq<Completion>, e: Completion)
    requires AtRest(c, v0) && c.Valid() && Loadable(c.chip, c.intf, file)
    requires MayCarryExtraIccm(c.chip, c.intf) && !NothingToDownload(c, FirmwareStart(file))
    requires |es| == |BeforeClosing(c, file)| - 2 && forall x :: x in es ==> Clean(x)
    requires e.status == 0 && e.allocOk && !e.xmitOk && !e.nodeOk
    ensures var v := BringUpRun(c, v0, FirmwareStart(file), true, true, es + [e]);
            !Awaiting(v) && v.led.verdicts == v0.led.verdicts && |v.led.owned| == 1
  {
    assert (es + [e])[|es|] == e;
    LosesBufferExactly(c, v0, FirmwareStart(file), true, true, es + [e]);
    OneVerdictExactOwnership(c, v0, FirmwareStart(file), true, true, es + [e]);
  }

  // ----- image buffers -----

  predicate LoadsImages(s: Session) {
    s.start.FirmwareStart? && s.allocOk
  }

  /** The bring-up gets as far as closing the download. */
  ghost predicate FreesImages(c: Config, s: Session)
    requires Startable(c, s.start)
  {
    LoadsImages(s) && s.xmitOk && !NothingToDownload(c, s.start)
    && ClosesAfter(s.es, |BeforeClosing(c, s.start.file)| - 1)
  }

  /** `w` accounts for the images after the bring-up `s` from `v0`. */
  ghost predicate ImagesAccounted(c: Config, v0: View, s: Session, w: View)
    requires Startable(c, s.start)
  {
    && w.g.fwLive == (if LoadsImages(s) then !FreesImages(c, s) else v0.g.fwLive)
    && w.g.fwLost == v0.g.fwLost + if LoadsImages(s) && v0.g.fwLive then 1 else 0
  }

  lemma DownloadImages(c: Config, v0: View, s: Session)
    requires AtRest(c, v0) && Startable(c, s.start) && s.allocOk && s.xmitOk
    requires s.start.FirmwareStart? && !NothingToDownload(c, s.start)
    ensures ImagesAccounted(c, v0, s, BringUpRun(c, v0, s.start, s.allocOk, s.xmitOk, s.es))
  {
    assert FreesImages(c, s) == ClosesAfter(s.es, |BeforeClosing(c, s.start.file)| - 1);
    DownloadEnds(c, v0, s.start.file, s.es);
  }

  lemma OtherImages(c: Config, v0: View, s: Session)
    requires AtRest(c, v0) && Startable(c, s.start)
    requires s.allocOk && s.xmitOk && s.start.FirmwareStart? ==> NothingToDownload(c, s.start)
    ensures ImagesAccounted(c, v0, s, BringUpRun(c, v0, s.start, s.allocOk, s.xmitOk, s.es))
  {
    if s.allocOk && s.xmitOk {
      OtherwiseEnds(c, v0, s.start, s.es);
    } else {
      FailedStart(c, v0, s.start, s.allocOk, s.xmitOk, s.es);
    }
  }

  lemma BringUpImages(c: Config, v0: View, s: Session)
    requires AtRest(c, v0) && Startable(c, s.start)
    ensures ImagesAccounted(c, v0, s, BringUpRun(c, v0, s.start, s.allocOk, s.xmitOk, s.es))
  {
    if s.allocOk && s.xmitOk && s.start.FirmwareStart? && !NothingToDownload(c, s.start) {
      DownloadImages(c, v0, s);
    } else {
      OtherImages(c, v0, s);
    }
  }

  /**
   * How many pairs of image buffers a sequence of bring-ups loses: a download leaves
   * its pair behind unless it gets as far as its close, and the next download
   * overwrites the pointers to it.
   */
  ghost function ImagesLost(c: Config, live: bool, ss: seq<Session>): nat
    requires forall i :: 0 <= i < |ss| ==> Startable(c, ss[i].start)
    decreases |ss|
  {
    if ss == [] then 0
    else if LoadsImages(ss[0]) then (if live then 1 else 0) + ImagesLost(c, !FreesImages(c, ss[0]), ss[1..])
    else ImagesLost(c, live, ss[1..])
  }
}
