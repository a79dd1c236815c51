/** Wake-up data: what of the configuration reaches the wire, and what is left of it. */
module BringUpWake {
  import opened Bytes
  import opened HciCommand
  import opened FirmwareFile
  import opened BringUp
  import opened BringUpPlan
  import opened BringUpRuns
  import opened BringUpImage

  // ----- groups of six -----

  /** The raw bytes behind the opcode of every wake-up command, concatenated. */
  function WakePayload(cmds: seq<Command>): seq<byte> {
    if cmds == [] then []
    else (if cmds[0].WakeData? then cmds[0].bytes else []) + WakePayload(cmds[1..])
  }

  lemma {:induction false} WakePayloadAppend(a: seq<Command>, b: seq<Command>)
    ensures WakePayload(a + b) == WakePayload(a) + WakePayload(b)
  {
    if a == [] {
      assert a + b == b;
    } else {
      assert (a + b)[0] == a[0] && (a + b)[1..] == a[1..] + b;
      WakePayloadAppend(a[1..], b);
    }
  }

  ghost predicate NoWakeData(cmds: seq<Command>) {
    forall i :: 0 <= i < |cmds| ==> !cmds[i].WakeData?
  }

  lemma {:induction false} NoWakePayload(cmds: seq<Command>)
    requires NoWakeData(cmds)
    ensures WakePayload(cmds) == []
  {
    if cmds != [] {
      NoWakePayload(cmds[1..]);
    }
  }

  lemma {:induction false} WakeChunksPayload(data: seq<byte>)
    requires |data| % 6 == 0
    ensures WakePayload(WakeChunks(data)) == data
  {
    if data != [] {
      WakeChunksPayload(data[6..]);
      assert ([WakeData(data[..6])] + WakeChunks(data[6..]))[1..] == WakeChunks(data[6..]);
    }
  }

  lemma SingleWakePayload(bytes: seq<byte>)
    ensures WakePayload([WakeData(bytes)]) == bytes
  {
    assert [WakeData(bytes)][1..] == [];
  }

  /** The starts that end in groups of six rather than in a row table. */
  predicate SendsGroups(c: Config, s: Start) {
    match s
    case FirmwareStart(_) => c.chip != W1U
    case QuickStart => c.chip != W2
    case ResetStart => false
  }

  /** A W1 that downloads its firmware sends one group only. */
  predicate SendsOneGroup(c: Config, s: Start) {
    s.FirmwareStart? && c.chip == W1
  }

  /** The configured bytes that a start is meant to send. */
  function MeantWakeData(c: Config, s: Start, manfCnt: nat): seq<byte>
    requires c.Valid() && WholeGroups(manfCnt)
  {
    if manfCnt == 0 then DEFAULT_MANF_DATA
    else if SendsOneGroup(c, s) then c.manfData[..6]
    else c.manfData[..manfCnt]
  }

  lemma WakePlanPayload(c: Config, manfCnt: nat, once: bool)
    requires c.Valid() && WholeGroups(manfCnt)
    ensures WakePayload(WakePlan(c, 0, manfCnt, once))
         == if manfCnt == 0 then DEFAULT_MANF_DATA else if once then c.manfData[..6] else c.manfData[..manfCnt]
  {
    if manfCnt == 0 {
      SingleWakePayload(DEFAULT_MANF_DATA);
    } else if once {
      SingleWakePayload(c.manfData[0..0 + 6]);
      assert c.manfData[0..0 + 6] == c.manfData[..6];
    } else {
      WakeChunksPayload(c.manfData[0..0 + manfCnt]);
      assert c.manfData[0..0 + manfCnt] == c.manfData[..manfCnt];
    }
  }

  lemma OpeningHasNoWakeData(cmds: seq<Command>)
    requires OpeningOnly(cmds)
    ensures NoWakeData(cmds)
  {
    forall i | 0 <= i < |cmds|
      ensures !cmds[i].WakeData?
    {
      assert IsOpening(cmds[i]);
    }
  }

  lemma ClosingEndsInWake(c: Config, manfCnt: nat)
    requires c.Valid() && WholeGroups(manfCnt)
    ensures var mid := ReleasePlan(c) + [WriteBdAddr(c.bdAddr)];
            ClosingPlan(c, manfCnt) == mid + FinalPlan(c, manfCnt) && NoWakeData(mid)
  {
    ClosingAroundAddress(c, manfCnt);
  }

  lemma FirmwarePlanEndsInWake(c: Config, file: seq<byte>, manfCnt: nat) returns (lead: seq<Command>)
    requires c.Valid() && Loadable(c.chip, c.intf, file) && WholeGroups(manfCnt)
    requires !NothingToDownload(c, FirmwareStart(file))
    ensures Plan(c, FirmwareStart(file), manfCnt) == lead + FinalPlan(c, manfCnt) && NoWakeData(lead)
  {
    PlanInTwo(c, file, manfCnt);
    BeforeClosingStores(c, file);
    OpeningHasNoWakeData(BeforeClosing(c, file));
    ClosingEndsInWake(c, manfCnt);
    lead := LeadAndFinal(BeforeClosing(c, file), ReleasePlan(c) + [WriteBdAddr(c.bdAddr)], FinalPlan(c, manfCnt));
  }

  lemma LeadAndFinal(a: seq<Command>, b: seq<Command>, f: seq<Command>) returns (lead: seq<Command>)
    requires NoWakeData(a) && NoWakeData(b)
    ensures a + (b + f) == lead + f && NoWakeData(lead)
  {
    lead := a + b;
  }

  lemma PlanPayload(c: Config, s: Start, manfCnt: nat)
    requires Startable(c, s) && WholeGroups(manfCnt) && SendsGroups(c, s) && !NothingToDownload(c, s)
    ensures WakePayload(Plan(c, s, manfCnt)) == MeantWakeData(c, s, manfCnt)
  {
    match s
    case FirmwareStart(file) =>
      var lead := FirmwarePlanEndsInWake(c, file, manfCnt);
      WakePayloadAppend(lead, FinalPlan(c, manfCnt));
      NoWakePayload(lead);
      WakePlanPayload(c, manfCnt, c.chip == W1);
    case QuickStart =>
      var lead := [WriteBdAddr(c.bdAddr)];
      WakePayloadAppend(lead, WakePlan(c, 0, manfCnt, false));
      NoWakePayload(lead);
      WakePlanPayload(c, manfCnt, false);
  }

  // ----- the counters -----

  /** What a successful run leaves in `amlbt_manf_cnt`. */
  function LeftOver(c: Config, s: Start, manfCnt: nat): int {
    if manfCnt == 0 then 0 else if SendsOneGroup(c, s) then manfCnt - 6 else 0
  }

  function WakeState(s: Start): HwState {
    if s.QuickStart? then SetWakeup else SetBdAddr
  }

  /** How far the counters have come in a given state. */
  ghost predicate Counted(c: Config, s: Start, manfCnt: nat, g: Globals) {
    if g.state == SetManuData then g.cnt == 0 && g.manfCnt == LeftOver(c, s, manfCnt)
    else if g.state == WakeState(s) then
      && g.cnt + g.manfCnt == manfCnt
      && (g.manfCnt == 0 || SendsOneGroup(c, s) ==> g.cnt == 0)
    else s.FirmwareStart? && g.manfCnt == manfCnt && (Downloading(g.state) || CountsFromZero(g.state))
         && g.state != SetWaveform
  }

  lemma WakeStepCounts(c: Config, s: Start, manfCnt: nat, g: Globals)
    requires c.Valid() && Sound(c, g) && SendsGroups(c, s) && Counted(c, s, manfCnt, g) && g.state == WakeState(s)
    ensures var o := WakeStep(c, g, SendsOneGroup(c, s)); o.Offer? && Counted(c, s, manfCnt, o.next)
  {
  }

  lemma EarlyStepCounts(c: Config, s: Start, manfCnt: nat, g: Globals, nodeOk: bool)
    requires c.Valid() && Sound(c, g) && SendsGroups(c, s) && Counted(c, s, manfCnt, g) && Downloading(g.state)
    ensures var o := Dispatch(c, g, true, nodeOk);
            (o.Offer? ==> Counted(c, s, manfCnt, o.next)) && !o.Finish?
  {
  }

  lemma StepCounts(c: Config, s: Start, manfCnt: nat, g: Globals, mallocOk: bool, nodeOk: bool)
    requires c.Valid() && Sound(c, g) && SendsGroups(c, s) && Counted(c, s, manfCnt, g)
    ensures var o := Dispatch(c, g, mallocOk, nodeOk);
            (o.Offer? ==> Counted(c, s, manfCnt, o.next)) && (o.Finish? ==> g.state == SetManuData)
  {
    if g.state == WakeState(s) {
      WakeStepCounts(c, s, manfCnt, g);
    } else if Downloading(g.state) {
      EarlyStepCounts(c, s, manfCnt, g, nodeOk);
    }
  }

  lemma CompletionCounts(c: Config, s: Start, manfCnt: nat, v: View, e: Completion)
    requires Underway(c, v) && SendsGroups(c, s) && Counted(c, s, manfCnt, v.g)
    ensures var v' := Complete(c, v, e);
            if Awaiting(v') then Underway(c, v') && Counted(c, s, manfCnt, v'.g) && v'.led.verdicts == v.led.verdicts
            else v'.led.verdicts == v.led.verdicts + [true] ==>
                   v'.g.cnt == 0 && v'.g.manfCnt == LeftOver(c, s, manfCnt)
  {
    StepCounts(c, s, manfCnt, v.g, e.mallocOk, e.nodeOk);
    StepOnPlan(c, v.g, e.mallocOk, e.nodeOk);
    OutcomeCounts(c, s, manfCnt, v, e, Dispatch(c, v.g, e.mallocOk, e.nodeOk), Complete(c, v, e));
  }

  lemma OutcomeCounts(c: Config, s: Start, manfCnt: nat, v: View, e: Completion, o: Outcome, v': View)
    requires Underway(c, v) && Counted(c, s, manfCnt, v.g) && OnPlan(c, v.g, o, e.mallocOk)
    requires v' == React(v.(led := v.led.Deliver()), v.led.next, e, o)
    requires (o.Offer? ==> Counted(c, s, manfCnt, o.next)) && (o.Finish? ==> v.g.state == SetManuData)
    ensures if Awaiting(v') then Underway(c, v') && Counted(c, s, manfCnt, v'.g) && v'.led.verdicts == v.led.verdicts
            else v'.led.verdicts == v.led.verdicts + [true] ==>
                   v'.g.cnt == 0 && v'.g.manfCnt == LeftOver(c, s, manfCnt)
  {
    Accounting(v, e, o);
    VerdictsDiffer(v.led.verdicts);
  }

  lemma VerdictsDiffer(verdicts: seq<bool>)
    ensures verdicts + [false] != verdicts + [true]
    ensures verdicts != verdicts + [true]
  {
    assert (verdicts + [false])[|verdicts|] != (verdicts + [true])[|verdicts|];
  }

  lemma {:induction false} RunCounts(c: Config, s: Start, manfCnt: nat, v: View, es: seq<Completion>)
    requires Underway(c, v) && SendsGroups(c, s) && Counted(c, s, manfCnt, v.g)
    ensures var w := Run(c, v, es);
            w.led.verdicts == v.led.verdicts + [true] ==> w.g.cnt == 0 && w.g.manfCnt == LeftOver(c, s, manfCnt)
    decreases |es|
  {
    if es == [] {
      VerdictsDiffer(v.led.verdicts);
    } else {
      var v' := Complete(c, v, es[0]);
      CompletionCounts(c, s, manfCnt, v, es[0]);
      if Awaiting(v') {
        RunCounts(c, s, manfCnt, v', es[1..]);
      }
    }
  }

  /**
   * Conservation of the configured wake-up data: a successful run has put exactly
   * the configured bytes on the wire, in order and once (a downloading W1 only its
   * first six), and has counted them down.
   */
  lemma WakeDataConserved(c: Config, v0: View, s: Start, allocOk: bool, xmitOk: bool, es: seq<Completion>)
    requires AtRest(c, v0) && Startable(c, s)
    requires (s.FirmwareStart? && c.chip != W1U) || (s == QuickStart && c.chip != W2)
    requires BringUpRun(c, v0, s, allocOk, xmitOk, es).led.verdicts == v0.led.verdicts + [true]
    ensures var v := BringUpRun(c, v0, s, allocOk, xmitOk, es);
            && v0.led.sent <= v.led.sent
            && WakePayload(SentSince(v0, v)) == MeantWakeData(c, s, v0.g.manfCnt)
            && MeantWakeData(c, s, v0.g.manfCnt)
               == (if v0.g.manfCnt == 0 then [0x05, 0x19, 0xff, 0x01, 0x0a, 0x0b]
                   else if s.FirmwareStart? && c.chip == W1 then c.manfData[..6]
                   else c.manfData[..v0.g.manfCnt])
            && v.g.cnt == 0 && v.g.manfCnt == LeftOver(c, s, v0.g.manfCnt)
            && v.g.manfCnt == (if v0.g.manfCnt > 0 && s.FirmwareStart? && c.chip == W1 then v0.g.manfCnt - 6 else 0)
            && AtRest(c, v)
  {
    RunFollowsPlan(c, v0, s, allocOk, xmitOk, es);
    PlanPayload(c, s, v0.g.manfCnt);
    BringUpTracks(c, v0, s, allocOk, xmitOk, es);
    BeginTracks(c, v0, s, allocOk, xmitOk);
    var v1 := Begin(c, v0, s, allocOk, xmitOk);
    EndsAtRest(c, v0, Plan(c, s, v0.g.manfCnt), NothingToDownload(c, s), BringUpRun(c, v0, s, allocOk, xmitOk, es));
    if Awaiting(v1) {
      BeginCounts(c, v0, s);
      RunCounts(c, s, v0.g.manfCnt, v1, es);
    } else {
      VerdictsDiffer(v0.led.verdicts);
      assert false;
    }
  }

  lemma EndsAtRest(c: Config, v0: View, plan: seq<Command>, doomed: bool, v: View)
    requires Tracks(c, v0, plan, doomed, v) && v.led.verdicts == v0.led.verdicts + [true]
    ensures AtRest(c, v)
  {
  }

  lemma BeginCounts(c: Config, v0: View, s: Start)
    requires AtRest(c, v0) && Startable(c, s) && SendsGroups(c, s)
    ensures Counted(c, s, v0.g.manfCnt, Begin(c, v0, s, true, true).g)
  {
  }

  /** Six configured bytes make a well-formed command exactly when the first of them is five. */
  lemma WakeGroupWellFormed(six: seq<byte>)
    requires |six| == 6
    ensures Parse(Wire(WakeData(six))).Some? <==> six[0] == 5
    ensures six[0] == 5 ==> Parse(Wire(WakeData(six))) == Some(RawCommand(HCI_VSC_WAKE_WRITE_DATA, six[1..]))
  {
    var p := Wire(WakeData(six));
    Le16RoundTrip(HCI_VSC_WAKE_WRITE_DATA);
    assert p[2] == six[0] && p[3..] == six[1..] && p[..2] == Le16(HCI_VSC_WAKE_WRITE_DATA);
  }

  // ----- length-prefixed records -----

  /** A record whose first byte counts the bytes behind it. */
  predicate IsRecord(r: seq<byte>) {
    |r| > 0 && |r| == r[0] as nat + 1
  }

  /** The receiver's walk over length-prefixed records; what is cut short is dropped. */
  function Walk(bytes: seq<byte>): seq<seq<byte>> {
    if bytes == [] || |bytes| < bytes[0] as nat + 1 then []
    else
      var n := bytes[0] as nat + 1;
      [bytes[..n]] + Walk(bytes[n..])
  }

  lemma {:induction false} WalkFlatten(records: seq<seq<byte>>)
    requires forall i :: 0 <= i < |records| ==> IsRecord(records[i])
    ensures Walk(Flatten(records)) == records
  {
    if records != [] {
      var r, rest := records[0], Flatten(records[1..]);
      assert (r + rest)[..|r|] == r && (r + rest)[|r|..] == rest;
      WalkFlatten(records[1..]);
    }
  }

  lemma {:induction false} SelectedAreRecords(c: Config, k: nat)
    requires c.Valid()
    ensures forall i :: 0 <= i < |SelectedRecords(c, k)| ==> IsRecord(SelectedRecords(c, k)[i])
    decreases MANF_ROW - k
  {
    if k < MANF_ROW {
      SelectedAreRecords(c, k + 1);
    }
  }

  /**
   * The receiver of the packet gets a well-formed command within the buffer size,
   * reads off the number of records and, walking the rest, the records themselves.
   */
  ghost predicate Delivers(p: Packet, records: seq<seq<byte>>) {
    && |p| >= HCI_CMD_PREAMBLE_SIZE && |p| == HCI_CMD_PREAMBLE_SIZE + p[2] <= HCI_CMD_MAX_LEN
    && Parse(p).Some?
    && Parse(p).value.opcode == HCI_VSC_WAKE_WRITE_DATA
    && var params := Parse(p).value.params;
       params != [] && params[0] == |records| && Walk(params[1..]) == records
  }

  /**
   * The row-table command carries its records intact exactly when they fit the
   * length byte: the receiver gets their number and, walking the rest, the selected
   * rows in order. Beyond 254 bytes the length byte is truncated and the packet is
   * no command at all.
   */
  lemma RecordsRoundTrip(c: Config)
    requires c.Valid()
    ensures var records := SelectedRecords(c, 0);
            var p := Wire(WakeRecords(records));
            && (Parse(p).Some? <==> |Flatten(records)| <= 254)
            && (|Flatten(records)| <= 254 ==> Delivers(p, records))
  {
    SelectedAreRecords(c, 0);
    RecordsCodec(SelectedRecords(c, 0));
  }

  lemma RecordsCodec(records: seq<seq<byte>>)
    requires |records| <= MANF_ROW && forall i :: 0 <= i < |records| ==> IsRecord(records[i])
    ensures var p := Wire(WakeRecords(records));
            && (Parse(p).Some? <==> |Flatten(records)| <= 254)
            && (|Flatten(records)| <= 254 ==> Delivers(p, records))
  {
    WalkFlatten(records);
    CountedParams(|records|, Flatten(records));
    if |Flatten(records)| <= 254 {
      DeliversRecords(Wire(WakeRecords(records)), Flatten(records), records);
    }
  }

  lemma DeliversRecords(p: Packet, flat: seq<byte>, records: seq<seq<byte>>)
    requires |records| < 0x100 && Walk(flat) == records
    requires Parse(p) == Some(RawCommand(HCI_VSC_WAKE_WRITE_DATA, [Low8(|records|)] + flat))
    requires |p| >= HCI_CMD_PREAMBLE_SIZE && |p| == HCI_CMD_PREAMBLE_SIZE + p[2] <= HCI_CMD_MAX_LEN
    ensures Delivers(p, records)
  {
    assert ([Low8(|records|)] + flat)[1..] == flat;
  }

  lemma CountedParams(n: nat, flat: seq<byte>)
    requires n < 0x100
    ensures var p := Encode(HCI_VSC_WAKE_WRITE_DATA, [Low8(n)] + flat);
            && (Parse(p).Some? <==> |flat| <= 254)
            && (|flat| <= 254 ==>
                  && |p| == HCI_CMD_PREAMBLE_SIZE + p[2] <= HCI_CMD_MAX_LEN
                  && Parse(p) == Some(RawCommand(HCI_VSC_WAKE_WRITE_DATA, [Low8(n)] + flat))
                  && ([Low8(n)] + flat)[1..] == flat)
  {
    ParseEncode(HCI_VSC_WAKE_WRITE_DATA, [Low8(n)] + flat);
  }
}
