/** From configuration text to the wire: the loader's tables and the bring-up's commands put together. */
module WakeConfiguration {
  import opened Bytes
  import opened HciCommand
  import opened FirmwareFile
  import opened BringUp
  import opened BringUpPlan
  import opened BringUpRuns
  import opened BringUpWake
  import ManfConf

  // ----- the row table -----

  /** The row table holds `groups`, one per row, and zeros elsewhere. */
  ghost predicate RowsHold(rows: seq<seq<byte>>, groups: seq<seq<byte>>) {
    && |rows| == MANF_ROW && |groups| <= MANF_ROW
    && (forall r :: 0 <= r < MANF_ROW ==> |rows[r]| == MANF_COLUMN)
    && forall r, k :: 0 <= r < MANF_ROW && 0 <= k < MANF_COLUMN ==>
         rows[r][k] == if r < |groups| && k < |groups[r]| then groups[r][k] else 0
  }

  /** Parsing a line into a fresh table, as values. */
  method LoadRows(line: string, ghost groups: seq<seq<byte>>) returns (rows: seq<seq<byte>>)
    requires ManfConf.SpellsGroups(line, groups)
    requires |groups| <= MANF_ROW && forall k :: 0 <= k < |groups| ==> |groups[k]| <= MANF_COLUMN
    ensures RowsHold(rows, groups)
  {
    var conf := new ManfConf.Conf();
    var index := conf.W1uManfDataSplit(line, groups);
    rows := [];
    for r := 0 to MANF_ROW
      invariant |rows| == r
      invariant forall q :: 0 <= q < r ==> |rows[q]| == MANF_COLUMN
      invariant forall q, k :: 0 <= q < r && 0 <= k < MANF_COLUMN ==> rows[q][k] == conf.rows[q, k]
    {
      rows := rows + [seq(MANF_COLUMN, k requires 0 <= k < MANF_COLUMN reads conf.rows => conf.rows[r, k])];
    }
  }

  /** The groups that the mask selects, from row `k` on; a selected row without a group reads as one zero byte. */
  function MaskedGroups(groups: seq<seq<byte>>, para: u32, k: nat): seq<seq<byte>>
    decreases |groups|, MANF_ROW - k
  {
    if k >= MANF_ROW then []
    else
      (if RowSelected(para, k) then [if k < |groups| then groups[k] else [0]] else [])
      + MaskedGroups(groups, para, k + 1)
  }

  lemma {:induction false} SelectedAreMasked(c: Config, groups: seq<seq<byte>>, k: nat)
    requires c.Valid() && RowsHold(c.w1uManfData, groups)
    requires forall i :: 0 <= i < |groups| ==> IsRecord(groups[i]) && |groups[i]| <= MANF_COLUMN
    ensures SelectedRecords(c, k) == MaskedGroups(groups, c.manfPara, k)
    decreases MANF_ROW - k
  {
    if k < MANF_ROW {
      SelectedAreMasked(c, groups, k + 1);
      var row := c.w1uManfData[k];
      assert row[..row[0] as nat + 1] == if k < |groups| then groups[k] else [0];
    }
  }

  function Pow2(n: nat): (p: nat)
    ensures p > 0
  {
    if n == 0 then 1 else 2 * Pow2(n - 1)
  }

  /** The sum of the powers of two for some rows, seen from row `k` on. */
  function MaskFrom(rows: seq<nat>, k: nat): nat
    requires forall i :: 0 <= i < |rows| ==> rows[i] >= k
  {
    if rows == [] then 0 else Pow2(rows[0] - k) + MaskFrom(rows[1..], k)
  }

  /** Row numbers below sixteen, the lowest first. */
  ghost predicate Increasing(rows: seq<nat>, k: nat) {
    && (forall i :: 0 <= i < |rows| ==> k <= rows[i] < 16)
    && forall i, j :: 0 <= i < j < |rows| ==> rows[i] < rows[j]
  }

  lemma {:induction false} MaskDoubles(rows: seq<nat>, k: nat)
    requires forall i :: 0 <= i < |rows| ==> rows[i] >= k + 1
    ensures MaskFrom(rows, k) == 2 * MaskFrom(rows, k + 1)
  {
    if rows != [] {
      MaskDoubles(rows[1..], k);
    }
  }

  /** A row table's mask from row `k` on, in halves: the bit of this row, and the rows behind it. */
  lemma MaskHalves(rows: seq<nat>, k: nat, w: nat, high: nat) returns (rest: seq<nat>)
    requires k < 16 && Increasing(rows, k) && w == MaskFrom(rows, k) + Pow2(16 - k) * high
    ensures Increasing(rest, k + 1) && rows == (if w % 2 == 1 then [k] else []) + rest
    ensures w / 2 == MaskFrom(rest, k + 1) + Pow2(15 - k) * high
  {
    var bit;
    rest, bit := FirstRow(rows, k);
    HighDoubles(Pow2(16 - k), Pow2(15 - k), high);
    ByHalves(w, bit, MaskFrom(rest, k + 1) + Pow2(15 - k) * high);
  }

  /** Whether row `k` is the first, and the rows behind it. */
  lemma FirstRow(rows: seq<nat>, k: nat) returns (rest: seq<nat>, bit: nat)
    requires k < 16 && Increasing(rows, k)
    ensures bit <= 1 && Increasing(rest, k + 1) && rows == (if bit == 1 then [k] else []) + rest
    ensures MaskFrom(rows, k) == bit + 2 * MaskFrom(rest, k + 1)
  {
    if rows != [] && rows[0] == k {
      rest, bit := rows[1..], 1;
      TailIncreasing(rows, k);
    } else {
      rest, bit := rows, 0;
      LaterIncreasing(rows, k);
    }
    MaskDoubles(rest, k);
  }

  lemma TailIncreasing(rows: seq<nat>, k: nat)
    requires Increasing(rows, k) && rows != []
    ensures Increasing(rows[1..], rows[0] + 1)
  {
  }

  lemma LaterIncreasing(rows: seq<nat>, k: nat)
    requires Increasing(rows, k) && (rows == [] || rows[0] != k)
    ensures Increasing(rows, k + 1)
  {
  }

  lemma ByHalves(w: nat, bit: nat, half: nat)
    requires bit <= 1 && w == bit + 2 * half
    ensures w % 2 == bit && w / 2 == half
  {
  }

  lemma HighDoubles(p: nat, half: nat, high: nat)
    requires p == 2 * half
    ensures p * high == 2 * (half * high)
  {
  }

  /** One record per row: its group, or one zero byte if there is none. */
  function GroupsOf(groups: seq<seq<byte>>, rows: seq<nat>): seq<seq<byte>> {
    seq(|rows|, i requires 0 <= i < |rows| => if rows[i] < |groups| then groups[rows[i]] else [0])
  }

  /** If the mask, shifted to row `k`, adds up to these rows, they are the ones it selects. */
  lemma {:induction false} MaskedAreRows(groups: seq<seq<byte>>, para: u32, rows: seq<nat>, k: nat, w: nat, high: nat)
    requires k <= 16 && Increasing(rows, k) && Shifted(para, k, w)
    requires w == MaskFrom(rows, k) + Pow2(16 - k) * high
    ensures MaskedGroups(groups, para, k) == GroupsOf(groups, rows)
    decreases 16 - k
  {
    if k < 16 {
      var rest := MaskHalves(rows, k, w, high);
      ShiftedOnce(para, k, w);
      MaskedAreRows(groups, para, rest, k + 1, w / 2, high);
      GroupsOfSplit(groups, if w % 2 == 1 then [k] else [], rest);
    } else {
      assert rows == [];
    }
  }

  /** Bit `n` of `w` is the mask's bit for row `k + n`. */
  ghost predicate Shifted(para: u32, k: nat, w: nat) {
    forall n: nat :: RowSelected(para, k + n) == Bit(w, n)
  }

  lemma ShiftedOnce(para: u32, k: nat, w: nat)
    requires Shifted(para, k, w)
    ensures RowSelected(para, k) == (w % 2 == 1) && Shifted(para, k + 1, w / 2)
  {
    assert RowSelected(para, k + 0) == Bit(w, 0);
    forall n: nat
      ensures RowSelected(para, k + 1 + n) == Bit(w / 2, n)
    {
      assert RowSelected(para, k + (1 + n)) == Bit(w, 1 + n);
    }
  }

  lemma GroupsOfSplit(groups: seq<seq<byte>>, a: seq<nat>, b: seq<nat>)
    ensures GroupsOf(groups, a + b) == GroupsOf(groups, a) + GroupsOf(groups, b)
  {
  }

  /** The mask, by its low sixteen bits as a sum of powers of two. */
  lemma MaskSelects(groups: seq<seq<byte>>, para: u32, rows: seq<nat>)
    requires Increasing(rows, 0) && para % 0x1_0000 == MaskFrom(rows, 0)
    ensures MaskedGroups(groups, para, 0) == GroupsOf(groups, rows)
  {
    PowersOfTwo();
    assert forall n: nat :: RowSelected(para, 0 + n) == Bit(para, n);
    MaskedAreRows(groups, para, rows, 0, para, para / 0x1_0000);
  }

  /** Bit 0 is row 0, bit 15 is row 15, and the mask has no further row. */
  lemma OuterRows(groups: seq<seq<byte>>)
    requires |groups| == 16
    ensures MaskedGroups(groups, 0x1_8001, 0) == [groups[0], groups[15]]
  {
    PowersOfTwo();
    assert MaskFrom([15], 0) == 0x8000 && [0, 15][1..] == [15];
    MaskSelects(groups, 0x1_8001, [0, 15]);
  }

  lemma PowersOfTwo()
    ensures Pow2(0) == 1 && Pow2(4) == 16 && Pow2(8) == 256 && Pow2(12) == 4096
    ensures Pow2(15) == 0x8000 && Pow2(16) == 0x1_0000
  {
    assert Pow2(4) == 16 && Pow2(8) == 256 && Pow2(12) == 4096;
  }

  /**
   * Wake-up data round trip: for length-prefixed groups in the row table and a mask
   * whose low sixteen bits are the sum of the powers of two for `rows`, the receiver of
   * the emitted command reads off the number of these rows and, walking the records,
   * exactly their groups in order, as long as their total fits; if it does not, what
   * is emitted is no command.
   */
  lemma RowTableRoundTrip(c: Config, groups: seq<seq<byte>>, rows: seq<nat>)
    requires c.Valid() && RowsHold(c.w1uManfData, groups) && c.manfPara != 0
    requires !(c.intf == Usb && c.chip == W2)
    requires forall i :: 0 <= i < |groups| ==> IsRecord(groups[i]) && |groups[i]| <= MANF_COLUMN
    requires Increasing(rows, 0) && c.manfPara % 0x1_0000 == MaskFrom(rows, 0)
    ensures |WaveformPlan(c)| == 1
    ensures var p := Wire(WaveformPlan(c)[0]); var chosen := GroupsOf(groups, rows);
            && (Parse(p).Some? <==> |Flatten(chosen)| <= 254)
            && (|Flatten(chosen)| <= 254 ==> Delivers(p, chosen))
  {
    MaskSelects(groups, c.manfPara, rows);
    SelectedAreMasked(c, groups, 0);
    RecordsRoundTrip(c);
  }

  /** The starts that end in a row table. */
  predicate SendsRows(c: Config, s: Start) {
    && (match s
        case FirmwareStart(_) => c.chip == W1U
        case QuickStart => c.chip == W2 && c.intf != Usb
        case ResetStart => false)
    && c.manfPara != 0
  }

  lemma PlanEndsInRows(c: Config, s: Start, manfCnt: nat)
    requires Startable(c, s) && WholeGroups(manfCnt) && SendsRows(c, s) && !NothingToDownload(c, s)
    ensures var plan := Plan(c, s, manfCnt);
            |plan| > 0 && |WaveformPlan(c)| == 1 && plan[|plan| - 1] == WaveformPlan(c)[0]
  {
    if s.FirmwareStart? {
      var lead := FirmwarePlanEndsInWake(c, s.file, manfCnt);
    }
  }

  /**
   * The same of runs: a successful download on a W1U, or quick start of a W2 off
   * USB, ends with a command from which the receiver reads off exactly the groups of
   * the rows in the mask, in order, or with none that parses, if their total does not
   * fit.
   */
  lemma RowsReachTheWire(
    c: Config, v0: View, s: Start, allocOk: bool, xmitOk: bool, es: seq<Completion>,
    groups: seq<seq<byte>>, rows: seq<nat>)
    requires AtRest(c, v0) && Startable(c, s) && RowsHold(c.w1uManfData, groups) && c.manfPara != 0
    requires (s.FirmwareStart? && c.chip == W1U) || (s == QuickStart && c.chip == W2 && c.intf != Usb)
    requires forall i :: 0 <= i < |groups| ==> IsRecord(groups[i]) && |groups[i]| <= MANF_COLUMN
    requires Increasing(rows, 0) && c.manfPara % 0x1_0000 == MaskFrom(rows, 0)
    requires BringUpRun(c, v0, s, allocOk, xmitOk, es).led.verdicts == v0.led.verdicts + [true]
    ensures var v := BringUpRun(c, v0, s, allocOk, xmitOk, es);
            && v0.led.sent <= v.led.sent && SentSince(v0, v) != []
            && var p := Wire(SentSince(v0, v)[|SentSince(v0, v)| - 1]);
               var chosen := GroupsOf(groups, rows);
            && (Parse(p).Some? <==> |Flatten(chosen)| <= 254)
            && (|Flatten(chosen)| <= 254 ==> Delivers(p, chosen))
  {
    RunFollowsPlan(c, v0, s, allocOk, xmitOk, es);
    PlanEndsInRows(c, s, v0.g.manfCnt);
    RowTableRoundTrip(c, groups, rows);
  }

  // ----- the flat table -----

  /** One command per group, in order. */
  function GroupCommands(groups: seq<seq<byte>>): seq<Command> {
    seq(|groups|, k requires 0 <= k < |groups| => WakeData(groups[k]))
  }

  lemma {:induction false} ChunksAreGroups(groups: seq<seq<byte>>)
    requires forall k :: 0 <= k < |groups| ==> |groups[k]| == 6
    ensures |Flatten(groups)| == 6 * |groups| && WakeChunks(Flatten(groups)) == GroupCommands(groups)
  {
    if groups != [] {
      var g, flat := groups[0], Flatten(groups);
      ChunksAreGroups(groups[1..]);
      assert flat[..6] == g && flat[6..] == Flatten(groups[1..]);
      assert WakeChunks(flat) == [WakeData(g)] + GroupCommands(groups[1..]);
    }
  }

  /**
   * A configuration of six-byte groups, sent by a successful run on a chip that
   * sends them all: the run ends with one command per configured group, in order,
   * and each of them parses to the group behind its length byte if that byte is five.
   */
  lemma GroupsReachTheWire(
    c: Config, v0: View, s: Start, allocOk: bool, xmitOk: bool, es: seq<Completion>, groups: seq<seq<byte>>)
    returns (lead: seq<Command>)
    requires AtRest(c, v0) && Startable(c, s)
    requires (s.FirmwareStart? && c.chip != W1U && c.chip != W1) || (s == QuickStart && c.chip != W2)
    requires groups != [] && forall k :: 0 <= k < |groups| ==> |groups[k]| == 6
    requires v0.g.manfCnt == |Flatten(groups)| && c.manfData[..v0.g.manfCnt] == Flatten(groups)
    requires BringUpRun(c, v0, s, allocOk, xmitOk, es).led.verdicts == v0.led.verdicts + [true]
    ensures var v := BringUpRun(c, v0, s, allocOk, xmitOk, es);
            && v0.led.sent <= v.led.sent
            && SentSince(v0, v) == lead + GroupCommands(groups) && NoWakeData(lead)
            && forall k :: 0 <= k < |groups| && groups[k][0] == 5 ==>
                 Parse(Wire(GroupCommands(groups)[k])) == Some(RawCommand(HCI_VSC_WAKE_WRITE_DATA, groups[k][1..]))
  {
    RunFollowsPlan(c, v0, s, allocOk, xmitOk, es);
    ChunksAreGroups(groups);
    lead := PlanEndsInGroups(c, s, v0.g.manfCnt, groups);
    forall k | 0 <= k < |groups|
      ensures groups[k][0] == 5 ==>
                Parse(Wire(GroupCommands(groups)[k])) == Some(RawCommand(HCI_VSC_WAKE_WRITE_DATA, groups[k][1..]))
    {
      WakeGroupWellFormed(groups[k]);
    }
  }

  lemma PlanEndsInGroups(c: Config, s: Start, manfCnt: nat, groups: seq<seq<byte>>) returns (lead: seq<Command>)
    requires Startable(c, s) && WholeGroups(manfCnt) && manfCnt > 0 && !NothingToDownload(c, s)
    requires SendsGroups(c, s) && !SendsOneGroup(c, s)
    requires c.manfData[..manfCnt] == Flatten(groups) && WakeChunks(Flatten(groups)) == GroupCommands(groups)
    ensures Plan(c, s, manfCnt) == lead + GroupCommands(groups) && NoWakeData(lead)
  {
    assert c.manfData[0..0 + manfCnt] == c.manfData[..manfCnt];
    match s
    case FirmwareStart(file) => lead := FirmwarePlanEndsInWake(c, file, manfCnt);
    case QuickStart => lead := [WriteBdAddr(c.bdAddr)];
  }
}
