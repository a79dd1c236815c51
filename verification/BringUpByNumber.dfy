/**
 * The bring-up in numbers: the bytes of every packet, the commands of every successful
 * run, and when a download succeeds, with no constant or predicate of the model in
 * between.
 */
module BringUpByNumber {
  import opened Bytes
  import opened HciCommand
  import opened FirmwareFile
  import opened BringUp
  import opened BringUpPlan
  import opened BringUpRuns
  import opened BringUpImage
  import opened BringUpEndings

  // ----- packets -----

  lemma RegisterPackets(reg: u32, value: u32)
    ensures Wire(WriteReg(reg, value))
         == [0xf1, 0xfe, 8,
             reg % 256, reg / 256 % 256, reg / 65536 % 256, reg / 16777216,
             value % 256, value / 256 % 256, value / 65536 % 256, value / 16777216]
    ensures Wire(ReadReg(reg))
         == [0xf0, 0xfe, 4, reg % 256, reg / 256 % 256, reg / 65536 % 256, reg / 16777216]
  {
  }

  lemma DownloadPacket(address: u32, data: seq<byte>)
    requires |data| <= 248
    ensures Wire(Download(address, data))
         == [0xf3, 0xfe, |data| + 4,
             address % 256, address / 256 % 256, address / 65536 % 256, address / 16777216] + data
  {
  }

  lemma AddressPacket(a: seq<byte>)
    requires |a| == 6
    ensures Wire(WriteBdAddr(a)) == [0x1a, 0xfc, 6, a[5], a[4], a[3], a[2], a[1], a[0]]
  {
    ReversedAt(a);
  }

  lemma WakePackets(six: seq<byte>, records: seq<seq<byte>>)
    requires |records| <= 16 && |Flatten(records)| <= 254
    ensures Wire(WakeData(six)) == [0x22, 0xfc] + six
    ensures Wire(WakeRecords(records)) == [0x22, 0xfc, |Flatten(records)| + 1, |records|] + Flatten(records)
    ensures Wire(Reset) == [0x03, 0x0c, 0]
  {
  }

  /** What goes out when nothing is configured is a well-formed command. */
  lemma DefaultWakeUp()
    ensures DEFAULT_MANF_DATA == [0x05, 0x19, 0xff, 0x01, 0x0a, 0x0b]
    ensures Parse(Wire(WakeData(DEFAULT_MANF_DATA))) == Some(RawCommand(0xfc22, [0x19, 0xff, 0x01, 0x0a, 0x0b]))
  {
    var p := Wire(WakeData(DEFAULT_MANF_DATA));
    assert p == [0x22, 0xfc, 0x05, 0x19, 0xff, 0x01, 0x0a, 0x0b];
    assert p[..2] == [0x22, 0xfc] && p[3..] == [0x19, 0xff, 0x01, 0x0a, 0x0b];
  }

  // ----- the commands of a run -----

  lemma {:induction false} WakeGroups(data: seq<byte>, k: nat)
    requires |data| % 6 == 0 && 6 * k < |data|
    ensures |WakeChunks(data)| == |data| / 6 && WakeChunks(data)[k] == WakeData(data[6 * k..6 * k + 6])
  {
    WakeChunksCount(data);
    if k > 0 {
      WakeGroups(data[6..], k - 1);
      assert data[6..][6 * (k - 1)..6 * (k - 1) + 6] == data[6 * k..6 * k + 6];
    }
  }

  lemma WakeInGroups(c: Config, n: nat)
    requires c.Valid() && WholeGroups(6 * n) && n > 0
    ensures WakePlan(c, 0, 6 * n, false)
         == seq(n, k requires 0 <= k < n => WakeData(c.manfData[6 * k..6 * k + 6]))
  {
    var data := c.manfData[0..0 + 6 * n];
    WakeChunksCount(data);
    forall k | 0 <= k < n
      ensures WakeChunks(data)[k] == WakeData(c.manfData[6 * k..6 * k + 6])
    {
      WakeGroups(data, k);
      assert data[6 * k..6 * k + 6] == c.manfData[6 * k..6 * k + 6];
    }
  }

  lemma WakeByNumber(c: Config, n: nat)
    requires c.Valid() && WholeGroups(6 * n)
    ensures FinalPlan(c, 6 * n)
         == if c.chip == W1U && c.manfPara != 0 then [WakeRecords(SelectedRecords(c, 0))]
            else if c.chip == W1U || n == 0 then [WakeData([0x05, 0x19, 0xff, 0x01, 0x0a, 0x0b])]
            else if c.chip == W1 then [WakeData(c.manfData[..6])]
            else seq(n, k requires 0 <= k < n => WakeData(c.manfData[6 * k..6 * k + 6]))
  {
    if n > 0 {
      WakeInGroups(c, n);
    }
    assert c.manfData[0..0 + 6] == c.manfData[..6];
  }

  lemma ClosingByNumber(c: Config, manfCnt: nat) returns (radio: seq<Command>)
    requires c.Valid() && WholeGroups(manfCnt)
    ensures radio == if c.chip == W2 then [WriteReg(0xf0_00d4, TxPowerWord(c) as int),
                                           WriteReg(0xf0_00ec, (c.fwlogConfig & 0x3) as int)] else []
    ensures ClosingPlan(c, manfCnt)
         == [WriteReg(0xa7_0014, 0), WriteReg(0xf0_3040, RfWord(c) as int)] + radio
            + [WriteReg(0xa7_000c, 0x800_0000),
               WriteReg(0xf0_3058, if c.chip == W1 || c.chip == W1U then 0x700 else 0x7_0000),
               WriteBdAddr(c.bdAddr)]
            + FinalPlan(c, manfCnt)
  {
    radio := if c.chip == W2 then [TxPowerCommand(c), FwlogCommand(c)] else [];
  }

  lemma ImageByNumber(c: Config, file: seq<byte>, manfCnt: nat)
    requires c.Valid() && Loadable(c.chip, c.intf, file) && WholeGroups(manfCnt)
    requires !NothingToDownload(c, FirmwareStart(file))
    ensures var romSize := if c.chip == W2L then 393216 else 262144;
            romSize < |IccmImage(c.chip, c.intf, file)| &&
            Plan(c, FirmwareStart(file), manfCnt)
            == [WriteReg(0xa7_0014, 0x100_0000), WriteReg(0xf0_3050, 0)]
               + (Chunks(romSize, IccmImage(c.chip, c.intf, file)[romSize..])
                  + Chunks(0xd0_0000, DccmImage(c.chip, c.intf, file))
                  + ClosingPlan(c, manfCnt))
  {
  }

  lemma InARow<T>(a: seq<T>, b: seq<T>, c: seq<T>, d: seq<T>, e: seq<T>, f: seq<T>, g: seq<T>)
    ensures a + ((b + c) + (d + e + f + g)) == a + b + c + d + e + f + g
  {
  }

  /**
   * The commands of a successful download: two register writes, the image, the close of
   * the download, the settings of the radio, the release of the CPU, the device address,
   * and the wake-up data, of which there are `n` groups of six.
   */
  lemma DownloadRun(
    c: Config, v0: View, file: seq<byte>, allocOk: bool, xmitOk: bool, es: seq<Completion>, n: nat)
    returns (radio: seq<Command>, wake: seq<Command>)
    requires AtRest(c, v0) && c.Valid() && Loadable(c.chip, c.intf, file) && v0.g.manfCnt == 6 * n
    requires BringUpRun(c, v0, FirmwareStart(file), allocOk, xmitOk, es).led.verdicts == v0.led.verdicts + [true]
    ensures radio == if c.chip == W2 then [WriteReg(0xf0_00d4, TxPowerWord(c) as int),
                                           WriteReg(0xf0_00ec, (c.fwlogConfig & 0x3) as int)] else []
    ensures wake == (if c.chip == W1U && c.manfPara != 0 then [WakeRecords(SelectedRecords(c, 0))]
                     else if c.chip == W1U || n == 0 then [WakeData([0x05, 0x19, 0xff, 0x01, 0x0a, 0x0b])]
                     else if c.chip == W1 then [WakeData(c.manfData[..6])]
                     else seq(n, k requires 0 <= k < n => WakeData(c.manfData[6 * k..6 * k + 6])))
    ensures v0.led.sent <= BringUpRun(c, v0, FirmwareStart(file), allocOk, xmitOk, es).led.sent
    ensures var sent := SentSince(v0, BringUpRun(c, v0, FirmwareStart(file), allocOk, xmitOk, es));
            var romSize := if c.chip == W2L then 393216 else 262144;
            romSize < |IccmImage(c.chip, c.intf, file)| &&
            sent == [WriteReg(0xa7_0014, 0x100_0000), WriteReg(0xf0_3050, 0)]
                    + Chunks(romSize, IccmImage(c.chip, c.intf, file)[romSize..])
                    + Chunks(0xd0_0000, DccmImage(c.chip, c.intf, file))
                    + [WriteReg(0xa7_0014, 0), WriteReg(0xf0_3040, RfWord(c) as int)]
                    + radio
                    + [WriteReg(0xa7_000c, 0x800_0000),
                       WriteReg(0xf0_3058, if c.chip == W1 || c.chip == W1U then 0x700 else 0x7_0000),
                       WriteBdAddr(c.bdAddr)]
                    + wake
  {
    RunFollowsPlan(c, v0, FirmwareStart(file), allocOk, xmitOk, es);
    WakeByNumber(c, n);
    wake := FinalPlan(c, 6 * n);
    ImageByNumber(c, file, 6 * n);
    radio := ClosingByNumber(c, 6 * n);
    var romSize := if c.chip == W2L then 393216 else 262144;
    InARow([WriteReg(0xa7_0014, 0x100_0000), WriteReg(0xf0_3050, 0)],
           Chunks(romSize, IccmImage(c.chip, c.intf, file)[romSize..]),
           Chunks(0xd0_0000, DccmImage(c.chip, c.intf, file)),
           [WriteReg(0xa7_0014, 0), WriteReg(0xf0_3040, RfWord(c) as int)],
           radio,
           [WriteReg(0xa7_000c, 0x800_0000),
            WriteReg(0xf0_3058, if c.chip == W1 || c.chip == W1U then 0x700 else 0x7_0000),
            WriteBdAddr(c.bdAddr)],
           wake);
  }

  /** The commands of the two other starts. */
  lemma OtherRuns(
    c: Config, v0: View, s: Start, allocOk: bool, xmitOk: bool, es: seq<Completion>, n: nat)
    requires AtRest(c, v0) && c.Valid() && !s.FirmwareStart? && v0.g.manfCnt == 6 * n
    requires BringUpRun(c, v0, s, allocOk, xmitOk, es).led.verdicts == v0.led.verdicts + [true]
    ensures v0.led.sent <= BringUpRun(c, v0, s, allocOk, xmitOk, es).led.sent
    ensures SentSince(v0, BringUpRun(c, v0, s, allocOk, xmitOk, es))
         == if s == ResetStart then [Reset]
            else if c.chip == W2 && c.intf == Usb then [WriteBdAddr(c.bdAddr)]
            else if c.chip == W2 && c.manfPara != 0 then
              [WriteBdAddr(c.bdAddr), WakeRecords(SelectedRecords(c, 0))]
            else if c.chip == W2 || n == 0 then
              [WriteBdAddr(c.bdAddr), WakeData([0x05, 0x19, 0xff, 0x01, 0x0a, 0x0b])]
            else
              [WriteBdAddr(c.bdAddr)] + seq(n, k requires 0 <= k < n => WakeData(c.manfData[6 * k..6 * k + 6]))
  {
    RunFollowsPlan(c, v0, s, allocOk, xmitOk, es);
    if n > 0 {
      WakeInGroups(c, n);
    }
  }

  // ----- when a download succeeds -----

  /** In a download, the only command that carries rows is the last one of a W1U with a mask. */
  lemma RowsComeLast(c: Config, file: seq<byte>, manfCnt: nat, k: nat)
    requires c.Valid() && Loadable(c.chip, c.intf, file) && WholeGroups(manfCnt)
    requires !NothingToDownload(c, FirmwareStart(file)) && k < |Plan(c, FirmwareStart(file), manfCnt)|
    ensures Plan(c, FirmwareStart(file), manfCnt)[k].WakeRecords?
            <==> c.chip == W1U && c.manfPara != 0 && k == |Plan(c, FirmwareStart(file), manfCnt)| - 1
  {
    PlanInTwo(c, file, manfCnt);
    BeforeClosingStores(c, file);
    var before, closing := BeforeClosing(c, file), ClosingPlan(c, manfCnt);
    if k < |before| {
      assert IsOpening(before[k]);
    } else {
      assert (before + closing)[k] == closing[k - |before|];
      RowsCloseLast(c, manfCnt, k - |before|);
    }
  }

  lemma RowsCloseLast(c: Config, manfCnt: nat, k: nat)
    requires c.Valid() && WholeGroups(manfCnt) && k < |ClosingPlan(c, manfCnt)|
    ensures ClosingPlan(c, manfCnt)[k].WakeRecords?
            <==> c.chip == W1U && c.manfPara != 0 && k == |ClosingPlan(c, manfCnt)| - 1
  {
    if c.chip != W1U && c.chip != W1 && manfCnt > 0 {
      WakeChunksCount(c.manfData[0..0 + manfCnt]);
    }
  }

  /**
   * A download succeeds exactly if the ICCM reaches beyond the ROM, the first buffer
   * and command are accepted, each of the first `m` completions sends a command, and the
   * one behind them arrives well; `m` is six more than the blocks of the two images and
   * the wake-up commands together, and two more again on a W2.
   */
  lemma DownloadSucceedsExactly(
    c: Config, v0: View, file: seq<byte>, allocOk: bool, xmitOk: bool, es: seq<Completion>) returns (i: int, m: nat)
    requires AtRest(c, v0) && c.Valid() && Loadable(c.chip, c.intf, file)
    ensures i == |IccmImage(c.chip, c.intf, file)| - if c.chip == W2L then 393216 else 262144
    ensures i > 0 ==>
              m == 6 + (i + 247) / 248 + (|DccmImage(c.chip, c.intf, file)| + 247) / 248
                   + (if c.chip == W1 || c.chip == W1U || v0.g.manfCnt == 0 then 1 else v0.g.manfCnt / 6)
                   + if c.chip == W2 then 2 else 0
    ensures BringUpRun(c, v0, FirmwareStart(file), allocOk, xmitOk, es).led.verdicts == v0.led.verdicts + [true]
            <==> allocOk && xmitOk && i > 0 && |es| > m
                 && (forall k :: 0 <= k < m ==>
                       es[k].status == 0 && es[k].allocOk && es[k].xmitOk
                       && (c.chip == W1U && c.manfPara != 0 && k == m - 1 ==> es[k].mallocOk))
                 && es[m].status == 0 && es[m].allocOk
  {
    var s := FirmwareStart(file);
    i, m := |IccmImage(c.chip, c.intf, file)| - (if c.chip == W2L then 393216 else 262144), 0;
    OutcomeOnInputs(c, v0, s, allocOk, xmitOk, es);
    if i > 0 {
      DownloadRunLength(c, file, v0.g.manfCnt);
      m := |Plan(c, s, v0.g.manfCnt)| - 1;
      CompletesExactly(c, file, v0.g.manfCnt, es, m);
    }
  }

  lemma CompletesExactly(c: Config, file: seq<byte>, manfCnt: nat, es: seq<Completion>, m: nat)
    requires c.Valid() && Loadable(c.chip, c.intf, file) && WholeGroups(manfCnt)
    requires !NothingToDownload(c, FirmwareStart(file)) && m + 1 == |Plan(c, FirmwareStart(file), manfCnt)|
    ensures Completes(es, Plan(c, FirmwareStart(file), manfCnt)[1..])
            <==> |es| > m
                 && (forall k :: 0 <= k < m ==>
                       es[k].status == 0 && es[k].allocOk && es[k].xmitOk
                       && (c.chip == W1U && c.manfPara != 0 && k == m - 1 ==> es[k].mallocOk))
                 && es[m].status == 0 && es[m].allocOk
  {
    var later := Plan(c, FirmwareStart(file), manfCnt)[1..];
    forall k | 0 <= k < |later| && k < |es|
      ensures Sends(es[k], later[k]) <==>
                es[k].status == 0 && es[k].allocOk && es[k].xmitOk
                && (c.chip == W1U && c.manfPara != 0 && k == |later| - 1 ==> es[k].mallocOk)
    {
      RowsComeLast(c, file, manfCnt, k + 1);
    }
  }

  /**
   * A download ends without a verdict exactly if its first command is refused, or, on a
   * W1U behind SDIO or PCIe, the `b` completions before the one that is to send the last
   * block arrive well, that one is refused its command, and the device node does not open.
   */
  lemma DownloadHangsExactly(
    c: Config, v0: View, file: seq<byte>, allocOk: bool, xmitOk: bool, es: seq<Completion>) returns (i: int, b: int)
    requires AtRest(c, v0) && c.Valid() && Loadable(c.chip, c.intf, file)
    ensures i == |IccmImage(c.chip, c.intf, file)| - if c.chip == W2L then 393216 else 262144
    ensures i > 0 ==> b == (i + 247) / 248 + (|DccmImage(c.chip, c.intf, file)| + 247) / 248
    ensures var v := BringUpRun(c, v0, FirmwareStart(file), allocOk, xmitOk, es);
            !Awaiting(v) && v.led.verdicts == v0.led.verdicts
            <==> allocOk && (!xmitOk ||
                   (c.chip == W1U && c.intf != Usb && i > 0 && |es| > b
                    && (forall k :: 0 <= k < b ==> es[k].status == 0 && es[k].allocOk && es[k].xmitOk)
                    && es[b].status == 0 && es[b].allocOk && !es[b].xmitOk && !es[b].nodeOk))
  {
    i, b := |IccmImage(c.chip, c.intf, file)| - (if c.chip == W2L then 393216 else 262144), 0;
    OutcomeOnInputs(c, v0, FirmwareStart(file), allocOk, xmitOk, es);
    if i > 0 {
      b := BlocksByNumber(c, file);
      RefusedExactly(es, b);
    }
  }

  lemma BlocksByNumber(c: Config, file: seq<byte>) returns (b: nat)
    requires c.Valid() && Loadable(c.chip, c.intf, file) && !NothingToDownload(c, FirmwareStart(file))
    ensures b == (|IccmImage(c.chip, c.intf, file)| - (if c.chip == W2L then 393216 else 262144) + 247) / 248
                 + (|DccmImage(c.chip, c.intf, file)| + 247) / 248
    ensures b == |BeforeClosing(c, file)| - 2
  {
    ChunksAreDownloads(ICCM_RAM_BASE + c.RomSize(), IccmImage(c.chip, c.intf, file)[c.RomSize()..]);
    ChunksAreDownloads(DCCM_RAM_BASE, DccmImage(c.chip, c.intf, file));
    b := |BeforeClosing(c, file)| - 2;
  }

  lemma RefusedExactly(es: seq<Completion>, b: nat)
    ensures RefusedAfter(es, b)
            <==> |es| > b
                 && (forall k :: 0 <= k < b ==> es[k].status == 0 && es[k].allocOk && es[k].xmitOk)
                 && es[b].status == 0 && es[b].allocOk && !es[b].xmitOk && !es[b].nodeOk
  {
    assert RefusedAfter(es, b) ==> forall k :: 0 <= k < b ==> Clean(es[k]);
  }

  /**
   * A download from rest leaves its images allocated unless the first buffer and command
   * are accepted and all `b` blocks and the command before them go out, and the
   * completion that is to close the download gets its buffer; pointers to older images
   * are overwritten as soon as the first buffer is there.
   */
  lemma DownloadFreesExactly(
    c: Config, v0: View, file: seq<byte>, allocOk: bool, xmitOk: bool, es: seq<Completion>) returns (i: int, b: int)
    requires AtRest(c, v0) && c.Valid() && Loadable(c.chip, c.intf, file)
    ensures i == |IccmImage(c.chip, c.intf, file)| - if c.chip == W2L then 393216 else 262144
    ensures i > 0 ==> b == (i + 247) / 248 + (|DccmImage(c.chip, c.intf, file)| + 247) / 248
    ensures var w := BringUpRun(c, v0, FirmwareStart(file), allocOk, xmitOk, es);
            && w.g.fwLost == v0.g.fwLost + (if allocOk && v0.g.fwLive then 1 else 0)
            && w.g.fwLive
               == if !allocOk then v0.g.fwLive
                  else !(xmitOk && i > 0 && |es| > b + 1
                         && (forall k :: 0 <= k <= b ==> es[k].status == 0 && es[k].allocOk && es[k].xmitOk)
                         && es[b + 1].status == 0 && es[b + 1].allocOk)
  {
    i, b := |IccmImage(c.chip, c.intf, file)| - (if c.chip == W2L then 393216 else 262144), 0;
    var s := Session(FirmwareStart(file), allocOk, xmitOk, es);
    BringUpImages(c, v0, s);
    if i > 0 {
      b := BlocksByNumber(c, file);
      ClosesExactly(es, b);
      assert FreesImages(c, s) == (allocOk && xmitOk && ClosesAfter(es, b + 1));
    }
  }

  lemma ClosesExactly(es: seq<Completion>, b: nat)
    ensures ClosesAfter(es, b + 1)
            <==> |es| > b + 1
                 && (forall k :: 0 <= k <= b ==> es[k].status == 0 && es[k].allocOk && es[k].xmitOk)
                 && es[b + 1].status == 0 && es[b + 1].allocOk
  {
    assert ClosesAfter(es, b + 1) ==> forall k :: 0 <= k <= b ==> Clean(es[k]);
  }
}
