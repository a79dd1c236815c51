/** What a bring-up leaves in the controller, and in which order it gets there. */
module BringUpImage {
  import opened Bytes
  import opened HciCommand
  import opened FirmwareFile
  import opened BringUp
  import opened BringUpPlan
  import opened BringUpRuns
  import opened DeviceMemory

  /** The stores a firmware download is meant to make: the ICCM above the ROM part, then the DCCM. */
  function ImageStores(romSize: nat, iccm: seq<byte>, dccm: seq<byte>): seq<Store>
    requires romSize <= |iccm|
  {
    StoresOf(ICCM_RAM_BASE + romSize, iccm[romSize..]) + StoresOf(DCCM_RAM_BASE, dccm)
  }

  lemma {:induction false} ChunksStores(address: nat, data: seq<byte>)
    requires address + |data| <= 0x100_0000
    ensures Stores(Chunks(address, data)) == StoresOf(address, data)
    decreases |data|
  {
    if data == [] {
    } else {
      var n := Min(RW_OPERATION_SIZE, |data|);
      var rest := Chunks(address + n, data[n..]);
      assert Chunks(address, data) == [Download(address, data[..n])] + rest;
      DownloadStores(address, data[..n]);
      StoresCons(Download(address, data[..n]), rest);
      ChunksStores(address + n, data[n..]);
      StoresOfSplit(address, data, n);
    }
  }

  ghost predicate WakeOnly(cmds: seq<Command>) {
    forall i :: 0 <= i < |cmds| ==> cmds[i].WakeData? || cmds[i].WakeRecords?
  }

  predicate SmallDownload(cmd: Command) {
    cmd.Download? && 0 < |cmd.data| <= RW_OPERATION_SIZE
  }

  ghost predicate SmallDownloads(cmds: seq<Command>) {
    forall i :: 0 <= i < |cmds| ==> SmallDownload(cmds[i])
  }

  /** The commands that may precede the close of the download. */
  predicate IsOpening(cmd: Command) {
    cmd == ENABLE_DOWNLOAD || cmd == POWER_UP_RAM || SmallDownload(cmd)
  }

  ghost predicate OpeningOnly(cmds: seq<Command>) {
    forall i :: 0 <= i < |cmds| ==> IsOpening(cmds[i])
  }

  lemma {:induction false} WakeChunksAreWake(data: seq<byte>)
    requires |data| % 6 == 0
    ensures WakeOnly(WakeChunks(data))
  {
    if data != [] {
      WakeChunksAreWake(data[6..]);
    }
  }

  lemma FinalPlanIsWake(c: Config, manfCnt: nat)
    requires c.Valid() && WholeGroups(manfCnt)
    ensures WakeOnly(FinalPlan(c, manfCnt))
  {
    if c.chip != W1U && c.chip != W1 && manfCnt > 0 {
      WakeChunksAreWake(c.manfData[0..0 + manfCnt]);
    }
  }

  lemma {:induction false} ChunksAreDownloads(address: nat, data: seq<byte>)
    requires address + |data| <= 0x100_0000
    ensures SmallDownloads(Chunks(address, data))
    ensures |Chunks(address, data)| == (|data| + RW_OPERATION_SIZE - 1) / RW_OPERATION_SIZE
    decreases |data|
  {
    if data != [] {
      var n := Min(RW_OPERATION_SIZE, |data|);
      ChunksAreDownloads(address + n, data[n..]);
    }
  }

  // ----- the plan of a firmware download, cut in two -----

  function BeforeClosing(c: Config, file: seq<byte>): seq<Command>
    requires c.Valid() && Loadable(c.chip, c.intf, file) && !NothingToDownload(c, FirmwareStart(file))
  {
    [ENABLE_DOWNLOAD, POWER_UP_RAM]
    + ImagePlan(c.RomSize(), IccmImage(c.chip, c.intf, file), DccmImage(c.chip, c.intf, file))
  }

  lemma PlanInTwo(c: Config, file: seq<byte>, manfCnt: nat)
    requires c.Valid() && Loadable(c.chip, c.intf, file) && WholeGroups(manfCnt)
    requires !NothingToDownload(c, FirmwareStart(file))
    ensures Plan(c, FirmwareStart(file), manfCnt) == BeforeClosing(c, file) + ClosingPlan(c, manfCnt)
  {
  }

  lemma ImagePlanStores(romSize: nat, iccm: seq<byte>, dccm: seq<byte>)
    requires romSize <= |iccm| <= MAX_ALLOC_SIZE && |dccm| <= MAX_ALLOC_SIZE
    ensures Stores(ImagePlan(romSize, iccm, dccm)) == ImageStores(romSize, iccm, dccm)
    ensures SmallDownloads(ImagePlan(romSize, iccm, dccm))
  {
    ChunksStores(ICCM_RAM_BASE + romSize, iccm[romSize..]);
    ChunksStores(DCCM_RAM_BASE, dccm);
    StoresAppend(Chunks(ICCM_RAM_BASE + romSize, iccm[romSize..]), Chunks(DCCM_RAM_BASE, dccm));
    ChunksAreDownloads(ICCM_RAM_BASE + romSize, iccm[romSize..]);
    ChunksAreDownloads(DCCM_RAM_BASE, dccm);
  }

  lemma BeforeClosingStores(c: Config, file: seq<byte>)
    requires c.Valid() && Loadable(c.chip, c.intf, file) && !NothingToDownload(c, FirmwareStart(file))
    ensures Stores(BeforeClosing(c, file))
         == ImageStores(c.RomSize(), IccmImage(c.chip, c.intf, file), DccmImage(c.chip, c.intf, file))
    ensures OpeningOnly(BeforeClosing(c, file))
  {
    var image := ImagePlan(c.RomSize(), IccmImage(c.chip, c.intf, file), DccmImage(c.chip, c.intf, file));
    ImagePlanStores(c.RomSize(), IccmImage(c.chip, c.intf, file), DccmImage(c.chip, c.intf, file));
    StoresAppend([ENABLE_DOWNLOAD, POWER_UP_RAM], image);
    NoStores([ENABLE_DOWNLOAD, POWER_UP_RAM]);
  }

  lemma ClosingStoresNothing(c: Config, manfCnt: nat)
    requires c.Valid() && WholeGroups(manfCnt)
    ensures DownloadFree(ClosingPlan(c, manfCnt))
    ensures ClosingPlan(c, manfCnt)[0] == CLOSE_DOWNLOAD
  {
    FinalPlanIsWake(c, manfCnt);
  }

  // ----- the image -----

  lemma ImageStoresOnce(romSize: nat, iccm: seq<byte>, dccm: seq<byte>)
    requires romSize <= |iccm| <= MAX_ALLOC_SIZE
    ensures Once(ImageStores(romSize, iccm, dccm))
  {
  }

  /** The memory that a download is meant to leave, address by address. */
  ghost predicate HoldsImage(m: Memory, m0: Memory, romSize: nat, iccm: seq<byte>, dccm: seq<byte>) {
    forall a: nat ::
      if romSize <= a - ICCM_RAM_BASE < |iccm| then a in m && m[a] == iccm[a - ICCM_RAM_BASE]
      else if 0 <= a - DCCM_RAM_BASE < |dccm| then a in m && m[a] == dccm[a - DCCM_RAM_BASE]
      else (a in m <==> a in m0) && (a in m ==> m[a] == m0[a])
  }

  lemma ImageStoresHold(m0: Memory, romSize: nat, iccm: seq<byte>, dccm: seq<byte>)
    requires romSize <= |iccm| <= MAX_ALLOC_SIZE
    ensures HoldsImage(Execute(m0, ImageStores(romSize, iccm, dccm)), m0, romSize, iccm, dccm)
  {
    var ss := ImageStores(romSize, iccm, dccm);
    ImageStoresOnce(romSize, iccm, dccm);
    var upper := |iccm| - romSize;
    forall a: nat
      ensures if romSize <= a - ICCM_RAM_BASE < |iccm| then
                a in Execute(m0, ss) && Execute(m0, ss)[a] == iccm[a - ICCM_RAM_BASE]
              else if 0 <= a - DCCM_RAM_BASE < |dccm| then
                a in Execute(m0, ss) && Execute(m0, ss)[a] == dccm[a - DCCM_RAM_BASE]
              else (a in Execute(m0, ss) <==> a in m0) && (a in Execute(m0, ss) ==> Execute(m0, ss)[a] == m0[a])
    {
      if romSize <= a - ICCM_RAM_BASE < |iccm| {
        assert ss[a - romSize] == Store(a, iccm[a]);
        ExecuteHits(m0, ss, a - romSize);
      } else if 0 <= a - DCCM_RAM_BASE < |dccm| {
        assert ss[upper + (a - DCCM_RAM_BASE)] == Store(a, dccm[a - DCCM_RAM_BASE]);
        ExecuteHits(m0, ss, upper + (a - DCCM_RAM_BASE));
      } else {
        ExecuteElsewhere(m0, ss, a);
      }
    }
  }

  lemma PlanStores(c: Config, file: seq<byte>, manfCnt: nat)
    requires c.Valid() && Loadable(c.chip, c.intf, file) && WholeGroups(manfCnt)
    requires !NothingToDownload(c, FirmwareStart(file))
    ensures Stores(Plan(c, FirmwareStart(file), manfCnt))
         == ImageStores(c.RomSize(), IccmImage(c.chip, c.intf, file), DccmImage(c.chip, c.intf, file))
  {
    PlanInTwo(c, file, manfCnt);
    BeforeClosingStores(c, file);
    ClosingStoresNothing(c, manfCnt);
    StoresAppend(BeforeClosing(c, file), ClosingPlan(c, manfCnt));
    NoStores(ClosingPlan(c, manfCnt));
  }

  /**
   * End-to-end firmware image: after any successful download run the controller
   * holds the file's ICCM above the ROM part and its whole DCCM, every other
   * address is as before, and no address was written twice.
   */
  lemma FirmwareImageArrives(
    c: Config, v0: View, file: seq<byte>, allocOk: bool, xmitOk: bool, es: seq<Completion>, m0: Memory)
    requires AtRest(c, v0) && c.Valid() && Loadable(c.chip, c.intf, file)
    requires BringUpRun(c, v0, FirmwareStart(file), allocOk, xmitOk, es).led.verdicts == v0.led.verdicts + [true]
    ensures var v := BringUpRun(c, v0, FirmwareStart(file), allocOk, xmitOk, es);
            && v0.led.sent <= v.led.sent
            && HoldsImage(Replay(m0, SentSince(v0, v)), m0, if c.chip == W2L then 393216 else 262144,
                          IccmImage(c.chip, c.intf, file), DccmImage(c.chip, c.intf, file))
            && Once(Stores(SentSince(v0, v)))
  {
    var s := FirmwareStart(file);
    RunFollowsPlan(c, v0, s, allocOk, xmitOk, es);
    var iccm, dccm := IccmImage(c.chip, c.intf, file), DccmImage(c.chip, c.intf, file);
    PlanStores(c, file, v0.g.manfCnt);
    ImageStoresOnce(c.RomSize(), iccm, dccm);
    ImageStoresHold(m0, c.RomSize(), iccm, dccm);
  }

  /** The predicate by address: the ICCM lies at zero, the DCCM at 0xd00000. */
  lemma HoldsImageMeans(m: Memory, m0: Memory, romSize: nat, iccm: seq<byte>, dccm: seq<byte>)
    requires |iccm| <= 0x10_0000
    ensures HoldsImage(m, m0, romSize, iccm, dccm) <==>
            && (forall a: nat :: romSize <= a < |iccm| ==> a in m && m[a] == iccm[a])
            && (forall a: nat :: 0xd0_0000 <= a < 0xd0_0000 + |dccm| ==> a in m && m[a] == dccm[a - 0xd0_0000])
            && (forall a: nat :: !(romSize <= a < |iccm|) && !(0xd0_0000 <= a < 0xd0_0000 + |dccm|) ==>
                  (a in m <==> a in m0) && (a in m ==> m[a] == m0[a]))
  {
  }

  /**
   * The same for a file given by its sections, in either layout, with the extra ICCM
   * skipped.
   */
  lemma FirmwareSectionsArrive(
    c: Config, v0: View, file: seq<byte>, iccm: seq<byte>, extra: seq<byte>, dccm: seq<byte>,
    allocOk: bool, xmitOk: bool, es: seq<Completion>, m0: Memory)
    requires AtRest(c, v0) && c.Valid() && 1 <= |iccm| <= 0x10_0000 && 1 <= |dccm| <= 0x10_0000
    requires |extra| < 0x1_0000_0000
    requires if extra == [] then
               && file == Le32(|iccm|) + Le32(|dccm|) + iccm + dccm
               && (c.chip == W1U && c.intf != Usb ==> [0x6f, 0x00, 0xc0, 0x0c] <= iccm + dccm)
             else
               && file == Le32(|iccm|) + Le32(|extra|) + Le32(|dccm|) + iccm + extra + dccm
               && c.chip == W1U && c.intf != Usb
    ensures Loadable(c.chip, c.intf, file)
    ensures IccmImage(c.chip, c.intf, file) == iccm && DccmImage(c.chip, c.intf, file) == dccm
    ensures var v := BringUpRun(c, v0, FirmwareStart(file), allocOk, xmitOk, es);
            v.led.verdicts == v0.led.verdicts + [true] ==>
              && v0.led.sent <= v.led.sent
              && HoldsImage(Replay(m0, SentSince(v0, v)), m0, if c.chip == W2L then 393216 else 262144, iccm, dccm)
  {
    if extra == [] {
      ShortLayoutLoads(c.chip, c.intf, iccm, dccm);
    } else {
      LongLayoutLoads(c.chip, c.intf, iccm, extra, dccm);
    }
    if BringUpRun(c, v0, FirmwareStart(file), allocOk, xmitOk, es).led.verdicts == v0.led.verdicts + [true] {
      FirmwareImageArrives(c, v0, file, allocOk, xmitOk, es, m0);
    }
  }

  // ----- order -----

  predicate IsCpuRelease(p: Packet) {
    var e := Decode(p); e.StoreReg? && e.reg == REG_DEV_RESET
  }

  predicate IsDownloadClose(p: Packet) {
    Decode(p) == StoreReg(REG_DOWNLOAD_MODE, 0)
  }

  lemma CommandIsNoRelease(cmd: Command)
    requires cmd.Download? ==> |cmd.data| <= RW_OPERATION_SIZE
    requires cmd.WriteReg? ==> cmd.reg != REG_DEV_RESET
    ensures !IsCpuRelease(Wire(cmd))
  {
    if cmd.Download? {
      DecodeDownload(cmd.address, cmd.data);
    } else if cmd.WriteReg? {
      DecodeWriteReg(cmd.reg, cmd.value);
    } else {
      DecodeOther(cmd);
    }
  }

  predicate ReleasesOrAddresses(cmd: Command) {
    IsCpuRelease(Wire(cmd)) || cmd.WriteBdAddr?
  }

  lemma OpeningReleasesNothing(cmd: Command)
    requires IsOpening(cmd) || cmd == CLOSE_DOWNLOAD
    ensures !ReleasesOrAddresses(cmd)
  {
    CommandIsNoRelease(cmd);
  }

  lemma CloseDecodes()
    ensures IsDownloadClose(Wire(CLOSE_DOWNLOAD))
  {
    DecodeWriteReg(REG_DOWNLOAD_MODE, 0);
  }

  lemma PrefixSplit<T>(a: seq<T>, b: seq<T>, sent: seq<T>, k: nat)
    requires sent <= a + b && |a| <= k <= |sent|
    ensures sent[..k] == a + b[..k - |a|]
  {
  }

  lemma StoresUpTo(before: seq<Command>, closing: seq<Command>, sent: seq<Command>, k: nat)
    requires sent <= before + closing && |before| <= k <= |sent|
    requires DownloadFree(closing)
    ensures Stores(sent[..k]) == Stores(before)
  {
    var tail := closing[..k - |before|];
    PrefixSplit(before, closing, sent, k);
    NoStores(tail);
    StoresAppend(before, tail);
  }

  lemma ReleaseIndex(before: seq<Command>, closing: seq<Command>, sent: seq<Command>, k: nat)
    requires sent <= before + closing && k < |sent| && ReleasesOrAddresses(sent[k])
    requires OpeningOnly(before)
    requires |closing| > 0 && closing[0] == CLOSE_DOWNLOAD
    ensures |before| < k && sent[|before|] == CLOSE_DOWNLOAD
  {
    assert sent[k] == (before + closing)[k];
    if k <= |before| {
      OpeningReleasesNothing(sent[k]);
    }
  }

  /**
   * In any prefix of a sequence whose first part releases nothing and whose second
   * part closes the download and stores nothing, all stores come before the close,
   * and the close before any release or device address.
   */
  lemma ReleaseComesLate(before: seq<Command>, closing: seq<Command>, sent: seq<Command>, k: nat)
    requires sent <= before + closing && k < |sent| && ReleasesOrAddresses(sent[k])
    requires OpeningOnly(before)
    requires |closing| > 0 && closing[0] == CLOSE_DOWNLOAD && DownloadFree(closing)
    ensures |before| < k && sent[|before|] == CLOSE_DOWNLOAD
    ensures Stores(sent[..|before|]) == Stores(sent[..k]) == Stores(before)
  {
    ReleaseIndex(before, closing, sent, k);
    StoresUpTo(before, closing, sent, k);
    StoresUpTo(before, closing, sent, |before|);
  }

  /** The image is complete after the first `n` commands, and the next one closed the download. */
  ghost predicate DownloadClosedAt(c: Config, file: seq<byte>, sent: seq<Command>, n: nat)
    requires Loadable(c.chip, c.intf, file)
  {
    && n < |sent| && IsDownloadClose(Wire(sent[n]))
    && c.RomSize() < |IccmImage(c.chip, c.intf, file)|
    && Stores(sent[..n]) == ImageStores(c.RomSize(), IccmImage(c.chip, c.intf, file), DccmImage(c.chip, c.intf, file))
  }

  /**
   * Ordering safety, over every run: when the CPU is released, or the device
   * address is sent, every image byte has already been stored, the download mode
   * has been closed since, and nothing was stored after that.
   */
  lemma ReleaseOnlyAfterDownload(
    c: Config, v0: View, file: seq<byte>, allocOk: bool, xmitOk: bool, es: seq<Completion>, k: nat)
    requires AtRest(c, v0) && c.Valid() && Loadable(c.chip, c.intf, file)
    requires var v := BringUpRun(c, v0, FirmwareStart(file), allocOk, xmitOk, es);
             v0.led.sent <= v.led.sent && k < |SentSince(v0, v)|
             && ReleasesOrAddresses(SentSince(v0, v)[k])
    ensures var sent := SentSince(v0, BringUpRun(c, v0, FirmwareStart(file), allocOk, xmitOk, es));
            exists n: nat | n < k ::
              DownloadClosedAt(c, file, sent[..k], n) && Stores(sent[..k]) == Stores(sent[..n])
  {
    var s := FirmwareStart(file);
    RunFollowsPlan(c, v0, s, allocOk, xmitOk, es);
    ReleaseInPrefix(c, file, v0.g.manfCnt, SentSince(v0, BringUpRun(c, v0, s, allocOk, xmitOk, es)), k);
  }

  lemma ReleaseInPrefix(c: Config, file: seq<byte>, manfCnt: nat, sent: seq<Command>, k: nat)
    requires c.Valid() && Loadable(c.chip, c.intf, file) && WholeGroups(manfCnt)
    requires sent <= Plan(c, FirmwareStart(file), manfCnt) && k < |sent| && ReleasesOrAddresses(sent[k])
    ensures exists n: nat | n < k ::
              DownloadClosedAt(c, file, sent[..k], n) && Stores(sent[..k]) == Stores(sent[..n])
  {
    if NothingToDownload(c, FirmwareStart(file)) {
      OpeningReleasesNothing(sent[k]);
      assert false;
    }
    PlanInTwo(c, file, manfCnt);
    BeforeClosingStores(c, file);
    ClosingStoresNothing(c, manfCnt);
    ReleaseComesLate(BeforeClosing(c, file), ClosingPlan(c, manfCnt), sent, k);
    ClosedAt(c, file, sent, k, |BeforeClosing(c, file)|);
  }

  lemma ClosedAt(c: Config, file: seq<byte>, sent: seq<Command>, k: nat, n: nat)
    requires c.Valid() && Loadable(c.chip, c.intf, file) && !NothingToDownload(c, FirmwareStart(file))
    requires n < k < |sent| && sent[n] == CLOSE_DOWNLOAD
    requires Stores(sent[..n])
          == ImageStores(c.RomSize(), IccmImage(c.chip, c.intf, file), DccmImage(c.chip, c.intf, file))
    ensures DownloadClosedAt(c, file, sent[..k], n)
  {
    CloseDecodes();
    assert sent[..k][..n] == sent[..n];
  }

  /** In any run of a download, the device address goes out right after the CPU release. */
  lemma AddressFollowsRelease(
    c: Config, v0: View, file: seq<byte>, allocOk: bool, xmitOk: bool, es: seq<Completion>, k: nat)
    requires AtRest(c, v0) && c.Valid() && Loadable(c.chip, c.intf, file)
    requires var v := BringUpRun(c, v0, FirmwareStart(file), allocOk, xmitOk, es);
             v0.led.sent <= v.led.sent && k < |SentSince(v0, v)| && SentSince(v0, v)[k].WriteBdAddr?
    ensures var sent := SentSince(v0, BringUpRun(c, v0, FirmwareStart(file), allocOk, xmitOk, es));
            && k > 0
            && Decode(Wire(sent[k - 1]))
               == StoreReg(0xf0_3058, if c.chip == W1 || c.chip == W1U then 0x700 else 0x7_0000)
  {
    var s := FirmwareStart(file);
    RunFollowsPlan(c, v0, s, allocOk, xmitOk, es);
    DecodeWriteReg(REG_DEV_RESET, CpuReleaseValue(c.chip));
    AddressInPlan(c, file, v0.g.manfCnt, SentSince(v0, BringUpRun(c, v0, s, allocOk, xmitOk, es)), k);
  }

  ghost predicate NoAddress(cmds: seq<Command>) {
    forall i :: 0 <= i < |cmds| ==> !cmds[i].WriteBdAddr?
  }

  lemma OnlyAddress(a: seq<Command>, b: seq<Command>, x: Command, sent: seq<Command>, k: nat)
    requires sent <= a + [x] + b && k < |sent| && sent[k].WriteBdAddr?
    requires NoAddress(a) && NoAddress(b)
    ensures k == |a|
  {
    assert sent[k] == (a + [x] + b)[k];
  }

  function ReleasePlan(c: Config): seq<Command> {
    [CLOSE_DOWNLOAD] + RadioPlan(c) + [START_CPU_CLOCK, CpuRelease(c)]
  }

  lemma ClosingAroundAddress(c: Config, manfCnt: nat)
    requires c.Valid() && WholeGroups(manfCnt)
    ensures ClosingPlan(c, manfCnt) == ReleasePlan(c) + ([WriteBdAddr(c.bdAddr)] + FinalPlan(c, manfCnt))
    ensures NoAddress(ReleasePlan(c)) && NoAddress(FinalPlan(c, manfCnt))
    ensures ReleasePlan(c)[|ReleasePlan(c)| - 1] == CpuRelease(c)
  {
    FinalPlanIsWake(c, manfCnt);
  }

  lemma BeforeClosingNoAddress(c: Config, file: seq<byte>)
    requires c.Valid() && Loadable(c.chip, c.intf, file) && !NothingToDownload(c, FirmwareStart(file))
    ensures NoAddress(BeforeClosing(c, file))
  {
    BeforeClosingStores(c, file);
  }

  lemma AddressInPlan(c: Config, file: seq<byte>, manfCnt: nat, sent: seq<Command>, k: nat)
    requires c.Valid() && Loadable(c.chip, c.intf, file) && WholeGroups(manfCnt)
    requires sent <= Plan(c, FirmwareStart(file), manfCnt) && k < |sent| && sent[k].WriteBdAddr?
    ensures k > 0 && sent[k - 1] == CpuRelease(c)
  {
    if NothingToDownload(c, FirmwareStart(file)) {
      assert false;
    }
    PlanInTwo(c, file, manfCnt);
    BeforeClosingNoAddress(c, file);
    ClosingAroundAddress(c, manfCnt);
    var before, release := BeforeClosing(c, file), ReleasePlan(c);
    assert before + (release + ([WriteBdAddr(c.bdAddr)] + FinalPlan(c, manfCnt)))
        == before + release + [WriteBdAddr(c.bdAddr)] + FinalPlan(c, manfCnt);
    OnlyAddress(before + release, FinalPlan(c, manfCnt), WriteBdAddr(c.bdAddr), sent, k);
    assert sent[k - 1] == (before + release)[k - 1];
  }

  /** A run that aborts has stored a prefix of the image, never a wrong byte. */
  lemma AbortedRunStoresPrefix(
    c: Config, v0: View, file: seq<byte>, allocOk: bool, xmitOk: bool, es: seq<Completion>)
    requires AtRest(c, v0) && c.Valid() && Loadable(c.chip, c.intf, file)
    requires !NothingToDownload(c, FirmwareStart(file))
    ensures var v := BringUpRun(c, v0, FirmwareStart(file), allocOk, xmitOk, es);
            && v0.led.sent <= v.led.sent
            && Stores(SentSince(v0, v))
               <= ImageStores(c.RomSize(), IccmImage(c.chip, c.intf, file), DccmImage(c.chip, c.intf, file))
  {
    RunFollowsPlan(c, v0, FirmwareStart(file), allocOk, xmitOk, es);
    PlanStores(c, file, v0.g.manfCnt);
    StoresPrefix(SentSince(v0, BringUpRun(c, v0, FirmwareStart(file), allocOk, xmitOk, es)),
                 Plan(c, FirmwareStart(file), v0.g.manfCnt));
  }

  /** An ICCM that ends in ROM stores nothing, releases nothing and never succeeds. */
  lemma NothingToDownloadFails(
    c: Config, v0: View, file: seq<byte>, allocOk: bool, xmitOk: bool, es: seq<Completion>)
    requires AtRest(c, v0) && c.Valid() && Loadable(c.chip, c.intf, file)
    requires |IccmImage(c.chip, c.intf, file)| <= (if c.chip == W2L then 393216 else 262144)
    ensures var v := BringUpRun(c, v0, FirmwareStart(file), allocOk, xmitOk, es);
            && v0.led.sent <= v.led.sent
            && SentSince(v0, v) <= [ENABLE_DOWNLOAD, POWER_UP_RAM]
            && v.led.verdicts != v0.led.verdicts + [true]
            && (allocOk && xmitOk && |es| >= 2 ==> v.led.verdicts == v0.led.verdicts + [false])
  {
    var s := FirmwareStart(file);
    RunFollowsPlan(c, v0, s, allocOk, xmitOk, es);
    OneVerdictExactOwnership(c, v0, s, allocOk, xmitOk, es);
    if allocOk && xmitOk && |es| >= 2 {
      RunIsBounded(c, v0, s, allocOk, xmitOk, es);
      DoomedRunDoesNotStrand(c, v0, s, es);
    }
  }

  lemma DoomedRunDoesNotStrand(c: Config, v0: View, s: Start, es: seq<Completion>)
    requires AtRest(c, v0) && Startable(c, s) && NothingToDownload(c, s)
    ensures !LosesBuffer(c, v0, s, true, true, es)
  {
    BeginTracks(c, v0, s, true, true);
    DoomedDoesNotStrand(c, Begin(c, v0, s, true, true), es);
  }

  lemma {:induction false} DoomedDoesNotStrand(c: Config, v: View, es: seq<Completion>)
    requires Underway(c, v) && Doomed(v.g)
    ensures !StrandsDuring(c, v, es)
    decreases |es|
  {
    if es != [] {
      CompletionOutcome(c, v, es[0]);
      var v' := Complete(c, v, es[0]);
      if Awaiting(v') {
        DoomedDoesNotStrand(c, v', es[1..]);
      }
    }
  }

  // ----- how many commands -----

  function CeilDiv(n: nat, d: nat): nat
    requires d > 0
  {
    (n + d - 1) / d
  }

  /** The wake-up commands of a download run, for every chip but the row-table W1U. */
  function WakeCommands(c: Config, manfCnt: nat): nat {
    if c.chip == W1 || c.chip == W1U || manfCnt == 0 then 1 else manfCnt / 6
  }

  lemma {:induction false} WakeChunksCount(data: seq<byte>)
    requires |data| % 6 == 0
    ensures |WakeChunks(data)| == |data| / 6
    ensures forall k :: 0 <= k < |WakeChunks(data)| ==> WakeChunks(data)[k].WakeData?
  {
    if data != [] {
      WakeChunksCount(data[6..]);
    }
  }

  /** Exact length of a successful download run, in commands and so in completions. */
  lemma DownloadRunLength(c: Config, file: seq<byte>, manfCnt: nat)
    requires c.Valid() && Loadable(c.chip, c.intf, file) && WholeGroups(manfCnt)
    requires |IccmImage(c.chip, c.intf, file)| > (if c.chip == W2L then 393216 else 262144)
    ensures var i := |IccmImage(c.chip, c.intf, file)| - (if c.chip == W2L then 393216 else 262144);
            var d := |DccmImage(c.chip, c.intf, file)|;
            |Plan(c, FirmwareStart(file), manfCnt)|
            == 7 + CeilDiv(i, 248) + CeilDiv(d, 248) + WakeCommands(c, manfCnt) + if c.chip == W2 then 2 else 0
  {
    var iccm, dccm := IccmImage(c.chip, c.intf, file), DccmImage(c.chip, c.intf, file);
    ChunksAreDownloads(ICCM_RAM_BASE + c.RomSize(), iccm[c.RomSize()..]);
    ChunksAreDownloads(DCCM_RAM_BASE, dccm);
    FinalPlanLength(c, manfCnt);
  }

  lemma FinalPlanLength(c: Config, manfCnt: nat)
    requires c.Valid() && WholeGroups(manfCnt)
    ensures |FinalPlan(c, manfCnt)| == WakeCommands(c, manfCnt)
  {
    if c.chip != W1U && c.chip != W1 && manfCnt > 0 {
      WakeChunksCount(c.manfData[0..0 + manfCnt]);
    }
  }
}
