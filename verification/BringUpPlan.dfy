/**
 * The straight-line form of a bring-up: the list of commands that a start is
 * meant to put on the wire. The state machine, spread over callbacks, is proved
 * to walk through this list one command per completion.
 */
module BringUpPlan {
  import opened Bytes
  import opened HciCommand
  import opened FirmwareFile
  import opened BringUp

  /** The download commands for `data`, the first byte going to `address`. */
  function Chunks(address: nat, data: seq<byte>): seq<Command>
    requires address + |data| <= 0x100_0000
    decreases |data|
  {
    if data == [] then []
    else
      var n := Min(RW_OPERATION_SIZE, |data|);
      [Download(address, data[..n])] + Chunks(address + n, data[n..])
  }

  function WakeChunks(data: seq<byte>): seq<Command>
    requires |data| % 6 == 0
  {
    if data == [] then [] else [WakeData(data[..6])] + WakeChunks(data[6..])
  }

  /** The wake-up data of a chip without row tables; a W1 (`once`) sends six bytes only. */
  function WakePlan(c: Config, cnt: nat, manfCnt: nat, once: bool): seq<Command>
    requires c.Valid() && cnt + manfCnt <= 252 && WholeGroups(manfCnt)
  {
    if manfCnt == 0 then [WakeData(DEFAULT_MANF_DATA)]
    else if once then [WakeData(c.manfData[cnt..cnt + 6])]
    else WakeChunks(c.manfData[cnt..cnt + manfCnt])
  }

  function WaveformPlan(c: Config): seq<Command>
    requires c.Valid()
  {
    if c.intf == Usb && c.chip == W2 then []
    else if c.manfPara == 0 then [WakeData(DEFAULT_MANF_DATA)]
    else [WakeRecords(SelectedRecords(c, 0))]
  }

  /** What follows the device address in a download run. */
  function FinalPlan(c: Config, manfCnt: nat): seq<Command>
    requires c.Valid() && WholeGroups(manfCnt)
  {
    if c.chip == W1U then WaveformPlan(c) else WakePlan(c, 0, manfCnt, c.chip == W1)
  }

  function CpuPlan(c: Config, manfCnt: nat): seq<Command>
    requires c.Valid() && WholeGroups(manfCnt)
  {
    [START_CPU_CLOCK, CpuRelease(c), WriteBdAddr(c.bdAddr)] + FinalPlan(c, manfCnt)
  }

  function RadioPlan(c: Config): seq<Command> {
    [RfCommand(c)] + if c.chip == W2 then [TxPowerCommand(c), FwlogCommand(c)] else []
  }

  /** Everything after the last image byte. */
  function ClosingPlan(c: Config, manfCnt: nat): seq<Command>
    requires c.Valid() && WholeGroups(manfCnt)
  {
    [CLOSE_DOWNLOAD] + RadioPlan(c) + CpuPlan(c, manfCnt)
  }

  function ImagePlan(iccmOffset: nat, iccm: seq<byte>, dccm: seq<byte>): seq<Command>
    requires iccmOffset <= |iccm| <= MAX_ALLOC_SIZE && |dccm| <= MAX_ALLOC_SIZE
  {
    Chunks(ICCM_RAM_BASE + iccmOffset, iccm[iccmOffset..]) + Chunks(DCCM_RAM_BASE, dccm)
  }

  /** The file holds nothing beyond the ROM part of the ICCM: the download is bound to abort. */
  predicate NothingToDownload(c: Config, s: Start)
    requires Startable(c, s)
  {
    s.FirmwareStart? && |IccmImage(c.chip, c.intf, s.file)| <= c.RomSize()
  }

  function Plan(c: Config, s: Start, manfCnt: nat): seq<Command>
    requires Startable(c, s) && WholeGroups(manfCnt)
  {
    match s
    case ResetStart => [Reset]
    case QuickStart =>
      [WriteBdAddr(c.bdAddr)] + if c.chip == W2 then WaveformPlan(c) else WakePlan(c, 0, manfCnt, false)
    case FirmwareStart(file) =>
      [ENABLE_DOWNLOAD, POWER_UP_RAM] +
      if NothingToDownload(c, s) then []
      else ImagePlan(c.RomSize(), IccmImage(c.chip, c.intf, file), DccmImage(c.chip, c.intf, file))
           + ClosingPlan(c, manfCnt)
  }

  // ----- what is left of the plan in a given state -----

  function FromDccm(c: Config, g: Globals): seq<Command>
    requires c.Valid() && Sound(c, g) && Downloading(g.state)
  {
    Chunks(DCCM_RAM_BASE + g.offsetDccm, g.dccm[g.offsetDccm..]) + ClosingPlan(c, g.manfCnt)
  }

  function FromIccm(c: Config, g: Globals): seq<Command>
    requires c.Valid() && Sound(c, g) && Downloading(g.state)
  {
    if g.lenIccm <= 0 then []
    else Chunks(ICCM_RAM_BASE + g.offsetIccm, g.iccm[g.offsetIccm..]) + FromDccm(c, g)
  }

  function Remaining(c: Config, g: Globals): seq<Command>
    requires c.Valid() && Sound(c, g)
  {
    match g.state
    case TestWrite => [POWER_UP_RAM] + FromIccm(c, g)
    case TestRead => [ReadReg(REG_RAM_PD_SHUTDWONW_SW)] + FromIccm(c, g)
    case Iccm => FromIccm(c, g)
    case Dccm => FromDccm(c, g)
    case CloseEvent => ClosingPlan(c, g.manfCnt)
    case RfCalibration => RadioPlan(c) + CpuPlan(c, g.manfCnt)
    case TxPower => [TxPowerCommand(c), FwlogCommand(c)] + CpuPlan(c, g.manfCnt)
    case FwlogOutput => [FwlogCommand(c)] + CpuPlan(c, g.manfCnt)
    case StartCpuBefore => CpuPlan(c, g.manfCnt)
    case StartCpu => [CpuRelease(c), WriteBdAddr(c.bdAddr)] + FinalPlan(c, g.manfCnt)
    case SetParams => [WriteBdAddr(c.bdAddr)] + FinalPlan(c, g.manfCnt)
    case SetWaveform => WaveformPlan(c)
    case SetBdAddr => WakePlan(c, g.cnt, g.manfCnt, c.chip == W1)
    case SetWakeup => WakePlan(c, g.cnt, g.manfCnt, false)
    case SetManuData => []
  }

  predicate Doomed(g: Globals) {
    (g.state.TestWrite? || g.state.TestRead? || g.state.Iccm?) && g.lenIccm <= 0
  }

  // ----- one step takes one command off the plan -----

  /** An outcome that agrees with the plan. */
  ghost predicate OnPlan(c: Config, g: Globals, o: Outcome, mallocOk: bool)
    requires c.Valid() && Sound(c, g)
  {
    match o
    case Offer(cmd, next, _) =>
      Sound(c, next) && Doomed(next) == Doomed(g) && Remaining(c, g) == [cmd] + Remaining(c, next)
    case Refuse(next) => next.manfCnt == g.manfCnt && (Doomed(g) || !mallocOk)
    case Finish => Remaining(c, g) == [] && !Doomed(g)
  }

  lemma ConsAssoc<T>(x: T, a: seq<T>, b: seq<T>)
    ensures ([x] + a) + b == [x] + (a + b)
  {
  }

  lemma ChunksFrom(base: nat, image: seq<byte>, at: nat)
    requires at < |image| && base + |image| <= 0x100_0000
    ensures var n := ChunkLength(|image| - at);
            && Chunks(base + at, image[at..])
               == [Download(base + at, image[at..at + n])] + Chunks(base + (at + n), image[at + n..])
            && (at + n == |image| ==> Chunks(base + at, image[at..]) == [Download(base + at, image[at..at + n])])
  {
    var n := ChunkLength(|image| - at);
    var data := image[at..];
    assert data[..n] == image[at..at + n];
    assert data[n..] == image[at + n..];
    assert Chunks(base + at, data) == [Download(base + at, data[..n])] + Chunks(base + at + n, data[n..]);
  }

  lemma IccmOnPlan(c: Config, g: Globals, mallocOk: bool)
    requires c.Valid() && Sound(c, g) && g.state == Iccm
    ensures OnPlan(c, g, IccmStep(c, g), mallocOk)
  {
    if g.lenIccm > 0 {
      var o := IccmStep(c, g);
      ChunksFrom(ICCM_RAM_BASE, g.iccm, g.offsetIccm);
      if o.next.lenIccm > 0 {
        ConsAssoc(o.cmd, Chunks(ICCM_RAM_BASE + o.next.offsetIccm, g.iccm[o.next.offsetIccm..]), FromDccm(c, g));
      }
    }
  }

  lemma DccmOnPlan(c: Config, g: Globals, mallocOk: bool, nodeOk: bool)
    requires c.Valid() && Sound(c, g) && g.state == Dccm
    ensures OnPlan(c, g, DccmStep(c, g, nodeOk), mallocOk)
  {
    var o := DccmStep(c, g, nodeOk);
    ChunksFrom(DCCM_RAM_BASE, g.dccm, g.offsetDccm);
    if o.next.lenDccm > 0 {
      ConsAssoc(o.cmd, Chunks(DCCM_RAM_BASE + o.next.offsetDccm, g.dccm[o.next.offsetDccm..]),
                ClosingPlan(c, g.manfCnt));
    }
  }

  lemma WakePlanStep(c: Config, cnt: nat, manfCnt: nat)
    requires c.Valid() && cnt + manfCnt <= 252 && WholeGroups(manfCnt) && manfCnt > 0
    ensures WakePlan(c, cnt, manfCnt, false)
         == [WakeData(c.manfData[cnt..cnt + 6])] +
            if manfCnt == 6 then [] else WakePlan(c, cnt + 6, manfCnt - 6, false)
  {
    var rest := c.manfData[cnt..cnt + manfCnt];
    assert rest[..6] == c.manfData[cnt..cnt + 6];
    assert rest[6..] == c.manfData[cnt + 6..cnt + 6 + (manfCnt - 6)];
    assert WakePlan(c, cnt, manfCnt, false) == [WakeData(rest[..6])] + WakeChunks(rest[6..]);
    assert manfCnt == 6 ==> rest[6..] == [];
  }

  lemma SetBdAddrOnPlan(c: Config, g: Globals, mallocOk: bool)
    requires c.Valid() && Sound(c, g) && g.state.SetBdAddr?
    ensures OnPlan(c, g, WakeStep(c, g, c.chip == W1), mallocOk)
  {
    if g.manfCnt > 0 && c.chip != W1 {
      WakePlanStep(c, g.cnt, g.manfCnt);
    }
  }

  lemma SetWakeupOnPlan(c: Config, g: Globals, mallocOk: bool)
    requires c.Valid() && Sound(c, g) && g.state.SetWakeup?
    ensures OnPlan(c, g, WakeStep(c, g, false), mallocOk)
  {
    if g.manfCnt > 0 {
      WakePlanStep(c, g.cnt, g.manfCnt);
    }
  }

  lemma RadioOnPlan(c: Config, g: Globals, mallocOk: bool, nodeOk: bool)
    requires c.Valid() && Sound(c, g)
    requires g.state.CloseEvent? || g.state.RfCalibration? || g.state.TxPower? || g.state.FwlogOutput?
    ensures OnPlan(c, g, Dispatch(c, g, mallocOk, nodeOk), mallocOk)
  {
  }

  lemma CpuOnPlan(c: Config, g: Globals, mallocOk: bool, nodeOk: bool)
    requires c.Valid() && Sound(c, g)
    requires g.state.StartCpuBefore? || g.state.StartCpu? || g.state.SetParams?
    ensures OnPlan(c, g, Dispatch(c, g, mallocOk, nodeOk), mallocOk)
  {
  }

  lemma RamOnPlan(c: Config, g: Globals, mallocOk: bool, nodeOk: bool)
    requires c.Valid() && Sound(c, g) && (g.state.TestWrite? || g.state.TestRead?)
    ensures OnPlan(c, g, Dispatch(c, g, mallocOk, nodeOk), mallocOk)
  {
  }

  lemma WaveformOnPlan(c: Config, g: Globals, mallocOk: bool)
    requires c.Valid() && Sound(c, g) && g.state.SetWaveform?
    ensures OnPlan(c, g, WaveformStep(c, g, mallocOk), mallocOk)
  {
  }

  lemma StepOnPlan(c: Config, g: Globals, mallocOk: bool, nodeOk: bool)
    requires c.Valid() && Sound(c, g)
    ensures OnPlan(c, g, Dispatch(c, g, mallocOk, nodeOk), mallocOk)
  {
    match g.state
    case Iccm => IccmOnPlan(c, g, mallocOk);
    case Dccm => DccmOnPlan(c, g, mallocOk, nodeOk);
    case SetBdAddr => SetBdAddrOnPlan(c, g, mallocOk);
    case SetWakeup => SetWakeupOnPlan(c, g, mallocOk);
    case CloseEvent | RfCalibration | TxPower | FwlogOutput => RadioOnPlan(c, g, mallocOk, nodeOk);
    case StartCpuBefore | StartCpu | SetParams => CpuOnPlan(c, g, mallocOk, nodeOk);
    case TestWrite | TestRead => RamOnPlan(c, g, mallocOk, nodeOk);
    case SetWaveform => WaveformOnPlan(c, g, mallocOk);
    case SetManuData =>
  }

  lemma LoadedOnPlan(c: Config, g: Globals, file: seq<byte>)
    requires Startable(c, FirmwareStart(file)) && WholeGroups(g.manfCnt)
    ensures var g' := LoadedGlobals(c, g, file);
            Sound(c, g') && Doomed(g') == NothingToDownload(c, FirmwareStart(file))
            && Plan(c, FirmwareStart(file), g.manfCnt) == [ENABLE_DOWNLOAD] + Remaining(c, g')
  {
    var g' := LoadedGlobals(c, g, file);
    assert g'.dccm[0..] == g'.dccm;
  }

  lemma PreparedOnPlan(c: Config, g: Globals, s: Start)
    requires Startable(c, s) && WholeGroups(g.manfCnt)
    ensures var (g', cmd) := Prepared(c, g, s);
            Sound(c, g') && Doomed(g') == NothingToDownload(c, s)
            && Plan(c, s, g.manfCnt) == [cmd] + Remaining(c, g')
  {
    match s
    case FirmwareStart(file) => LoadedOnPlan(c, g, file);
    case QuickStart =>
    case ResetStart =>
  }
}
