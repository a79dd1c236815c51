/**
 * The controller bring-up state machine, on values: what each state offers to
 * the transmitter, what one completion event does to the whole system, and what
 * a run (a start followed by any completions) leaves behind.
 */
module BringUp {
  import opened Bytes
  import opened HciCommand
  import opened FirmwareFile
  import opened VendorCallbacks

  /** The hardware configuration states, in the order of the dispatch table. */
  datatype HwState =
    | TestWrite | TestRead | Iccm | Dccm | CloseEvent | RfCalibration | TxPower | FwlogOutput
    | StartCpuBefore | StartCpu | SetParams | SetWaveform | SetBdAddr | SetWakeup | SetManuData

  /** `hw_cfg_cb.state = 0`. */
  const IDLE := TestWrite

  datatype Config = Config(
    chip: Chip,
    intf: Interface,
    bdAddr: seq<byte>,
    rfType: nat,
    btSink: bv32,
    pinMux: bv32,
    brDigitGain: bv32,
    edrDigitGain: bv32,
    factory: bv32,
    system: bv32,
    fwlogConfig: bv32,
    manfData: seq<byte>,
    manfPara: u32,
    w1uManfData: seq<seq<byte>>)
  {
    /** The shapes of the C arrays, a legal antenna type, and rows whose length byte stays inside the row. */
    predicate Valid() {
      && |bdAddr| == BD_ADDR_LEN
      && 1 <= rfType <= 2
      && |manfData| == 256
      && |w1uManfData| == MANF_ROW
      && forall r :: 0 <= r < MANF_ROW ==> |w1uManfData[r]| == MANF_COLUMN && w1uManfData[r][0] < MANF_COLUMN
    }

    /** The ICCM bytes below this offset are in ROM and are not downloaded. */
    function RomSize(): nat {
      if chip == W2L then 384 * 1024 else 256 * 1024
    }
  }

  /**
   * The globals that a run changes. `fwLive` says that the two image buffers are
   * allocated; `fwLost` counts the pairs of them whose pointers were overwritten while
   * they were.
   */
  datatype Globals = Globals(
    state: HwState,
    lenIccm: int,
    offsetIccm: nat,
    lenDccm: int,
    offsetDccm: nat,
    cnt: nat,
    manfCnt: nat,
    iccm: seq<byte>,
    dccm: seq<byte>,
    fwLive: bool,
    fwLost: int)

  /** The loader only lets whole groups of six configured bytes through. */
  predicate WholeGroups(n: nat) {
    n % 6 == 0 && n <= 252
  }

  predicate Downloading(s: HwState) {
    s.TestWrite? || s.TestRead? || s.Iccm? || s.Dccm?
  }

  /** Offsets and remaining lengths add up to the image sizes. */
  predicate ImagesFit(g: Globals) {
    && g.offsetIccm + g.lenIccm == |g.iccm| <= MAX_ALLOC_SIZE
    && g.offsetDccm + g.lenDccm == |g.dccm| <= MAX_ALLOC_SIZE
  }

  /** From the close of the download to the last use of the row tables. */
  predicate CountsFromZero(s: HwState) {
    match s
    case CloseEvent | RfCalibration | TxPower | FwlogOutput => true
    case StartCpuBefore | StartCpu | SetParams | SetWaveform => true
    case _ => false
  }

  /** What every state may rely on. */
  predicate Sound(c: Config, g: Globals) {
    && (Downloading(g.state) ==>
          && g.fwLive && ImagesFit(g)
          && g.lenDccm > 0
          && (g.state != Dccm ==> g.offsetDccm == 0))
    && WholeGroups(g.manfCnt)
    && (g.state == CloseEvent ==> g.fwLive)
    && (CountsFromZero(g.state) ==> g.cnt == 0)
    && (g.state.SetBdAddr? || g.state.SetWakeup? ==> g.cnt + g.manfCnt <= 252 && g.cnt % 6 == 0)
  }

  // ----- the commands -----

  function RfWord(c: Config): bv32 {
    var antenna: bv32 := if c.rfType == 1 then 1 else 2;
    (antenna << 28) | (c.btSink << 25)
  }

  function TxPowerWord(c: Config): bv32 {
    var pins := (c.pinMux << 20) | (c.factory << 21) | (c.system << 23);
    var gains := ((c.edrDigitGain & 0xff) << 8) | (c.brDigitGain & 0xff);
    pins | gains
  }

  function RfCommand(c: Config): Command {
    WriteReg(REG_PMU_POWER_CFG, RfWord(c) as int)
  }

  function TxPowerCommand(c: Config): Command {
    WriteReg(RG_AON_A53, TxPowerWord(c) as int)
  }

  function FwlogCommand(c: Config): Command {
    WriteReg(RG_AON_A59, (c.fwlogConfig & 0x3) as int)
  }

  /** Each setting arrives in its own field of the radio and power registers, if it is in range. */
  lemma RegisterFields(c: Config)
    requires c.Valid() && c.btSink < 8 && c.pinMux < 2 && c.factory < 4 && c.system < 2
    ensures (RfWord(c) >> 28) & 0x3 == (if c.rfType == 1 then 1 else 2) && (RfWord(c) >> 25) & 0x7 == c.btSink
    ensures (TxPowerWord(c) >> 20) & 0x1 == c.pinMux && (TxPowerWord(c) >> 21) & 0x3 == c.factory
    ensures (TxPowerWord(c) >> 23) & 0x1 == c.system
    ensures (TxPowerWord(c) >> 8) & 0xff == c.edrDigitGain & 0xff && TxPowerWord(c) & 0xff == c.brDigitGain & 0xff
  {
  }

  function CpuReleaseValue(chip: Chip): u32 {
    if chip == W1 || chip == W1U then 0x700 else 0x7_0000
  }

  function CpuRelease(c: Config): Command {
    WriteReg(REG_DEV_RESET, CpuReleaseValue(c.chip))
  }

  const ENABLE_DOWNLOAD := WriteReg(REG_DOWNLOAD_MODE, 0x100_0000)
  const CLOSE_DOWNLOAD := WriteReg(REG_DOWNLOAD_MODE, 0)
  const POWER_UP_RAM := WriteReg(REG_RAM_PD_SHUTDWONW_SW, 0)
  const START_CPU_CLOCK := WriteReg(REG_CPU_CLOCK, 0x800_0000)

  const DEFAULT_MANF_DATA: seq<byte> := [0x05, 0x19, 0xff, 0x01, 0x0a, 0x0b]

  /** Bit `n` of a word. */
  predicate Bit(w: nat, n: nat) {
    if n == 0 then w % 2 == 1 else Bit(w / 2, n - 1)
  }

  predicate RowSelected(para: u32, row: nat) {
    Bit(para, row)
  }

  /** The length-prefixed wake-up records that the mask selects, from row `k` on. */
  function SelectedRecords(c: Config, k: nat): (r: seq<seq<byte>>)
    requires c.Valid()
    ensures |r| <= if k < MANF_ROW then MANF_ROW - k else 0
    decreases |c.w1uManfData| - k
  {
    if k >= MANF_ROW then []
    else
      var row := c.w1uManfData[k];
      var rest := SelectedRecords(c, k + 1);
      if RowSelected(c.manfPara, k) then [row[..row[0] as nat + 1]] + rest else rest
  }

  // ----- one step -----

  /**
   * Offer: transmit `cmd` and continue in `next`; with `force` the step reports
   * "proceeding" even if the transmitter refuses. Refuse: nothing to transmit,
   * abort. Finish: the run is complete.
   */
  datatype Outcome =
    | Offer(cmd: Command, next: Globals, force: bool)
    | Refuse(next: Globals)
    | Finish

  function OfferIn(cmd: Command, g: Globals, s: HwState): Outcome {
    Offer(cmd, g.(state := s), false)
  }

  function ChunkLength(len: int): int {
    if len > RW_OPERATION_SIZE then RW_OPERATION_SIZE else len
  }

  function IccmStep(c: Config, g: Globals): Outcome
    requires ImagesFit(g)
  {
    if g.lenIccm <= 0 then Refuse(g.(state := Dccm, cnt := 0))
    else
      var n := ChunkLength(g.lenIccm);
      var cmd := Download(ICCM_RAM_BASE + g.offsetIccm, g.iccm[g.offsetIccm..g.offsetIccm + n]);
      var g' := g.(cnt := g.cnt + 1, offsetIccm := g.offsetIccm + n, lenIccm := g.lenIccm - n);
      if g'.lenIccm <= 0 then Offer(cmd, g'.(state := Dccm, cnt := 0), false)
      else Offer(cmd, g', false)
  }

  function DccmStep(c: Config, g: Globals, nodeOk: bool): Outcome
    requires ImagesFit(g)
  {
    if g.lenDccm <= 0 then Refuse(g.(state := CloseEvent))
    else
      var n := ChunkLength(g.lenDccm);
      var cmd := Download(DCCM_RAM_BASE + g.offsetDccm, g.dccm[g.offsetDccm..g.offsetDccm + n]);
      var g' := g.(cnt := g.cnt + 1, offsetDccm := g.offsetDccm + n, lenDccm := g.lenDccm - n);
      if g'.lenDccm <= 0 then
        Offer(cmd, g'.(state := CloseEvent, cnt := 0), MayCarryExtraIccm(c.chip, c.intf) && !nodeOk)
      else Offer(cmd, g', false)
  }

  function WaveformStep(c: Config, g: Globals, mallocOk: bool): Outcome
    requires c.Valid()
  {
    if c.intf == Usb && c.chip == W2 then Finish
    else if c.manfPara == 0 then OfferIn(WakeData(DEFAULT_MANF_DATA), g, SetManuData)
    else if !mallocOk then Refuse(g)
    else
      var after := if g.cnt < MANF_ROW then MANF_ROW else g.cnt;
      OfferIn(WakeRecords(SelectedRecords(c, g.cnt)), g.(cnt := after), SetManuData)
  }

  /** One wake-data command; `once` is the W1 rule that only the first six bytes go out. */
  function WakeStep(c: Config, g: Globals, once: bool): Outcome
    requires c.Valid() && g.cnt + g.manfCnt <= 252 && WholeGroups(g.manfCnt)
  {
    if g.manfCnt == 0 then OfferIn(WakeData(DEFAULT_MANF_DATA), g, SetManuData)
    else
      var cmd := WakeData(c.manfData[g.cnt..g.cnt + 6]);
      var g' := g.(cnt := g.cnt + 6, manfCnt := g.manfCnt - 6);
      if once || g'.manfCnt == 0 then OfferIn(cmd, g'.(cnt := 0), SetManuData)
      else Offer(cmd, g', false)
  }

  /** The dispatch table. */
  function Dispatch(c: Config, g: Globals, mallocOk: bool, nodeOk: bool): Outcome
    requires c.Valid() && Sound(c, g)
  {
    match g.state
    case TestWrite => OfferIn(POWER_UP_RAM, g, Iccm)
    case TestRead => OfferIn(ReadReg(REG_RAM_PD_SHUTDWONW_SW), g, Iccm)
    case Iccm => IccmStep(c, g)
    case Dccm => DccmStep(c, g, nodeOk)
    case CloseEvent => OfferIn(CLOSE_DOWNLOAD, g.(fwLive := false), RfCalibration)
    case RfCalibration => OfferIn(RfCommand(c), g, if c.chip == W2 then TxPower else StartCpuBefore)
    case TxPower => OfferIn(TxPowerCommand(c), g, FwlogOutput)
    case FwlogOutput => OfferIn(FwlogCommand(c), g, StartCpuBefore)
    case StartCpuBefore => OfferIn(START_CPU_CLOCK, g, StartCpu)
    case StartCpu => OfferIn(CpuRelease(c), g, SetParams)
    case SetParams => OfferIn(WriteBdAddr(c.bdAddr), g, if c.chip == W1U then SetWaveform else SetBdAddr)
    case SetWaveform => WaveformStep(c, g, mallocOk)
    case SetBdAddr => WakeStep(c, g, c.chip == W1)
    case SetWakeup => WakeStep(c, g, false)
    case SetManuData => Finish
  }

  // ----- one completion -----

  datatype View = View(g: Globals, led: Ledger)

  /** A completion's status byte, and everything the environment decides while it is handled. */
  datatype Completion = Completion(status: byte, allocOk: bool, xmitOk: bool, mallocOk: bool, nodeOk: bool)

  function Abort(v: View): View {
    View(v.g.(state := IDLE), v.led.Report(false))
  }

  /** What the dispatched step does with the command buffer `buf`. */
  function Perform(v: View, buf: nat, o: Outcome, xmitOk: bool): View {
    match o
    case Offer(cmd, next, _) => View(next, v.led.Transmit(buf, cmd, xmitOk))
    case Refuse(next) => View(next, v.led)
    case Finish => View(v.g.(state := IDLE), v.led.Release(buf).Report(true))
  }

  /** Whether the dispatched step returns something other than FALSE. */
  predicate Proceeds(o: Outcome, xmitOk: bool) {
    match o
    case Offer(_, _, force) => xmitOk || force
    case Refuse(_) => false
    case Finish => true
  }

  /**
   * Handling of a completion event that arrived in buffer `evt`, where `o` is the
   * outcome of the dispatched step; without a clean status and a command buffer no
   * step is dispatched.
   */
  function React(v: View, evt: nat, e: Completion, o: Outcome): View {
    if e.status != 0 || !e.allocOk then Abort(v.(led := v.led.Release(evt)))
    else
      var buf := v.led.next;
      var v1 := Perform(v.(led := v.led.Acquire()), buf, o, e.xmitOk);
      var v2 := v1.(led := v1.led.Release(evt));
      if Proceeds(o, e.xmitOk) then v2 else Abort(v2.(led := v2.led.Release(buf)))
  }

  function Handle(c: Config, v: View, evt: nat, e: Completion): View
    requires c.Valid() && Sound(c, v.g)
  {
    React(v, evt, e, Dispatch(c, v.g, e.mallocOk, e.nodeOk))
  }

  function Complete(c: Config, v: View, e: Completion): View
    requires c.Valid() && Sound(c, v.g)
  {
    Handle(c, v.(led := v.led.Deliver()), v.led.next, e)
  }

  // ----- starting -----

  datatype Start =
    | FirmwareStart(file: seq<byte>)
    | QuickStart
    | ResetStart

  predicate Startable(c: Config, s: Start) {
    c.Valid() && (s.FirmwareStart? ==> Loadable(c.chip, c.intf, s.file))
  }

  /** Freshly allocated images take the place of what the pointers named before. */
  function WithImages(g: Globals, romSize: nat, iccm: seq<byte>, dccm: seq<byte>): Globals {
    g.(state := TestWrite, iccm := iccm, dccm := dccm,
       fwLive := true, fwLost := if g.fwLive then g.fwLost + 1 else g.fwLost,
       lenIccm := |iccm| - romSize, offsetIccm := romSize, lenDccm := |dccm|, offsetDccm := 0)
  }

  function LoadedGlobals(c: Config, g: Globals, file: seq<byte>): Globals
    requires Loadable(c.chip, c.intf, file)
  {
    WithImages(g, c.RomSize(), IccmImage(c.chip, c.intf, file), DccmImage(c.chip, c.intf, file))
  }

  /** The globals once a start has prepared its first command, and that command. */
  function Prepared(c: Config, g: Globals, s: Start): (Globals, Command)
    requires Startable(c, s)
  {
    match s
    case FirmwareStart(file) => (LoadedGlobals(c, g, file), ENABLE_DOWNLOAD)
    case QuickStart => (g.(state := if c.chip == W2 then SetWaveform else SetWakeup, cnt := 0), WriteBdAddr(c.bdAddr))
    case ResetStart => (g.(state := SetManuData), Reset)
  }

  /** A start ignores the transmitter's answer: a refused first command is neither freed nor reported. */
  function Begin(c: Config, v: View, s: Start, allocOk: bool, xmitOk: bool): View
    requires Startable(c, s)
  {
    if !allocOk then Abort(v)
    else
      var (g, cmd) := Prepared(c, v.g, s);
      View(g, v.led.Acquire().Transmit(v.led.next, cmd, xmitOk))
  }

  // ----- runs -----

  /** A completion can only arrive for a command in flight. */
  predicate Awaiting(v: View) {
    v.led.InFlight() > 0
  }

  /** Between two bring-ups: idle, nothing in flight, nothing owned. */
  ghost predicate AtRest(c: Config, v: View) {
    && v.g.state == IDLE
    && v.led.InFlight() == 0 && v.led.owned == {} && v.led.Balanced()
    && WholeGroups(v.g.manfCnt)
  }
}
