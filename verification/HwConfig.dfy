/**
 * The bring-up code in its own form: globals, a dispatch on the state, and steps
 * that fill a command buffer in place. Every method is proved against the value
 * model in `BringUp`, so what is proved there about all runs holds of this code.
 */
module HwConfig {
  import opened Bytes
  import opened HciCommand
  import opened FirmwareFile
  import opened VendorCallbacks
  import opened BringUp

  const FALSE: byte := 0
  const TRUE: byte := 1
  /** `return -1` from a function whose result type is uint8_t. */
  const MINUS_ONE: byte := 0xff

  const HCI_EVT_CMD_CMPL_STATUS_RET_BYTE := 5
  const LOCAL_BDADDR_PATH_BUFFER_LEN := 256

  /** An open firmware file; reads are full, as the file is long enough. */
  class FwFile {
    const content: seq<byte>
    var pos: nat

    constructor (content: seq<byte>)
      ensures this.content == content && pos == 0
    {
      this.content := content;
      pos := 0;
    }

    method Read(n: nat) returns (s: seq<byte>)
      requires pos + n <= |content|
      modifies this
      ensures pos == old(pos) + n && s == content[old(pos)..][..n]
    {
      s := content[pos..][..n];
      pos := pos + n;
    }

    method ReadWord() returns (w: u32)
      requires pos + 4 <= |content|
      modifies this
      ensures pos == old(pos) + 4 && w == WordAt(content, old(pos))
    {
      var s := Read(4);
      assert s == content[old(pos)..old(pos) + 4];
      w := FromLe32(s);
    }

    method SkipForward(n: nat)
      modifies this
      ensures pos == old(pos) + n
    {
      pos := pos + n;
    }
  }

  /** `hw_config_get_iccm_size` and `hw_config_get_dccm_size`. */
  method ProbeSizes(chip: Chip, intf: Interface, file: seq<byte>) returns (iccm: u32, dccm: u32, addIccm: u32)
    requires |file| >= ProbedLength(chip, intf)
    ensures Sizes(iccm, dccm, addIccm) == Probe(chip, intf, file)
  {
    var fd := new FwFile(file);
    iccm := fd.ReadWord();
    fd := new FwFile(file);
    dccm := fd.ReadWord();
    addIccm := 0;
    if chip == W1U && intf != Usb {
      addIccm := fd.ReadWord();
    }
    dccm := fd.ReadWord();
    if chip == W1U && intf != Usb {
      if dccm == W1U_ROM_START_CODE {
        dccm := addIccm;
        addIccm := 0;
      }
    }
  }

  /** The reads of `hw_config_start`: header, ICCM, skipped extra ICCM, DCCM. */
  method ReadImages(chip: Chip, intf: Interface, file: seq<byte>, iccmSize: u32, dccmSize: u32, addIccm: u32)
    returns (iccm: seq<byte>, dccm: seq<byte>)
    requires Loadable(chip, intf, file) && Probe(chip, intf, file) == Sizes(iccmSize, dccmSize, addIccm)
    ensures iccm == IccmImage(chip, intf, file) && dccm == DccmImage(chip, intf, file)
  {
    var fd := new FwFile(file);
    if addIccm != 0 && chip == W1U && intf != Usb {
      var head := fd.Read(12);
    } else {
      var head := fd.Read(8);
    }
    iccm := fd.Read(iccmSize);
    if chip == W1U && intf != Usb {
      fd.SkipForward(addIccm);
    }
    dccm := fd.Read(dccmSize);
  }

  method FillWriteReg(buf: HcBuf, reg: u32, value: u32)
    requires buf.data.Length >= 11
    modifies buf, buf.data
    ensures buf.len == 11 && buf.data[..buf.len] == Wire(WriteReg(reg, value))
  {
    var p := PutUint16(buf.data, 0, TCI_WRITE_REG);
    p := PutUint8(buf.data, p, 8);
    p := PutUint32(buf.data, p, reg);
    p := PutUint32(buf.data, p, value);
    buf.len := HCI_CMD_PREAMBLE_SIZE + 8;
    assert buf.data[..11] == [] + Le16(TCI_WRITE_REG) + [8] + Le32(reg) + Le32(value);
  }

  method FillBdAddr(buf: HcBuf, addr: seq<byte>)
    requires buf.data.Length >= 9 && |addr| == BD_ADDR_LEN
    modifies buf, buf.data
    ensures buf.len == 9 && buf.data[..buf.len] == Wire(WriteBdAddr(addr))
  {
    var p := PutUint16(buf.data, 0, HCI_VSC_WRITE_BD_ADDR);
    p := PutUint8(buf.data, p, BD_ADDR_LEN);
    p := PutUint8(buf.data, p, addr[5]);
    p := PutUint8(buf.data, p, addr[4]);
    p := PutUint8(buf.data, p, addr[3]);
    p := PutUint8(buf.data, p, addr[2]);
    p := PutUint8(buf.data, p, addr[1]);
    p := PutUint8(buf.data, p, addr[0]);
    buf.len := HCI_CMD_PREAMBLE_SIZE + BD_ADDR_LEN;
    BdAddrPacket(addr);
  }

  lemma BdAddrPacket(addr: seq<byte>)
    requires |addr| == BD_ADDR_LEN
    ensures Wire(WriteBdAddr(addr)) == [] + Le16(HCI_VSC_WRITE_BD_ADDR) + [Low8(6)] + [Low8(addr[5])] + [Low8(addr[4])]
                                       + [Low8(addr[3])] + [Low8(addr[2])] + [Low8(addr[1])] + [Low8(addr[0])]
  {
    ReversedSix(addr);
  }

  lemma ReversedSix(s: seq<byte>)
    requires |s| == 6
    ensures Reversed(s) == [s[5], s[4], s[3], s[2], s[1], s[0]]
  {
    var t, u, w := s[1..], s[2..], s[3..];
    assert t[1..] == u && u[1..] == w && w[1..] == [s[4], s[5]];
    assert [s[4], s[5]][1..] == [s[5]];
    assert Reversed([s[5]]) == [s[5]];
    assert Reversed([s[4], s[5]]) == [s[5], s[4]];
    assert Reversed(w) == [s[5], s[4], s[3]];
    assert Reversed(u) == [s[5], s[4], s[3], s[2]];
    assert Reversed(t) == [s[5], s[4], s[3], s[2], s[1]];
  }

  /** Copies `src` behind the header that a step has written so far. */
  method CopySeq(dst: array<byte>, p: nat, src: seq<byte>)
    requires p + |src| <= dst.Length
    modifies dst
    ensures dst[..p + |src|] == old(dst[..p]) + src
  {
    var i := 0;
    while i < |src|
      invariant i <= |src|
      invariant forall k :: 0 <= k < p ==> dst[k] == old(dst[k])
      invariant forall k :: p <= k < p + i ==> dst[k] == src[k - p]
    {
      dst[p + i] := src[i];
      i := i + 1;
    }
  }

  /** `bytes` and `n` are the records gathered before row `k`. */
  ghost predicate Gathered(c: Config, bytes: seq<byte>, n: nat, k: nat)
    requires c.Valid()
  {
    && bytes + Flatten(SelectedRecords(c, k)) == Flatten(SelectedRecords(c, 0))
    && n + |SelectedRecords(c, k)| == |SelectedRecords(c, 0)|
  }

  lemma GatherRow(c: Config, bytes: seq<byte>, n: nat, k: nat)
    requires c.Valid() && k < MANF_ROW && Gathered(c, bytes, n, k)
    ensures var record := c.w1uManfData[k][..c.w1uManfData[k][0] as nat + 1];
            if RowSelected(c.manfPara, k) then
              Gathered(c, bytes + record, n + 1, k + 1)
              && |bytes + record| <= |Flatten(SelectedRecords(c, 0))|
            else Gathered(c, bytes, n, k + 1)
  {
    var record := c.w1uManfData[k][..c.w1uManfData[k][0] as nat + 1];
    var rest := SelectedRecords(c, k + 1);
    assert ([record] + rest)[1..] == rest;
    assert bytes + (record + Flatten(rest)) == bytes + record + Flatten(rest);
  }

  /** The rows from `k` on total at most sixteen bytes each, so all of them fit the gathering buffer. */
  lemma {:induction false} RecordsBounded(c: Config, k: nat)
    requires c.Valid() && k <= MANF_ROW
    ensures |Flatten(SelectedRecords(c, k))| <= (MANF_ROW - k) * MANF_COLUMN
    decreases MANF_ROW - k
  {
    if k < MANF_ROW {
      RecordsBounded(c, k + 1);
      var record := c.w1uManfData[k][..c.w1uManfData[k][0] as nat + 1];
      assert ([record] + SelectedRecords(c, k + 1))[1..] == SelectedRecords(c, k + 1);
    }
  }

  /**
   * Every step's command fits its buffer, with one exception: a row table of more
   * than 254 bytes, which reaches at most two bytes beyond it.
   */
  lemma CommandFitsExactly(c: Config, g: Globals, mallocOk: bool, nodeOk: bool)
    requires c.Valid() && Sound(c, g)
    ensures var o := Dispatch(c, g, mallocOk, nodeOk);
            o.Offer? ==>
              && |Wire(o.cmd)| <= HCI_CMD_MAX_LEN + MEMORY_BEHIND
              && (|Wire(o.cmd)| <= HCI_CMD_MAX_LEN <==> !(o.cmd.WakeRecords? && |Flatten(o.cmd.records)| > 254))
  {
    RecordsBounded(c, if g.cnt < MANF_ROW then g.cnt else MANF_ROW);
    ReversedAt(c.bdAddr);
  }

  class HwConfig {
    const cfg: Config
    const stack: VendorCallbacks
    var state: HwState
    var lenIccm: int
    var offsetIccm: nat
    var lenDccm: int
    var offsetDccm: nat
    var cnt: nat
    var manfCnt: u32
    var iccmBuf: seq<byte>
    var dccmBuf: seq<byte>
    ghost var fwLive: bool
    ghost var fwLost: int

    ghost function Abstract(): Globals
      reads this
    {
      Globals(state, lenIccm, offsetIccm, lenDccm, offsetDccm, cnt, manfCnt, iccmBuf, dccmBuf, fwLive, fwLost)
    }

    ghost function Current(): View
      reads this, stack
    {
      View(Abstract(), stack.ledger)
    }

    /** What holds whenever a completion can arrive. */
    ghost predicate Valid()
      reads this, stack
    {
      cfg.Valid() && stack.Valid() && Sound(cfg, Abstract())
    }

    /** A command buffer that the dispatched step may fill. */
    ghost predicate Fillable(buf: HcBuf)
      reads this, stack
    {
      && stack.Valid() && buf.id in stack.ledger.owned
      && buf.size == HCI_CMD_MAX_LEN && buf.data.Length == HCI_CMD_MAX_LEN + MEMORY_BEHIND
    }

    constructor (cfg: Config, stack: VendorCallbacks, manfCnt: u32)
      ensures this.cfg == cfg && this.stack == stack && this.manfCnt == manfCnt && state == IDLE
    {
      this.cfg := cfg;
      this.stack := stack;
      this.manfCnt := manfCnt;
      state := IDLE;
      lenIccm, offsetIccm, lenDccm, offsetDccm, cnt := 0, 0, 0, 0, 1;
      iccmBuf, dccmBuf := [], [];
      fwLive, fwLost := false, 0;
    }

    /** `xmit_cb`, with the transmitter's answer as the step's result. */
    method Send(buf: HcBuf, ghost cmd: Command, xmitOk: bool) returns (proceeding: byte)
      requires stack.Valid() && buf.id in stack.ledger.owned && buf.len <= buf.data.Length
      requires buf.data[..buf.len] == Wire(cmd)
      modifies stack
      ensures stack.Valid() && stack.ledger == old(stack.ledger).Transmit(buf.id, cmd, xmitOk)
      ensures proceeding == if xmitOk then TRUE else FALSE
    {
      var ok := stack.Xmit(buf, cmd, xmitOk);
      proceeding := if ok then TRUE else FALSE;
    }

    /** The steps that write one register and move on. */
    method WriteRegStep(buf: HcBuf, reg: u32, value: u32, next: HwState, xmitOk: bool) returns (proceeding: byte)
      requires Fillable(buf)
      modifies `state, buf, buf.data, stack
      ensures stack.Valid() && state == next
      ensures stack.ledger == old(stack.ledger).Transmit(buf.id, WriteReg(reg, value), xmitOk)
      ensures proceeding == if xmitOk then TRUE else FALSE
    {
      FillWriteReg(buf, reg, value);
      state := next;
      proceeding := Send(buf, WriteReg(reg, value), xmitOk);
    }

    method TestReadUart(buf: HcBuf, xmitOk: bool) returns (proceeding: byte)
      requires Fillable(buf)
      modifies `state, buf, buf.data, stack
      ensures stack.Valid()
      ensures state == Iccm && proceeding == if xmitOk then TRUE else FALSE
      ensures stack.ledger == old(stack.ledger).Transmit(buf.id, ReadReg(REG_RAM_PD_SHUTDWONW_SW), xmitOk)
    {
      var p := PutUint16(buf.data, 0, TCI_READ_REG);
      p := PutUint8(buf.data, p, 4);
      p := PutUint32(buf.data, p, REG_RAM_PD_SHUTDWONW_SW);
      buf.len := HCI_CMD_PREAMBLE_SIZE + 4;
      assert buf.data[..7] == [] + Le16(TCI_READ_REG) + [4] + Le32(REG_RAM_PD_SHUTDWONW_SW);
      state := Iccm;
      proceeding := Send(buf, ReadReg(REG_RAM_PD_SHUTDWONW_SW), xmitOk);
    }

    /** Fills in one download command from an image. */
    method FillDownload(buf: HcBuf, address: u32, image: seq<byte>, offset: nat, n: nat)
      requires buf.data.Length >= HCI_CMD_MAX_LEN
      requires 0 < n <= RW_OPERATION_SIZE && offset + n <= |image|
      modifies buf, buf.data
      ensures buf.len <= buf.data.Length && buf.data[..buf.len] == Wire(Download(address, image[offset..offset + n]))
    {
      var p := PutUint16(buf.data, 0, TCI_DOWNLOAD_BT_FW);
      p := PutUint8(buf.data, p, n + 4);
      p := PutUint32(buf.data, p, address);
      CopySeq(buf.data, p, image[offset..offset + n]);
      buf.len := HCI_CMD_PREAMBLE_SIZE + (n + 4);
    }

    method SendChunk(buf: HcBuf, base: u32, image: seq<byte>, offset: nat, n: nat, xmitOk: bool)
      returns (proceeding: byte)
      requires Fillable(buf) && 0 < n <= RW_OPERATION_SIZE && offset + n <= |image|
      requires base + |image| <= 0x100_0000
      modifies buf, buf.data, stack
      ensures stack.Valid() && proceeding == if xmitOk then TRUE else FALSE
      ensures stack.ledger
           == old(stack.ledger).Transmit(buf.id, Download(base + offset, image[offset..offset + n]), xmitOk)
    {
      FillDownload(buf, base + offset, image, offset, n);
      proceeding := Send(buf, Download(base + offset, image[offset..offset + n]), xmitOk);
    }

    method IccmUart(buf: HcBuf, xmitOk: bool) returns (proceeding: byte)
      requires Fillable(buf) && ImagesFit(Abstract())
      modifies this, buf, buf.data, stack
      ensures stack.Valid()
      ensures Abstract() == Perform(old(Current()), buf.id, IccmStep(cfg, old(Abstract())), xmitOk).g
      ensures stack.ledger == Perform(old(Current()), buf.id, IccmStep(cfg, old(Abstract())), xmitOk).led
      ensures proceeding != FALSE <==> Proceeds(IccmStep(cfg, old(Abstract())), xmitOk)
    {
      if lenIccm <= 0 {
        state := Dccm;
        cnt := 0;
        return FALSE;
      }
      var n := if lenIccm > RW_OPERATION_SIZE then RW_OPERATION_SIZE else lenIccm;
      var at := offsetIccm;
      cnt := cnt + 1;
      offsetIccm := offsetIccm + n;
      lenIccm := lenIccm - n;
      proceeding := SendChunk(buf, ICCM_RAM_BASE, iccmBuf, at, n, xmitOk);
      if lenIccm <= 0 {
        state := Dccm;
        cnt := 0;
      }
    }

    method DccmUart(buf: HcBuf, xmitOk: bool, nodeOk: bool) returns (proceeding: byte)
      requires Fillable(buf) && ImagesFit(Abstract())
      modifies this, buf, buf.data, stack
      ensures stack.Valid()
      ensures Abstract() == Perform(old(Current()), buf.id, DccmStep(cfg, old(Abstract()), nodeOk), xmitOk).g
      ensures stack.ledger == Perform(old(Current()), buf.id, DccmStep(cfg, old(Abstract()), nodeOk), xmitOk).led
      ensures proceeding != FALSE <==> Proceeds(DccmStep(cfg, old(Abstract()), nodeOk), xmitOk)
    {
      if lenDccm <= 0 {
        state := CloseEvent;
        return FALSE;
      }
      var n := if lenDccm > RW_OPERATION_SIZE then RW_OPERATION_SIZE else lenDccm;
      var at := offsetDccm;
      cnt := cnt + 1;
      offsetDccm := offsetDccm + n;
      lenDccm := lenDccm - n;
      proceeding := SendChunk(buf, DCCM_RAM_BASE, dccmBuf, at, n, xmitOk);
      if lenDccm <= 0 {
        state := CloseEvent;
        cnt := 0;
        if cfg.chip == W1U && cfg.intf != Usb {
          if !nodeOk {
            return MINUS_ONE;
          }
        }
      }
    }

    method SetWaveformData(buf: HcBuf, xmitOk: bool, mallocOk: bool) returns (proceeding: byte)
      requires cfg.Valid() && Fillable(buf) && cnt == 0
      modifies this, buf, buf.data, stack
      ensures stack.Valid()
      ensures Abstract() == Perform(old(Current()), buf.id, WaveformStep(cfg, old(Abstract()), mallocOk), xmitOk).g
      ensures stack.ledger == Perform(old(Current()), buf.id, WaveformStep(cfg, old(Abstract()), mallocOk), xmitOk).led
      ensures proceeding != FALSE <==> Proceeds(WaveformStep(cfg, old(Abstract()), mallocOk), xmitOk)
    {
      if cfg.intf == Usb && cfg.chip == W2 {
        stack.Dealloc(buf);
        stack.FwCfg(true);
        state := IDLE;
        return TRUE;
      }
      if cfg.manfPara == 0 {
        proceeding := SendDefault(buf, xmitOk);
        return;
      }
      if !mallocOk {
        return FALSE;
      }
      var total, totalLen, cntData := CollectRecords();
      ghost var records := SelectedRecords(cfg, 0);
      FillRecords(buf, total, totalLen, cntData, records);
      state := SetManuData;
      proceeding := Send(buf, WakeRecords(records), xmitOk);
    }

    /** Gathers the rows that the mask selects, advancing the global counter. */
    method CollectRecords() returns (total: array<byte>, totalLen: nat, cntData: nat)
      requires cfg.Valid() && cnt == 0
      modifies `cnt
      ensures cnt == MANF_ROW && fresh(total) && totalLen <= total.Length == LOCAL_BDADDR_PATH_BUFFER_LEN
      ensures total[..totalLen] == Flatten(SelectedRecords(cfg, 0)) && cntData == |SelectedRecords(cfg, 0)|
    {
      total := new byte[LOCAL_BDADDR_PATH_BUFFER_LEN];
      totalLen, cntData := 0, 0;
      RecordsBounded(cfg, 0);
      while cnt < MANF_ROW
        invariant cnt <= MANF_ROW && totalLen <= total.Length
        invariant Gathered(cfg, total[..totalLen], cntData, cnt)
      {
        GatherRow(cfg, total[..totalLen], cntData, cnt);
        if RowSelected(cfg.manfPara, cnt) {
          var row := cfg.w1uManfData[cnt];
          if totalLen + row[0] + 1 > LOCAL_BDADDR_PATH_BUFFER_LEN {
            // the source's overflow check, which no configuration of sixteen-byte rows can trip
            assert false;
            break;
          }
          CopySeq(total, totalLen, row[..row[0] as nat + 1]);
          totalLen := totalLen + (row[0] as nat + 1);
          cntData := cntData + 1;
        }
        cnt := cnt + 1;
      }
      assert total[..totalLen] + [] == total[..totalLen];
    }

    method FillRecords(buf: HcBuf, total: array<byte>, totalLen: nat, cntData: nat, ghost records: seq<seq<byte>>)
      requires buf.data.Length == HCI_CMD_MAX_LEN + MEMORY_BEHIND && totalLen <= LOCAL_BDADDR_PATH_BUFFER_LEN
      requires buf.data != total && totalLen <= total.Length
      requires total[..totalLen] == Flatten(records) && cntData == |records|
      modifies buf, buf.data
      ensures buf.len <= buf.data.Length && buf.data[..buf.len] == Wire(WakeRecords(records))
    {
      var p := PutUint16(buf.data, 0, HCI_VSC_WAKE_WRITE_DATA);
      p := PutUint8(buf.data, p, totalLen + 1);
      p := PutUint8(buf.data, p, cntData);
      CopySeq(buf.data, p, total[..totalLen]);
      buf.len := HCI_CMD_PREAMBLE_SIZE + 1 + totalLen;
      assert buf.data[..buf.len]
          == Le16(HCI_VSC_WAKE_WRITE_DATA) + [Low8(totalLen + 1)] + ([Low8(cntData)] + Flatten(records));
    }

    /** Six bytes behind the opcode, the first of them in the length position. */
    method FillWake(buf: HcBuf, six: seq<byte>)
      requires buf.data.Length >= 8 && |six| == 6
      modifies buf, buf.data
      ensures buf.len == 8 && buf.data[..buf.len] == Wire(WakeData(six))
    {
      var p := PutUint16(buf.data, 0, HCI_VSC_WAKE_WRITE_DATA);
      CopySeq(buf.data, p, six);
      buf.len := HCI_CMD_PREAMBLE_SIZE + 5;
      assert buf.data[..8] == [] + Le16(HCI_VSC_WAKE_WRITE_DATA) + six;
    }

    /** The command of an unconfigured controller. */
    method SendDefault(buf: HcBuf, xmitOk: bool) returns (proceeding: byte)
      requires Fillable(buf)
      modifies `state, buf, buf.data, stack
      ensures stack.Valid() && state == SetManuData
      ensures stack.ledger == old(stack.ledger).Transmit(buf.id, WakeData(DEFAULT_MANF_DATA), xmitOk)
      ensures proceeding == if xmitOk then TRUE else FALSE
    {
      FillWake(buf, DEFAULT_MANF_DATA);
      state := SetManuData;
      proceeding := Send(buf, WakeData(DEFAULT_MANF_DATA), xmitOk);
    }

    /** Copies the next six configured bytes, counting both counters byte by byte. */
    method TakeSix(buf: HcBuf)
      requires cfg.Valid() && buf.data.Length >= HCI_CMD_MAX_LEN && cnt + 6 <= 256 && manfCnt >= 6
      modifies `cnt, `manfCnt, buf, buf.data
      ensures cnt == old(cnt) + 6 && manfCnt == old(manfCnt) - 6
      ensures buf.len == 8 && buf.data[..buf.len] == Wire(WakeData(cfg.manfData[old(cnt)..old(cnt) + 6]))
    {
      var p := PutUint16(buf.data, 0, HCI_VSC_WAKE_WRITE_DATA);
      var i := 0;
      while i < 6
        invariant i <= 6 && cnt == old(cnt) + i && manfCnt == old(manfCnt) - i
        invariant buf.data[..2 + i] == Le16(HCI_VSC_WAKE_WRITE_DATA) + cfg.manfData[old(cnt)..old(cnt) + i]
      {
        buf.data[2 + i] := cfg.manfData[cnt];
        manfCnt := Wrap32(manfCnt - 1);
        cnt := cnt + 1;
        i := i + 1;
      }
      buf.len := HCI_CMD_PREAMBLE_SIZE + 5;
    }

    /** `hw_cfg_set_bd_addr` (with `once` on a W1) and `hw_cfg_set_wakeup_params`. */
    method SendWakeData(buf: HcBuf, once: bool, xmitOk: bool) returns (proceeding: byte)
      requires cfg.Valid() && Fillable(buf) && cnt + manfCnt <= 252 && WholeGroups(manfCnt)
      modifies this, buf, buf.data, stack
      ensures stack.Valid()
      ensures Abstract() == Perform(old(Current()), buf.id, WakeStep(cfg, old(Abstract()), once), xmitOk).g
      ensures stack.ledger == Perform(old(Current()), buf.id, WakeStep(cfg, old(Abstract()), once), xmitOk).led
      ensures proceeding != FALSE <==> Proceeds(WakeStep(cfg, old(Abstract()), once), xmitOk)
    {
      if manfCnt == 0 {
        proceeding := SendDefault(buf, xmitOk);
        return;
      }
      ghost var cmd := WakeData(cfg.manfData[cnt..cnt + 6]);
      TakeSix(buf);
      if once {
        cnt := 0;
        state := SetManuData;
      } else if manfCnt == 0 {
        cnt := 0;
        state := SetManuData;
      }
      proceeding := Send(buf, cmd, xmitOk);
    }

    method WriteManufacture(buf: HcBuf) returns (proceeding: byte)
      requires Fillable(buf)
      modifies `state, stack
      ensures stack.Valid() && proceeding == TRUE
      ensures Abstract() == Perform(old(Current()), buf.id, Finish, true).g
      ensures stack.ledger == Perform(old(Current()), buf.id, Finish, true).led
    {
      stack.Dealloc(buf);
      stack.FwCfg(true);
      state := IDLE;
      proceeding := TRUE;
    }

    method AntennaValue() returns (word: bv32)
      requires cfg.Valid()
      ensures word == RfWord(cfg)
    {
      word := 0;
      if cfg.rfType == 1 {
        word := (1 << 28) | (cfg.btSink << 25);
      } else if cfg.rfType == 2 {
        word := (2 << 28) | (cfg.btSink << 25);
      }
    }

    method TxPowerValue() returns (word: bv32)
      ensures word == TxPowerWord(cfg)
    {
      word := 0;
      word := word | ((cfg.pinMux << 20) | (cfg.factory << 21) | (cfg.system << 23));
      word := word | (((cfg.edrDigitGain & 0xff) << 8) | (cfg.brDigitGain & 0xff));
    }

    /** The states that write registers and the device address. */
    method ControlStep(buf: HcBuf, xmitOk: bool) returns (proceeding: byte)
      requires Valid() && Fillable(buf) && CountsFromZero(state) && state != SetWaveform
      modifies this, buf, buf.data, stack
      ensures stack.Valid()
      ensures Abstract() == Perform(old(Current()), buf.id, Dispatch(cfg, old(Abstract()), true, true), xmitOk).g
      ensures stack.ledger == Perform(old(Current()), buf.id, Dispatch(cfg, old(Abstract()), true, true), xmitOk).led
      ensures proceeding != FALSE <==> Proceeds(Dispatch(cfg, old(Abstract()), true, true), xmitOk)
    {
      match state
      case CloseEvent =>
        fwLive := false;
        proceeding := WriteRegStep(buf, REG_DOWNLOAD_MODE, 0, RfCalibration, xmitOk);
      case RfCalibration =>
        var next := if cfg.chip == W2 then TxPower else StartCpuBefore;
        var word := AntennaValue();
        proceeding := WriteRegStep(buf, REG_PMU_POWER_CFG, word as int, next, xmitOk);
      case TxPower =>
        var word := TxPowerValue();
        proceeding := WriteRegStep(buf, RG_AON_A53, word as int, FwlogOutput, xmitOk);
      case FwlogOutput =>
        proceeding := WriteRegStep(buf, RG_AON_A59, (cfg.fwlogConfig & 0x3) as int, StartCpuBefore, xmitOk);
      case StartCpuBefore => proceeding := WriteRegStep(buf, REG_CPU_CLOCK, 0x800_0000, StartCpu, xmitOk);
      case StartCpu =>
        var units := 4 + 2 + 1;
        var value := if cfg.chip == W1 || cfg.chip == W1U then units * 0x100 else units * 0x1_0000;
        proceeding := WriteRegStep(buf, REG_DEV_RESET, value, SetParams, xmitOk);
      case SetParams =>
        FillBdAddr(buf, cfg.bdAddr);
        state := if cfg.chip == W1U then SetWaveform else SetBdAddr;
        proceeding := Send(buf, WriteBdAddr(cfg.bdAddr), xmitOk);
    }

    /** The call through the dispatch table. */
    method DispatchStep(buf: HcBuf, xmitOk: bool, mallocOk: bool, nodeOk: bool) returns (proceeding: byte)
      requires Valid() && Fillable(buf)
      modifies this, buf, buf.data, stack
      ensures stack.Valid()
      ensures var o := Dispatch(cfg, old(Abstract()), mallocOk, nodeOk);
              Abstract() == Perform(old(Current()), buf.id, o, xmitOk).g
      ensures var o := Dispatch(cfg, old(Abstract()), mallocOk, nodeOk);
              stack.ledger == Perform(old(Current()), buf.id, o, xmitOk).led
      ensures proceeding != FALSE <==> Proceeds(Dispatch(cfg, old(Abstract()), mallocOk, nodeOk), xmitOk)
    {
      match state
      case TestWrite => proceeding := WriteRegStep(buf, REG_RAM_PD_SHUTDWONW_SW, 0, Iccm, xmitOk);
      case TestRead => proceeding := TestReadUart(buf, xmitOk);
      case Iccm => proceeding := IccmUart(buf, xmitOk);
      case Dccm => proceeding := DccmUart(buf, xmitOk, nodeOk);
      case SetWaveform => proceeding := SetWaveformData(buf, xmitOk, mallocOk);
      case SetBdAddr => proceeding := SendWakeData(buf, cfg.chip == W1, xmitOk);
      case SetWakeup => proceeding := SendWakeData(buf, false, xmitOk);
      case SetManuData => proceeding := WriteManufacture(buf);
      case _ => proceeding := ControlStep(buf, xmitOk);
    }

    /**
     * `hw_config_cback`: a completion event, in a buffer that the callback now
     * owns, is handled exactly as the value model says. That the stack accepts each
     * free and each hand-over shows that no buffer is disposed of twice.
     */
    method Cback(evt: HcBuf, allocOk: bool, xmitOk: bool, mallocOk: bool, nodeOk: bool)
      requires Valid() && evt.id in stack.ledger.owned && evt.data.Length > HCI_EVT_CMD_CMPL_STATUS_RET_BYTE
      requires evt.id < stack.ledger.next
      modifies this, stack
      ensures stack.Valid()
      ensures var e := Completion(evt.data[HCI_EVT_CMD_CMPL_STATUS_RET_BYTE], allocOk, xmitOk, mallocOk, nodeOk);
              Abstract() == Handle(cfg, old(Current()), evt.id, e).g
      ensures var e := Completion(evt.data[HCI_EVT_CMD_CMPL_STATUS_RET_BYTE], allocOk, xmitOk, mallocOk, nodeOk);
              stack.ledger == Handle(cfg, old(Current()), evt.id, e).led
    {
      var status := evt.data[HCI_EVT_CMD_CMPL_STATUS_RET_BYTE];
      var buf: HcBuf? := null;
      ghost var v, o := Current(), Dispatch(cfg, Abstract(), mallocOk, nodeOk);
      if status == 0 {
        buf := stack.Alloc(HCI_CMD_MAX_LEN, allocOk);
      }
      var proceeding := FALSE;
      if buf != null {
        buf.len := 0;
        proceeding := DispatchStep(buf, xmitOk, mallocOk, nodeOk);
      }
      FinishCback(evt, buf, proceeding, v, Completion(status, allocOk, xmitOk, mallocOk, nodeOk), o);
    }

    /** The end of `hw_config_cback`: free the event, and on failure the command buffer. */
    method FinishCback(evt: HcBuf, buf: HcBuf?, proceeding: byte, ghost v: View, ghost e: Completion, ghost o: Outcome)
      requires stack.Valid() && evt.id in v.led.owned && evt.id < v.led.next
      requires (buf == null) == (e.status != 0 || !e.allocOk)
      requires buf == null ==> proceeding == FALSE && Current() == v
      requires buf != null ==>
                 && buf.id == v.led.next
                 && Abstract() == Perform(v.(led := v.led.Acquire()), buf.id, o, e.xmitOk).g
                 && stack.ledger == Perform(v.(led := v.led.Acquire()), buf.id, o, e.xmitOk).led
                 && (proceeding != FALSE <==> Proceeds(o, e.xmitOk))
      modifies `state, stack
      ensures stack.Valid()
      ensures Abstract() == React(v, evt.id, e, o).g
      ensures stack.ledger == React(v, evt.id, e, o).led
    {
      stack.Dealloc(evt);
      if proceeding == FALSE {
        if buf != null {
          stack.Dealloc(buf);
        }
        stack.FwCfg(false);
        state := IDLE;
      }
    }

    /** The lengths and offsets of what is to be sent; the ROM part of the ICCM is not. */
    method SetLengths(iccmSize: nat, dccmSize: nat)
      modifies `lenIccm, `offsetIccm, `lenDccm, `offsetDccm
      ensures lenIccm == iccmSize - cfg.RomSize() && offsetIccm == cfg.RomSize()
      ensures lenDccm == dccmSize && offsetDccm == 0
    {
      lenIccm := iccmSize;
      if cfg.chip == W2L {
        lenIccm := lenIccm - 384 * 1024;
        offsetIccm := 384 * 1024;
      } else {
        lenIccm := lenIccm - 256 * 1024;
        offsetIccm := 256 * 1024;
      }
      lenDccm := dccmSize;
      offsetDccm := 0;
    }

    /** `hw_get_bin_size` and the loading that follows it. */
    method LoadImages(file: seq<byte>)
      requires Loadable(cfg.chip, cfg.intf, file)
      modifies this
      ensures Abstract() == LoadedGlobals(cfg, old(Abstract()), file)
      ensures offsetIccm == (if cfg.chip == W2L then 393216 else 262144) && lenIccm == |iccmBuf| - offsetIccm
      ensures offsetDccm == 0 && lenDccm == |dccmBuf|
    {
      var iccmSize, dccmSize, addIccm := ProbeSizes(cfg.chip, cfg.intf, file);
      var iccm, dccm := ReadImages(cfg.chip, cfg.intf, file, iccmSize, dccmSize, addIccm);
      SetLengths(iccmSize, dccmSize);
      fwLost := if fwLive then fwLost + 1 else fwLost;
      fwLive := true;
      iccmBuf, dccmBuf := iccm, dccm;
      state := TestWrite;
    }

    /** `hw_config_start` on a known chip; `powered` is the W1's `w1_bt_power`. */
    method ConfigStart(file: seq<byte>, powered: bool, allocOk: bool, xmitOk: bool)
      requires cfg.Valid() && stack.Valid() && (powered || Loadable(cfg.chip, cfg.intf, file))
      modifies this, stack
      ensures stack.Valid()
      ensures var s := if powered then ResetStart else FirmwareStart(file);
              Abstract() == Begin(cfg, old(Current()), s, allocOk, xmitOk).g
      ensures var s := if powered then ResetStart else FirmwareStart(file);
              stack.ledger == Begin(cfg, old(Current()), s, allocOk, xmitOk).led
    {
      state := IDLE;
      var buf := stack.Alloc(HCI_CMD_PREAMBLE_SIZE + 8, allocOk);
      if buf == null {
        stack.FwCfg(false);
        return;
      }
      if powered {
        var p := PutUint16(buf.data, 0, HCI_RESET);
        p := PutUint8(buf.data, p, 0);
        buf.len := HCI_CMD_PREAMBLE_SIZE;
        assert buf.data[..3] == [] + Le16(HCI_RESET) + [0];
        state := SetManuData;
        var ignored := Send(buf, Reset, xmitOk);
      } else {
        LoadImages(file);
        FillWriteReg(buf, REG_DOWNLOAD_MODE, 0x100_0000);
        var ignored := Send(buf, ENABLE_DOWNLOAD, xmitOk);
      }
    }

    method ConfigQuickStart(allocOk: bool, xmitOk: bool)
      requires cfg.Valid() && stack.Valid()
      modifies this, stack
      ensures stack.Valid()
      ensures Abstract() == Begin(cfg, old(Current()), QuickStart, allocOk, xmitOk).g
      ensures stack.ledger == Begin(cfg, old(Current()), QuickStart, allocOk, xmitOk).led
    {
      state := IDLE;
      var buf := stack.Alloc(HCI_CMD_PREAMBLE_SIZE + 8, allocOk);
      if buf == null {
        stack.FwCfg(false);
        return;
      }
      cnt := 0;
      FillBdAddr(buf, cfg.bdAddr);
      state := if cfg.chip == W2 then SetWaveform else SetWakeup;
      var ignored := Send(buf, WriteBdAddr(cfg.bdAddr), xmitOk);
    }
  }
}
