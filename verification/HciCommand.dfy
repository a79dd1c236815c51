/**
 * HCI command packets as the library builds them: opcode, parameter length,
 * parameters, all little-endian (Bluetooth Core Specification, Vol 4 Part E
 * section 5.4.1), plus the macros that store bytes through a moving pointer.
 */
module HciCommand {
  import opened Bytes

  const ICCM_RAM_BASE: u32 := 0x000000
  const DCCM_RAM_BASE: u32 := 0xd00000
  const RW_OPERATION_SIZE := 248
  const TCI_READ_REG: u16 := 0xfef0
  const TCI_WRITE_REG: u16 := 0xfef1
  const TCI_UPDATE_UART_BAUDRATE: u16 := 0xfef2
  const TCI_DOWNLOAD_BT_FW: u16 := 0xfef3
  const HCI_RESET: u16 := 0x0C03
  const HCI_VSC_WRITE_BD_ADDR: u16 := 0xFC1A
  const HCI_VSC_WAKE_WRITE_DATA: u16 := 0xFC22
  const HCI_CMD_PREAMBLE_SIZE := 3
  const HCI_CMD_MAX_LEN := 258
  const BD_ADDR_LEN := 6
  const MANF_ROW := 16
  const MANF_COLUMN := 16

  const REG_DOWNLOAD_MODE: u32 := 0xa70014
  const REG_CPU_CLOCK: u32 := 0xa7000c
  const REG_DEV_RESET: u32 := 0xf03058
  const REG_PMU_POWER_CFG: u32 := 0xf03040
  const REG_RAM_PD_SHUTDWONW_SW: u32 := 0xf03050
  const RG_AON_A53: u32 := 0xf000d4
  const RG_AON_A59: u32 := 0xf000ec

  type Packet = seq<byte>

  datatype Option<+T> = None | Some(value: T)

  datatype RawCommand = RawCommand(opcode: u16, params: seq<byte>)

  /** The bytes of a command; the length byte is a truncating store, as in the source. */
  function Encode(opcode: u16, params: seq<byte>): Packet {
    Le16(opcode) + [Low8(|params|)] + params
  }

  /** The receiver's view: a packet is a command only if its length byte covers it exactly. */
  function Parse(p: Packet): Option<RawCommand> {
    if |p| < HCI_CMD_PREAMBLE_SIZE || |p| != HCI_CMD_PREAMBLE_SIZE + p[2] then None
    else Some(RawCommand(FromLe16(p[..2]), p[3..]))
  }

  lemma ParseEncode(opcode: u16, params: seq<byte>)
    ensures Parse(Encode(opcode, params)) == if |params| < 0x100 then Some(RawCommand(opcode, params)) else None
  {
    var p := Encode(opcode, params);
    Le16RoundTrip(opcode);
    assert p[..2] == Le16(opcode);
    assert p[3..] == params;
  }

  /**
   * The commands of a bring-up. `WakeData` is sent raw, its first byte in the
   * length position; `WakeRecords` carries length-prefixed records.
   */
  datatype Command =
    | WriteReg(reg: u32, value: u32)
    | ReadReg(reg: u32)
    | Download(address: u32, data: seq<byte>)
    | WriteBdAddr(bdAddr: seq<byte>)
    | WakeData(bytes: seq<byte>)
    | WakeRecords(records: seq<seq<byte>>)
    | Reset

  function Reversed(s: seq<byte>): seq<byte> {
    if s == [] then [] else Reversed(s[1..]) + [s[0]]
  }

  function Wire(cmd: Command): Packet {
    match cmd
    case WriteReg(reg, value) => Encode(TCI_WRITE_REG, Le32(reg) + Le32(value))
    case ReadReg(reg) => Encode(TCI_READ_REG, Le32(reg))
    case Download(address, data) => Encode(TCI_DOWNLOAD_BT_FW, Le32(address) + data)
    case WriteBdAddr(bdAddr) => Encode(HCI_VSC_WRITE_BD_ADDR, Reversed(bdAddr))
    case WakeData(bytes) => Le16(HCI_VSC_WAKE_WRITE_DATA) + bytes
    case WakeRecords(records) => Encode(HCI_VSC_WAKE_WRITE_DATA, [Low8(|records|)] + Flatten(records))
    case Reset => Encode(HCI_RESET, [])
  }

  lemma {:induction false} ReversedAt(s: seq<byte>)
    ensures |Reversed(s)| == |s| && forall i :: 0 <= i < |s| ==> Reversed(s)[i] == s[|s| - 1 - i]
  {
    if s != [] {
      ReversedAt(s[1..]);
    }
  }

  /** The device address travels least significant byte first and arrives as configured. */
  lemma BdAddrRoundTrip(bdAddr: seq<byte>)
    requires |bdAddr| == BD_ADDR_LEN
    ensures var r := Parse(Wire(WriteBdAddr(bdAddr)));
            r.Some? && r.value.opcode == HCI_VSC_WRITE_BD_ADDR && |r.value.params| == BD_ADDR_LEN
            && forall i :: 0 <= i < BD_ADDR_LEN ==> r.value.params[i] == bdAddr[5 - i]
  {
    ReversedAt(bdAddr);
    ParseEncode(HCI_VSC_WRITE_BD_ADDR, Reversed(bdAddr));
  }

  /** What a controller does with a packet, as far as its memory and registers go. */
  datatype Effect =
    | StoreRam(to: u32, bytes: seq<byte>)
    | StoreReg(reg: u32, value: u32)
    | Other

  function Decode(p: Packet): Effect {
    match Parse(p)
    case None => Other
    case Some(RawCommand(op, params)) =>
      if op == TCI_DOWNLOAD_BT_FW && |params| >= 4 then StoreRam(FromLe32(params[..4]), params[4..])
      else if op == TCI_WRITE_REG && |params| == 8 then StoreReg(FromLe32(params[..4]), FromLe32(params[4..]))
      else Other
  }

  /**
   * Download codec: for every legal chunk the receiver gets back address and
   * data, the length byte is not truncated and the packet fits its buffer.
   */
  lemma DecodeDownload(address: u32, data: seq<byte>)
    requires |data| <= RW_OPERATION_SIZE
    ensures Decode(Wire(Download(address, data))) == StoreRam(address, data)
    ensures Wire(Download(address, data))[2] == |data| + 4 <= 252
    ensures |Wire(Download(address, data))| == HCI_CMD_PREAMBLE_SIZE + 4 + |data| <= HCI_CMD_MAX_LEN
  {
    var params := Le32(address) + data;
    ParseEncode(TCI_DOWNLOAD_BT_FW, params);
    Le32RoundTrip(address);
    assert params[..4] == Le32(address) && params[4..] == data;
  }

  lemma DecodeWriteReg(reg: u32, value: u32)
    ensures Decode(Wire(WriteReg(reg, value))) == StoreReg(reg, value)
  {
    var params := Le32(reg) + Le32(value);
    ParseEncode(TCI_WRITE_REG, params);
    Le32RoundTrip(reg);
    Le32RoundTrip(value);
    assert params[..4] == Le32(reg) && params[4..] == Le32(value);
  }

  /** No other command touches memory or registers, not even a malformed wake-up command. */
  lemma DecodeOther(cmd: Command)
    requires !cmd.Download? && !cmd.WriteReg?
    ensures Decode(Wire(cmd)) == Other
  {
    match cmd
    case ReadReg(reg) => ParseEncode(TCI_READ_REG, Le32(reg));
    case WriteBdAddr(a) => ParseEncode(HCI_VSC_WRITE_BD_ADDR, Reversed(a));
    case WakeRecords(rs) => ParseEncode(HCI_VSC_WAKE_WRITE_DATA, [Low8(|rs|)] + Flatten(rs));
    case WakeData(bytes) =>
      var p := Wire(cmd);
      assert p[..2] == Le16(HCI_VSC_WAKE_WRITE_DATA);
      Le16RoundTrip(HCI_VSC_WAKE_WRITE_DATA);
    case Reset => ParseEncode(HCI_RESET, []);
  }

  // ----- stores through a moving pointer -----

  method PutUint8(a: array<byte>, p: nat, v: int) returns (q: nat)
    requires p < a.Length
    modifies a
    ensures q == p + 1
    ensures a[..q] == old(a[..p]) + [Low8(v)]
  {
    a[p] := Low8(v);
    q := p + 1;
    assert a[..q] == a[..p] + [a[p]];
  }

  method PutUint16(a: array<byte>, p: nat, w: u16) returns (q: nat)
    requires p + 2 <= a.Length
    modifies a
    ensures q == p + 2
    ensures a[..q] == old(a[..p]) + Le16(w)
  {
    q := PutUint8(a, p, w);
    q := PutUint8(a, q, w / 0x100);
  }

  method PutUint32(a: array<byte>, p: nat, w: u32) returns (q: nat)
    requires p + 4 <= a.Length
    modifies a
    ensures q == p + 4
    ensures a[..q] == old(a[..p]) + Le32(w)
  {
    q := PutUint8(a, p, w);
    q := PutUint8(a, q, w / 0x100);
    q := PutUint8(a, q, w / 0x1_0000);
    q := PutUint8(a, q, w / 0x100_0000);
  }
}
