/** The BT_EN power rail, what the library sees of the coexistence status, and the handshake that cycles the rail. */
module BoardPower {
  import opened Bytes
  import opened HciCommand
  import opened SerialPort
  import opened ReadCourses
  import opened HciEvents
  import opened HciExchange

  /** `CoexRead` is an attempt to read the coexistence status, with the true status and whether the ioctl worked. */
  datatype BoardEvent = CoexRead(status: byte, ok: bool) | PowerOff | PowerOn

  /** What the library takes the status to be: a failed ioctl leaves the initial zero. */
  function StatusSeen(e: BoardEvent): byte
    requires e.CoexRead?
  {
    if e.ok then e.status else 0
  }

  const ZIGBEE_ALIVE: bv8 := 0x02
  const THREAD_ALIVE: bv8 := 0x04

  /** The Zigbee bit (1) or the Thread bit (2) is set. */
  predicate Alive(status: byte) {
    status / 2 % 2 == 1 || status / 4 % 2 == 1
  }

  lemma AliveBits(status: byte)
    ensures Alive(status) <==> (status as bv8) & 0x06 != 0
    ensures Alive(status) <==> (status as bv8) & ZIGBEE_ALIVE != 0 || (status as bv8) & THREAD_ALIVE != 0
  {
  }

  class Board {
    ghost var log: seq<BoardEvent>
    var powered: bool
    var baud: nat

    constructor (powered: bool)
      ensures log == [] && this.powered == powered
    {
      log, baud := [], 115200;
      this.powered := powered;
    }

    /** `upio_set_bluetooth_power`. */
    method SetPower(on: bool)
      modifies `log, `powered
      ensures powered == on && log == old(log) + [if on then PowerOn else PowerOff]
    {
      powered := on;
      log := log + [if on then PowerOn else PowerOff];
    }

    method SetBaud(rate: nat)
      modifies `baud
      ensures baud == rate
    {
      baud := rate;
    }

    /** `aml_get_w2l_coex_status`. */
    method GetCoexStatus(status: byte, ok: bool) returns (seen: byte)
      modifies `log
      ensures log == old(log) + [CoexRead(status, ok)] && seen == StatusSeen(CoexRead(status, ok))
    {
      seen := 0;
      if ok {
        seen := status;
      }
      log := log + [CoexRead(status, ok)];
    }
  }

  // ----- the baud-rate handshake -----

  const EXPECTED_REPLY: seq<byte> := [0x04, 0x0e, 0x04, 0x01, 0xf2, 0xfe]

  /** `n` power cycles. */
  function Cycles(n: nat): seq<BoardEvent> {
    if n == 0 then [] else Cycles(n - 1) + [PowerOff, PowerOn]
  }

  lemma OneMoreCycle(log: seq<BoardEvent>, n: nat)
    ensures log + Cycles(n) + [PowerOff, PowerOn] == log + Cycles(n + 1)
  {
  }

  const BAUD_COMMAND: seq<byte> := [0x01] + Encode(TCI_UPDATE_UART_BAUDRATE, Le32(0xa30128) + Le32(0x7009))

  /** The reply is a Command Complete for just this command. */
  lemma HandshakeBytes()
    ensures BAUD_COMMAND == [0x01, 0xf2, 0xfe, 0x08, 0x28, 0x01, 0xa3, 0x00, 0x09, 0x70, 0x00, 0x00]
    ensures EXPECTED_REPLY == [0x04, 0x0e, 0x04, 0x01, 0xf2, 0xfe] && EXPECTED_REPLY[4..] == BAUD_COMMAND[1..3]
  {
    assert BAUD_COMMAND == [0x01, 0xf2, 0xfe, 0x08] + Le32(0xa30128) + Le32(0x7009);
  }

  method FillBaudCommand(cmd: array<byte>)
    requires cmd.Length == 16
    modifies cmd
    ensures cmd[..12] == BAUD_COMMAND
  {
    cmd[0] := 0x01;
    var p := PutUint16(cmd, 1, TCI_UPDATE_UART_BAUDRATE);
    p := PutUint8(cmd, p, 8);
    p := PutUint32(cmd, p, 0xa30128);
    p := PutUint32(cmd, p, 0x7009);
    assert cmd[..12] == [0x01] + Le16(TCI_UPDATE_UART_BAUDRATE) + [8] + Le32(0xa30128) + Le32(0x7009);
  }

  /**
   * A buffer that was cleared before reading compares equal to the expected reply
   * exactly if the bytes taken from the stream begin with it: nothing of a match is
   * padding.
   */
  lemma MatchCameFromStream(s: seq<byte>, after: seq<byte>, blank: seq<byte>, rsp: seq<byte>, k: nat)
    requires Took(s, after, blank, rsp, 0, k) && |rsp| >= 6
    requires forall i :: 0 <= i < |blank| ==> blank[i] == 0
    ensures rsp[..6] == EXPECTED_REPLY <==> EXPECTED_REPLY <= s[..k]
  {
    assert forall i :: 0 <= i < |rsp| ==> rsp[i] == if i < k then s[i] else 0;
    if rsp[..6] == EXPECTED_REPLY {
      assert forall i :: 0 <= i < 6 ==> rsp[i] == rsp[..6][i] == EXPECTED_REPLY[i] != 0;
      assert rsp[5] != 0;
    }
    if EXPECTED_REPLY <= s[..k] {
      assert forall i :: 0 <= i < 6 ==> rsp[i] == s[..k][i] == EXPECTED_REPLY[i];
    }
  }

  /** An event stands at the front of the stream, and fewer than `limit` reads find nothing before it. */
  predicate ReplyComes(plan: seq<ReadOutcome>, s: seq<byte>, limit: nat) {
    StartsWithEvent(s, HCI_MAX_EVENT_SIZE) && PatientInTime(plan, FrameLength(s[2], HCI_MAX_EVENT_SIZE), limit)
  }

  /**
   * The wait for one reply: at most twenty calls of the reader, until one of them
   * returns anything but zero. It takes `k` bytes, the whole event if one comes while
   * fewer than 200 reads in a row find nothing, and the buffer shows the expected reply
   * exactly if those bytes do.
   */
  method AwaitReply(port: Port, rsp: array<byte>) returns (ghost k: nat)
    requires rsp.Length == HCI_MAX_EVENT_SIZE
    modifies port`input, port`readPlan, port`readCalls, port`wouldBlock, rsp
    ensures k <= |old(port.input)| && port.input == old(port.input)[k..]
    ensures rsp[..6] == EXPECTED_REPLY <==> EXPECTED_REPLY <= old(port.input)[..k]
    ensures port.readCalls > old(port.readCalls)
    ensures ReplyComes(old(port.readPlan), old(port.input), 200) ==>
              && k == FrameLength(old(port.input)[2], HCI_MAX_EVENT_SIZE)
              && port.readPlan == PlanAfter(old(port.readPlan), 0, k, true)
  {
    ghost var s, c := port.input, TypeWait(port.readPlan, 0, true);
    ghost var comes := ReplyComes(port.readPlan, s, 200);
    k := 0;
    var retryCnt := 0;
    while retryCnt < MAX_READ_EVENT_CNT / 2
      invariant 0 <= retryCnt <= MAX_READ_EVENT_CNT / 2 && port.input == s && k == 0
      invariant retryCnt > 0 ==> rsp[..6] != EXPECTED_REPLY && port.readCalls > old(port.readCalls)
      invariant retryCnt == 0 ==> port.readCalls == old(port.readCalls)
      invariant comes ==> Emptied(c, TypeWait(port.readPlan, 0, true), 10 * retryCnt)
    {
      retryCnt := retryCnt + 1;
      Clear(rsp);
      ghost var blank := rsp[..];
      var err;
      err, k := HciReadEvent(port, rsp, HCI_MAX_EVENT_SIZE);
      MatchCameFromStream(s, port.input, blank, rsp[..], k);
      assert rsp[..][..6] == rsp[..6];
      if err != 0 {
        break;
      }
    }
  }

  /** Waits for a reply and cycles the power if it is not the expected one. */
  method TryReply(board: Board, port: Port, rsp: array<byte>) returns (matched: bool, ghost k: nat)
    requires rsp.Length == HCI_MAX_EVENT_SIZE
    modifies board`log, board`powered, port`input, port`readPlan, port`readCalls, port`wouldBlock, rsp
    ensures k <= |old(port.input)| && port.input == old(port.input)[k..]
    ensures matched <==> EXPECTED_REPLY <= old(port.input)[..k]
    ensures port.readCalls > old(port.readCalls)
    ensures board.log == old(board.log) + if matched then [] else [PowerOff, PowerOn]
    ensures board.powered == (!matched || old(board.powered))
    ensures ReplyComes(old(port.readPlan), old(port.input), 200) ==>
              && k == FrameLength(old(port.input)[2], HCI_MAX_EVENT_SIZE)
              && port.readPlan == PlanAfter(old(port.readPlan), 0, k, true)
  {
    k := AwaitReply(port, rsp);
    matched := rsp[..6] == EXPECTED_REPLY;
    if !matched {
      board.SetPower(false);
      board.SetPower(true);
    }
  }

  // ----- the handshake -----

  /** The index of the first event that starts with the expected bytes, or the number of events. */
  function FirstMatch(events: seq<seq<byte>>): (m: nat)
    ensures m <= |events| && (m < |events| ==> EXPECTED_REPLY <= events[m])
    ensures forall i :: 0 <= i < m ==> !(EXPECTED_REPLY <= events[i])
  {
    if events == [] || EXPECTED_REPLY <= events[0] then 0 else 1 + FirstMatch(events[1..])
  }

  /** The event that the last attempt reads: the first match, or the third event if none comes before. */
  function LastTried(events: seq<seq<byte>>): nat {
    Min(FirstMatch(events), 2)
  }

  /** `n` copies of a packet. */
  function Copies(packet: seq<byte>, n: nat): seq<byte> {
    if n == 0 then [] else Copies(packet, n - 1) + packet
  }

  lemma OneMoreCopy(wire: seq<byte>, packet: seq<byte>, n: nat)
    ensures wire + Copies(packet, n) + packet == wire + Copies(packet, n + 1)
  {
  }

  /** Each wait so far took one event, and stream and plan stand in front of the next. */
  ghost predicate OnEvents(
    events: seq<seq<byte>>, rest: seq<byte>, plan: seq<ReadOutcome>,
    taken: seq<seq<byte>>, left: seq<byte>, now: seq<ReadOutcome>)
    requires AllEvents(events)
  {
    && |taken| <= |events| && taken == events[..|taken|] && left == Flatten(events[|taken|..]) + rest
    && now == PlanAt(plan, events, |taken|, true)
  }

  lemma NothingTaken(events: seq<seq<byte>>, rest: seq<byte>, plan: seq<ReadOutcome>)
    requires AllEvents(events)
    ensures OnEvents(events, rest, plan, [], Flatten(events) + rest, plan)
  {
    assert events[0..] == events;
  }

  lemma TookEvent(
    events: seq<seq<byte>>, rest: seq<byte>, plan: seq<ReadOutcome>,
    taken: seq<seq<byte>>, left: seq<byte>, now: seq<ReadOutcome>)
    requires AllEvents(events) && |taken| < |events| && OnEvents(events, rest, plan, taken, left, now)
    requires ReplyTimelyAt(plan, events, |taken|, 200)
    ensures ReplyComes(now, left, 200)
    ensures var k := FrameLength(left[2], HCI_MAX_EVENT_SIZE);
            && left[..k] == events[|taken|]
            && OnEvents(events, rest, plan, taken + [left[..k]], left[k..], PlanAfter(now, 0, k, true))
  {
    EventUpFront(events, |taken|, rest);
  }

  lemma {:induction false} FlattenMore(ss: seq<seq<byte>>, last: seq<byte>)
    ensures Flatten(ss + [last]) == Flatten(ss) + last
  {
    var all := ss + [last];
    if ss == [] {
      assert all[1..] == [] && Flatten(all) == last + [];
    } else {
      FlattenMore(ss[1..], last);
      assert all[1..] == ss[1..] + [last];
    }
  }

  /**
   * What the attempts took from the stream `s`, one behind the other and with
   * nothing in between, and what they left of it; none but the last may match.
   */
  ghost predicate Attempts(s: seq<byte>, taken: seq<seq<byte>>, left: seq<byte>, matched: bool) {
    && s == Flatten(taken) + left
    && forall i :: 0 <= i < |taken| ==> (EXPECTED_REPLY <= taken[i] <==> matched && i == |taken| - 1)
  }

  lemma OneMoreAttempt(s: seq<byte>, taken: seq<seq<byte>>, left: seq<byte>, k: nat)
    requires k <= |left| && Attempts(s, taken, left, false)
    ensures Attempts(s, taken + [left[..k]], left[k..], EXPECTED_REPLY <= left[..k])
  {
    FlattenMore(taken, left[..k]);
    assert left == left[..k] + left[k..];
  }

  /** One round of the handshake: the command, then the wait for its reply. */
  method Attempt(board: Board, port: Port, cmd: array<byte>, rsp: array<byte>,
                 ghost s: seq<byte>, ghost before: seq<seq<byte>>,
                 ghost events: seq<seq<byte>>, ghost rest: seq<byte>, ghost plan: seq<ReadOutcome>)
    returns (written: bool, matched: bool, ghost taken: seq<seq<byte>>)
    requires cmd.Length == 16 && rsp.Length == HCI_MAX_EVENT_SIZE && cmd != rsp
    requires AllEvents(events) && Attempts(s, before, port.input, false)
    modifies board`log, board`powered, port, rsp
    ensures |port.writePlan| <= |old(port.writePlan)| && (!written ==> |port.writePlan| < |old(port.writePlan)|)
    ensures !written ==>
              && board.log == old(board.log) && board.powered == old(board.powered) && taken == before
              && port.input == old(port.input) && port.readPlan == old(port.readPlan)
              && port.readCalls == old(port.readCalls)
    ensures written ==>
              && |taken| == |before| + 1 && Attempts(s, taken, port.input, matched)
              && port.readCalls > old(port.readCalls)
              && (matched ==> board.log == old(board.log))
              && (!matched ==> board.log == old(board.log) + [PowerOff, PowerOn])
              && board.powered == (!matched || old(board.powered))
              && port.wire == old(port.wire) + cmd[..12]
    ensures old(port.Writable()) ==> port.Writable() && written
    ensures written && |before| < |events| && ReplyTimelyAt(plan, events, |before|, 200)
            && OnEvents(events, rest, plan, before, old(port.input), old(port.readPlan)) ==>
              && OnEvents(events, rest, plan, taken, port.input, port.readPlan)
              && (|before| <= FirstMatch(events) ==> (matched <==> |before| == FirstMatch(events)))
  {
    matched, taken := false, before;
    var w := DoWrite(port, cmd, 12);
    written := w == 12;
    if written {
      ghost var left := port.input;
      if |before| < |events| && ReplyTimelyAt(plan, events, |before|, 200)
         && OnEvents(events, rest, plan, before, left, port.readPlan) {
        TookEvent(events, rest, plan, before, left, port.readPlan);
      }
      ghost var k;
      matched, k := TryReply(board, port, rsp);
      OneMoreAttempt(s, before, left, k);
      taken := before + [left[..k]];
    }
  }

  /** The loop of `aml_uart_init`, with the command already filled in. */
  method Handshake(board: Board, port: Port, cmd: array<byte>, rsp: array<byte>,
                   ghost events: seq<seq<byte>>, ghost rest: seq<byte>)
    returns (retry: nat, ghost taken: seq<seq<byte>>)
    requires cmd.Length == 16 && rsp.Length == HCI_MAX_EVENT_SIZE && cmd != rsp && AllEvents(events)
    modifies board`log, board`powered, port, rsp
    ensures retry <= 3 && |taken| == Min(retry + 1, 3)
    ensures Attempts(old(port.input), taken, port.input, retry < 3)
    ensures port.readCalls >= old(port.readCalls) + |taken|
    ensures board.log == old(board.log) + Cycles(retry) && board.powered == (old(board.powered) || retry > 0)
    ensures old(port.Writable()) ==> port.Writable() && port.wire == old(port.wire) + Copies(old(cmd[..12]), |taken|)
    ensures old(port.input) == Flatten(events) + rest && LastTried(events) < |events|
            && RepliesTimely(old(port.readPlan), events, LastTried(events) + 1, 200) ==>
              && retry == Min(FirstMatch(events), 3)
              && OnEvents(events, rest, old(port.readPlan), taken, port.input, port.readPlan)
  {
    ghost var s, plan := port.input, port.readPlan;
    ghost var clean := s == Flatten(events) + rest && LastTried(events) < |events|
                       && RepliesTimely(plan, events, LastTried(events) + 1, 200);
    ghost var log, wire, packet, writable := board.log, port.wire, cmd[..12], port.Writable();
    if clean {
      NothingTaken(events, rest, plan);
    }
    assert log == log + Cycles(0) && wire == wire + Copies(packet, 0);
    retry, taken := 0, [];
    while retry < 3
      invariant 0 <= retry <= 3 && |taken| == retry && Attempts(s, taken, port.input, false)
      invariant port.readCalls >= old(port.readCalls) + retry
      invariant board.log == log + Cycles(retry) && board.powered == (old(board.powered) || retry > 0)
      invariant cmd[..12] == packet
      invariant writable ==> port.Writable() && port.wire == wire + Copies(packet, retry)
      invariant clean ==>
                  retry <= FirstMatch(events) && OnEvents(events, rest, plan, taken, port.input, port.readPlan)
      decreases 3 - retry, |port.writePlan|
    {
      var written, matched;
      assert clean && retry <= LastTried(events) ==> ReplyTimelyAt(plan, events, retry, 200);
      written, matched, taken := Attempt(board, port, cmd, rsp, s, taken, events, rest, plan);
      if !written {
        continue;
      }
      OneMoreCopy(wire, packet, retry);
      if matched {
        break;
      }
      OneMoreCycle(log, retry);
      retry := retry + 1;
    }
  }

  /**
   * `aml_uart_init`. Its at most three attempts take `taken` from the stream, one
   * behind the other. It succeeds exactly when the last of them took bytes that begin
   * with the expected reply; only then is the host switched to 4 Mbaud. There is one
   * power cycle per failed attempt and nothing else touches the rail. A failed write
   * repeats the attempt without counting it. On a stream of whole events each of which
   * comes while fewer than 200 reads find nothing, each attempt takes one event: success
   * is exactly a match among the first three, and the stream then stands right behind it.
   */
  method AmlUartInit(board: Board, port: Port, ghost events: seq<seq<byte>>, ghost rest: seq<byte>)
    returns (r: int, ghost taken: seq<seq<byte>>)
    requires AllEvents(events)
    modifies board, port
    ensures r == 0 || r == -1
    ensures 1 <= |taken| <= 3 && (r == -1 ==> |taken| == 3)
    ensures Attempts(old(port.input), taken, port.input, r == 0)
    ensures port.readCalls >= old(port.readCalls) + |taken|
    ensures board.log == old(board.log) + Cycles(if r == 0 then |taken| - 1 else 3)
    ensures board.baud == if r == 0 then 4_000_000 else 115200
    ensures board.powered == (old(board.powered) || |taken| > 1)
    ensures old(port.Writable()) ==> port.Writable() && port.wire == old(port.wire) + Copies(BAUD_COMMAND, |taken|)
    ensures old(port.input) == Flatten(events) + rest && LastTried(events) < |events|
            && RepliesTimely(old(port.readPlan), events, LastTried(events) + 1, 200) ==>
              && (r == 0 <==> FirstMatch(events) < 3)
              && board.log == old(board.log) + Cycles(Min(FirstMatch(events), 3))
              && taken == events[..LastTried(events) + 1]
              && port.input == Flatten(events[LastTried(events) + 1..]) + rest
              && port.readPlan == PlanAt(old(port.readPlan), events, LastTried(events) + 1, true)
  {
    var cmd := new byte[16](_ => 0);
    var rsp := new byte[HCI_MAX_EVENT_SIZE](_ => 0);
    board.SetBaud(115200);
    FillBaudCommand(cmd);
    var retry;
    retry, taken := Handshake(board, port, cmd, rsp, events, rest);
    if retry >= 3 {
      return -1, taken;
    }
    board.SetBaud(4_000_000);
    return 0, taken;
  }

  // ----- the register reads behind it -----

  function ReadCommand(reg: u32): seq<byte> {
    [0x01] + Wire(ReadReg(reg))
  }

  method FillReadCommand(cmd: array<byte>, reg: u32)
    requires cmd.Length == 16
    modifies cmd
    ensures cmd[..8] == ReadCommand(reg) == [0x01, 0xf0, 0xfe, 4] + Le32(reg)
  {
    cmd[0] := 0x01;
    var p := PutUint16(cmd, 1, TCI_READ_REG);
    p := PutUint8(cmd, p, 4);
    p := PutUint32(cmd, p, reg);
    assert cmd[..8] == [0x01] + Le16(TCI_READ_REG) + [4] + Le32(reg);
  }

  /** The commands for the first `n` of some registers. */
  function ReadCommands(regs: seq<u32>, n: nat): seq<byte>
    requires n <= |regs|
  {
    if n == 0 then [] else ReadCommands(regs, n - 1) + ReadCommand(regs[n - 1])
  }

  lemma OneMoreRead(wire: seq<byte>, regs: seq<u32>, n: nat)
    requires n < |regs|
    ensures wire + ReadCommands(regs, n) + ReadCommand(regs[n]) == wire + ReadCommands(regs, n + 1)
  {
  }

  /** `taken` and what one more read took are in front of what is left. */
  lemma OneMoreTaken(s: seq<byte>, taken: seq<seq<byte>>, left: seq<byte>, k: nat)
    requires k <= |left| && s == Flatten(taken) + left
    ensures s == Flatten(taken + [left[..k]]) + left[k..]
  {
    FlattenMore(taken, left[..k]);
    assert left == left[..k] + left[k..];
  }

  /**
   * `aml_uart_get_pmu` and `aml_uart_rtl_dbg`: a command to read one register, and the
   * wait for a reply, which is only logged. What it takes from the stream comes behind
   * what was taken `before`.
   */
  method ReadRegister(port: Port, reg: u32, ghost s: seq<byte>, ghost before: seq<seq<byte>>,
                      ghost events: seq<seq<byte>>, ghost rest: seq<byte>, ghost plan: seq<ReadOutcome>)
    returns (ghost taken: seq<seq<byte>>)
    requires AllEvents(events) && s == Flatten(before) + port.input
    modifies port
    ensures |taken| == |before| + 1 && s == Flatten(taken) + port.input
    ensures old(port.Writable()) ==> port.Writable() && port.wire == old(port.wire) + ReadCommand(reg)
    ensures old(port.Writable()) && |before| < |events| && ReplyTimelyAt(plan, events, |before|, 200)
            && OnEvents(events, rest, plan, before, old(port.input), old(port.readPlan)) ==>
              OnEvents(events, rest, plan, taken, port.input, port.readPlan)
  {
    ghost var left, now := port.input, port.readPlan;
    ghost var clean := |before| < |events| && ReplyTimelyAt(plan, events, |before|, 200)
                       && OnEvents(events, rest, plan, before, left, now);
    if clean {
      TookEvent(events, rest, plan, before, left, now);
    }
    var cmd := new byte[16](_ => 0);
    var rsp := new byte[HCI_MAX_EVENT_SIZE](_ => 0);
    FillReadCommand(cmd, reg);
    ghost var k := 0;
    var w := DoWrite(port, cmd, 8);
    if w == 8 {
      k := AwaitReply(port, rsp);
    }
    OneMoreTaken(s, before, left, k);
    taken := before + [left[..k]];
    assert clean && w == 8 ==> OnEvents(events, rest, plan, taken, port.input, port.readPlan);
  }

  /**
   * One register after the other. Together they take `taken` from the stream; if
   * writes complete and whole events come in time, they take one event each.
   */
  method ReadRegisters(port: Port, regs: seq<u32>, ghost events: seq<seq<byte>>, ghost rest: seq<byte>)
    returns (ghost taken: seq<seq<byte>>)
    requires AllEvents(events)
    modifies port
    ensures |taken| == |regs| && old(port.input) == Flatten(taken) + port.input
    ensures old(port.Writable()) ==> port.wire == old(port.wire) + ReadCommands(regs, |regs|)
    ensures old(port.Writable()) && |regs| <= |events| && old(port.input) == Flatten(events) + rest
            && RepliesTimely(old(port.readPlan), events, |regs|, 200) ==>
              taken == events[..|regs|] && port.input == Flatten(events[|regs|..]) + rest
  {
    ghost var s, plan := port.input, port.readPlan;
    ghost var clean := port.Writable() && |regs| <= |events| && s == Flatten(events) + rest
                       && RepliesTimely(plan, events, |regs|, 200);
    if clean {
      NothingTaken(events, rest, plan);
    }
    taken := [];
    for i := 0 to |regs|
      invariant |taken| == i && s == Flatten(taken) + port.input
      invariant old(port.Writable()) ==> port.Writable() && port.wire == old(port.wire) + ReadCommands(regs, i)
      invariant clean ==> OnEvents(events, rest, plan, taken, port.input, port.readPlan)
    {
      if clean {
        assert ReplyTimelyAt(plan, events, i, 200);
      }
      taken := ReadRegister(port, regs[i], s, taken, events, rest, plan);
      OneMoreRead(old(port.wire), regs, i);
    }
  }

  /** The register reads once the first `n` events are taken. */
  method ReadBehind(port: Port, regs: seq<u32>, ghost events: seq<seq<byte>>, ghost rest: seq<byte>,
                    ghost plan: seq<ReadOutcome>, ghost n: nat)
    returns (ghost answers: seq<seq<byte>>)
    requires AllEvents(events)
    modifies port
    ensures |answers| == |regs| && old(port.input) == Flatten(answers) + port.input
    ensures old(port.Writable()) ==> port.wire == old(port.wire) + ReadCommands(regs, |regs|)
    ensures old(port.Writable()) && n + |regs| <= |events| && old(port.input) == Flatten(events[n..]) + rest
            && old(port.readPlan) == PlanAt(plan, events, n, true)
            && RepliesTimely(plan, events, n + |regs|, 200) ==>
              port.input == Flatten(events[n + |regs|..]) + rest
  {
    ghost var later := if n <= |events| then events[n..] else [];
    if n + |regs| <= |events| {
      assert later[|regs|..] == events[n + |regs|..];
      if RepliesTimely(plan, events, n + |regs|, 200) {
        RepliesTimelyTail(plan, events, n, |regs|, 200);
      }
    }
    answers := ReadRegisters(port, regs, later, rest);
  }
}
