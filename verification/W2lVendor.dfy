/**
 * The W2L operations that touch BT_EN. The chip is shared with a 15.4 radio, so
 * power may be cut only when the coexistence status shows no Zigbee or Thread.
 */
module W2lVendor {
  import opened Bytes
  import opened HciCommand
  import opened SerialPort
  import opened HciExchange
  import opened BoardPower

  const FW_MODE_COEX := 3

  datatype PowerRequest = PwrOff | PwrOn | OtherRequest

  /** What `libbt_op_power_ctrl` meets: property, device node, ioctl, rail reading, probe answers, thread. */
  datatype PowerEnv = PowerEnv(
    userRequested: bool, coexFd: int, status: byte, ioctlOk: bool,
    railReading: int, probes: seq<bool>, threadOk: bool)

  /** What `libbt_op_userial_open` meets. */
  datatype OpenEnv = OpenEnv(coexFd: int, status: byte, ioctlOk: bool, uartFd: int, nodeFd: int)

  // ----- what the operations do to the rail -----

  function ReadThenCut(status: byte, ok: bool, cut: seq<BoardEvent>): seq<BoardEvent> {
    var read := CoexRead(status, ok);
    [read] + if Alive(StatusSeen(read)) then [] else cut
  }

  function PowerCtrlEvents(request: PowerRequest, env: PowerEnv): seq<BoardEvent> {
    match request
    case PwrOff =>
      if !env.userRequested && env.coexFd > 0 then ReadThenCut(env.status, env.ioctlOk, [PowerOff]) else []
    case PwrOn => if env.railReading == 0 then [PowerOn] else []
    case OtherRequest => []
  }

  /** `cycles` is the number of failed attempts of the baud-rate handshake. */
  function UserialOpenEvents(env: OpenEnv, cycles: nat): seq<BoardEvent> {
    if env.coexFd <= 0 then []
    else ReadThenCut(env.status, env.ioctlOk, if env.uartFd < 0 then [] else Cycles(cycles))
  }

  predicate ReadsStatus(request: PowerRequest, env: PowerEnv) {
    request == PwrOff && !env.userRequested && env.coexFd > 0
  }

  /** The SDIO side reports its probe within sixty polls. */
  predicate ProbedInTime(env: PowerEnv) {
    exists k :: 0 <= k < Min(60, |env.probes|) && env.probes[k]
  }

  predicate PowersOn(env: PowerEnv, fwMode: nat) {
    env.coexFd >= 0 && ProbedInTime(env) && (fwMode == FW_MODE_COEX ==> env.threadOk)
  }

  /** No radio was seen and the tty opened: the baud-rate handshake runs. */
  predicate Handshakes(env: OpenEnv) {
    env.coexFd > 0 && !Alive(StatusSeen(CoexRead(env.status, env.ioctlOk))) && env.uartFd >= 0
  }

  /** Descriptor zero skips everything; otherwise the tty is needed unless a radio lives, and the node always. */
  predicate Opens(env: OpenEnv) {
    env.coexFd == 0
    || (env.coexFd > 0 && env.nodeFd >= 0
        && (env.uartFd >= 0 || Alive(StatusSeen(CoexRead(env.status, env.ioctlOk)))))
  }

  /** What opening does, by the bits of the status. */
  lemma OpenByBits(env: OpenEnv, cycles: nat)
    ensures var alive := env.ioctlOk && (env.status as bv8) & 0x06 != 0;
            && (Opens(env) <==>
                  env.coexFd == 0 || (env.coexFd > 0 && env.nodeFd >= 0 && (env.uartFd >= 0 || alive)))
            && (Handshakes(env) <==> env.coexFd > 0 && env.uartFd >= 0 && !alive)
            && UserialOpenEvents(env, cycles)
               == if env.coexFd <= 0 then []
                  else if alive || env.uartFd < 0 then [CoexRead(env.status, env.ioctlOk)]
                  else [CoexRead(env.status, env.ioctlOk)] + Cycles(cycles)
  {
    AliveBits(env.status);
    AliveBits(0);
  }

  /** How many attempts of a handshake failed. */
  function Failures(matched: bool, taken: seq<seq<byte>>): nat
    requires taken != []
  {
    if matched then |taken| - 1 else 3
  }

  /** The PMU register, and the nine that are read for debugging. */
  const PROBED_REGISTERS: seq<u32> := [
    0xf03078, 0xf0008c, 0xf02044, 0xf02078, 0xf02058, 0x205090, 0x205094, 0x205098, 0x20509c, 0x2050a0]

  /** What the handshake and `readCount` register reads took from the stream `s`, one behind the other. */
  ghost predicate UartTook(
    s: seq<byte>, taken: seq<seq<byte>>, answers: seq<seq<byte>>, readCount: nat, left: seq<byte>, matched: bool)
  {
    && 1 <= |taken| <= 3 && (!matched ==> |taken| == 3) && |answers| == readCount
    && Attempts(s, taken, Flatten(answers) + left, matched)
  }

  /** What they sent. */
  function UartSent(attempts: nat, regs: seq<u32>): seq<byte> {
    Copies(BAUD_COMMAND, attempts) + ReadCommands(regs, |regs|)
  }

  lemma SentBehind(wire: seq<byte>, attempts: nat, regs: seq<u32>)
    ensures wire + Copies(BAUD_COMMAND, attempts) + ReadCommands(regs, |regs|) == wire + UartSent(attempts, regs)
  {
  }

  lemma ReadFirst(log: seq<BoardEvent>, read: BoardEvent, cut: seq<BoardEvent>)
    ensures log + [read] + cut == log + ([read] + cut)
  {
  }

  class W2l {
    const board: Board
    const port: Port
    const fwMode: nat
    var coexStatus: byte
    var exitThread: bool
    var userialFd: int
    var sdioFd: int

    constructor (board: Board, port: Port, fwMode: nat)
      ensures this.board == board && this.port == port && this.fwMode == fwMode
    {
      this.board, this.port, this.fwMode := board, port, fwMode;
      coexStatus, exitThread, userialFd, sdioFd := 0, false, -1, -1;
    }

    /** Reads the coexistence status, and looks for the bits of the two radios. */
    method SeesRadio(status: byte, ioctlOk: bool) returns (alive: bool)
      modifies `coexStatus, board`log
      ensures board.log == old(board.log) + [CoexRead(status, ioctlOk)]
      ensures coexStatus == StatusSeen(CoexRead(status, ioctlOk))
      ensures alive <==> Alive(StatusSeen(CoexRead(status, ioctlOk)))
      ensures alive <==> ioctlOk && (status as bv8) & 0x06 != 0
    {
      coexStatus := board.GetCoexStatus(status, ioctlOk);
      AliveBits(coexStatus);
      alive := (coexStatus as bv8) & ZIGBEE_ALIVE != 0 || (coexStatus as bv8) & THREAD_ALIVE != 0;
    }

    method PowerCtrl(request: PowerRequest, env: PowerEnv) returns (r: int)
      modifies this, board
      ensures board.log == old(board.log) + PowerCtrlEvents(request, env)
      ensures r == if request != PwrOn || PowersOn(env, fwMode) then 0 else -1
      ensures coexStatus == if ReadsStatus(request, env) then StatusSeen(CoexRead(env.status, env.ioctlOk))
                            else old(coexStatus)
      ensures exitThread == if fwMode != FW_MODE_COEX || request == OtherRequest then old(exitThread)
                            else if request == PwrOff then true
                            else old(exitThread) && !(env.coexFd >= 0 && ProbedInTime(env))
      ensures userialFd == old(userialFd) && sdioFd == old(sdioFd)
      ensures request == PwrOn ==> board.log == old(board.log) + if env.railReading == 0 then [PowerOn] else []
      ensures request == PwrOff && !env.userRequested && env.coexFd > 0 ==>
                board.log == old(board.log) + [CoexRead(env.status, env.ioctlOk)]
                             + if env.ioctlOk && (env.status as bv8) & 0x06 != 0 then [] else [PowerOff]
      ensures request == PwrOn ==>
                (r == 0 <==>
                   && env.coexFd >= 0 && (exists k :: 0 <= k < 60 && k < |env.probes| && env.probes[k])
                   && (fwMode == 3 ==> env.threadOk))
    {
      r := 0;
      match request
      case PwrOff =>
        if !env.userRequested {
          if env.coexFd > 0 {
            var alive := SeesRadio(env.status, env.ioctlOk);
            if alive {
            } else {
              board.SetPower(false);
            }
          }
        }
        if fwMode == FW_MODE_COEX {
          exitThread := true;
        }
      case PwrOn =>
        if env.railReading == 0 {
          board.SetPower(true);
        }
        if env.coexFd < 0 {
          return -1;
        }
        var retry := 0;
        while retry < 60
          invariant 0 <= retry <= 60
          invariant forall k :: 0 <= k < retry && k < |env.probes| ==> !env.probes[k]
        {
          if retry < |env.probes| && env.probes[retry] {
            break;
          }
          retry := retry + 1;
        }
        if retry >= 60 {
          return -1;
        }
        if fwMode == FW_MODE_COEX {
          exitThread := false;
          if !env.threadOk {
            return -1;
          }
        }
      case OtherRequest =>
    }

    /** No radio was seen: the tty is opened, and if it is there, the handshake runs and registers are read. */
    method InitUart(uartFd: int, regs: seq<u32>, ghost events: seq<seq<byte>>, ghost rest: seq<byte>)
      returns (ghost matched: bool, ghost taken: seq<seq<byte>>, ghost answers: seq<seq<byte>>)
      requires AllEvents(events)
      modifies `userialFd, board, port
      ensures userialFd == uartFd && taken != []
      ensures board.log == old(board.log) + if uartFd < 0 then [] else Cycles(Failures(matched, taken))
      ensures uartFd >= 0 ==>
                && UartTook(old(port.input), taken, answers, |regs|, port.input, matched)
                && board.baud == (if matched then 4_000_000 else 115200)
      ensures uartFd >= 0 && old(port.Writable()) ==> port.wire == old(port.wire) + UartSent(|taken|, regs)
      ensures uartFd >= 0 && old(port.input) == Flatten(events) + rest && LastTried(events) < |events|
              && RepliesTimely(old(port.readPlan), events, LastTried(events) + 1, 200) ==>
                Failures(matched, taken) == Min(FirstMatch(events), 3)
      ensures uartFd >= 0 && old(port.Writable()) && old(port.input) == Flatten(events) + rest
              && LastTried(events) + |regs| < |events|
              && RepliesTimely(old(port.readPlan), events, LastTried(events) + 1 + |regs|, 200) ==>
                port.input == Flatten(events[LastTried(events) + 1 + |regs|..]) + rest
      ensures uartFd < 0 ==>
                board.baud == old(board.baud) && port.input == old(port.input) && port.wire == old(port.wire)
    {
      matched, taken, answers := true, [[]], [];
      userialFd := uartFd;
      if userialFd >= 0 {
        var ignored;
        ignored, taken := AmlUartInit(board, port, events, rest);
        matched := ignored == 0;
        SentBehind(old(port.wire), |taken|, regs);
        answers := ReadBehind(port, regs, events, rest, old(port.readPlan), LastTried(events) + 1);
      }
    }

    /**
     * `libbt_op_userial_open`. If no radio was seen and the tty opened, `taken` is
     * what the attempts of the handshake took from the stream, and their number,
     * less a match, is the number of power cycles; behind it, `answers` is what the
     * register reads took. On a stream of whole events that come in time the first
     * three of them fix the power cycles, and every read takes one more.
     */
    method UserialOpen(env: OpenEnv, ghost events: seq<seq<byte>>, ghost rest: seq<byte>)
      returns (r: int, ghost matched: bool, ghost taken: seq<seq<byte>>, ghost answers: seq<seq<byte>>)
      requires AllEvents(events)
      modifies this, board, port
      ensures taken != []
      ensures board.log == old(board.log) + UserialOpenEvents(env, Failures(matched, taken))
      ensures r == if Opens(env) then 1 else -1
      ensures Handshakes(env) ==>
                && UartTook(old(port.input), taken, answers, |PROBED_REGISTERS|, port.input, matched)
                && board.baud == (if matched then 4_000_000 else 115200)
      ensures Handshakes(env) && old(port.Writable()) ==>
                port.wire == old(port.wire) + UartSent(|taken|, PROBED_REGISTERS)
      ensures Handshakes(env) && old(port.input) == Flatten(events) + rest && LastTried(events) < |events|
              && RepliesTimely(old(port.readPlan), events, LastTried(events) + 1, 200) ==>
                Failures(matched, taken) == Min(FirstMatch(events), 3)
      ensures Handshakes(env) && old(port.Writable()) && old(port.input) == Flatten(events) + rest
              && LastTried(events) + |PROBED_REGISTERS| < |events|
              && RepliesTimely(old(port.readPlan), events, LastTried(events) + 1 + |PROBED_REGISTERS|, 200) ==>
                port.input == Flatten(events[LastTried(events) + 1 + |PROBED_REGISTERS|..]) + rest
      ensures !Handshakes(env) ==>
                board.baud == old(board.baud) && port.input == old(port.input) && port.wire == old(port.wire)
      ensures coexStatus == if env.coexFd > 0 then StatusSeen(CoexRead(env.status, env.ioctlOk)) else old(coexStatus)
      ensures exitThread == old(exitThread)
      ensures env.coexFd > 0 && env.ioctlOk && (env.status as bv8) & 0x06 != 0 ==>
                board.log == old(board.log) + [CoexRead(env.status, true)] && r == if env.nodeFd >= 0 then 1 else -1
    {
      matched, taken, answers := true, [[]], [];
      if env.coexFd < 0 {
        return -1, matched, taken, answers;
      }
      if env.coexFd > 0 {
        var alive := SeesRadio(env.status, env.ioctlOk);
        if alive {
        } else {
          matched, taken, answers := InitUart(env.uartFd, PROBED_REGISTERS, events, rest);
          ReadFirst(old(board.log), CoexRead(env.status, env.ioctlOk),
                    if env.uartFd < 0 then [] else Cycles(Failures(matched, taken)));
          if userialFd < 0 {
            return -1, matched, taken, answers;
          }
        }
        sdioFd := env.nodeFd;
        if sdioFd < 0 {
          return -1, matched, taken, answers;
        }
      }
      return 1, matched, taken, answers;
    }
  }

  // ----- safety -----

  ghost predicate IsLastReading(log: seq<BoardEvent>, i: nat)
    requires i < |log|
  {
    log[i].CoexRead? && forall j :: i < j < |log| ==> !log[j].CoexRead?
  }

  /** The most recent status reading in a log. */
  function LastReading(log: seq<BoardEvent>): (r: Option<BoardEvent>)
    ensures r.None? ==> forall i :: 0 <= i < |log| ==> !log[i].CoexRead?
    ensures r.Some? ==> r.value.CoexRead? && exists i :: 0 <= i < |log| && IsLastReading(log, i) && log[i] == r.value
  {
    if log == [] then None
    else if log[|log| - 1].CoexRead? then Some(log[|log| - 1])
    else LastReading(log[..|log| - 1])
  }

  /** The power is cut after a reading, in which the library saw no 15.4 radio. */
  predicate SeenClear(past: seq<BoardEvent>) {
    LastReading(past).Some? && !Alive(StatusSeen(LastReading(past).value))
  }

  /** The same of the true status at the time of the reading. */
  predicate TrulyClear(past: seq<BoardEvent>) {
    LastReading(past).Some? && !Alive(LastReading(past).value.status)
  }

  /** Before every power-off, the library saw no radio. */
  ghost predicate SafeLog(log: seq<BoardEvent>) {
    forall i :: 0 <= i < |log| && log[i] == PowerOff ==> SeenClear(log[..i])
  }

  /** Before every power-off, there was no radio. */
  ghost predicate TrulySafeLog(log: seq<BoardEvent>) {
    forall i :: 0 <= i < |log| && log[i] == PowerOff ==> TrulyClear(log[..i])
  }

  datatype Op = Power(request: PowerRequest, penv: PowerEnv) | Open(oenv: OpenEnv, cycles: nat)
  {
    function Events(): seq<BoardEvent> {
      match this
      case Power(request, env) => PowerCtrlEvents(request, env)
      case Open(env, cycles) => UserialOpenEvents(env, cycles)
    }

    /** The operation gets as far as cutting the power, if the status it reads allows it. */
    predicate WouldCut() {
      match this
      case Power(request, env) => ReadsStatus(request, env)
      case Open(env, cycles) => env.coexFd > 0 && env.uartFd >= 0 && cycles > 0
    }

    /** What it meets: the status reading, if it makes one. */
    function Reading(): BoardEvent {
      if Power? then CoexRead(penv.status, penv.ioctlOk) else CoexRead(oenv.status, oenv.ioctlOk)
    }

    /** It would cut the power, the ioctl fails, and a radio is alive. */
    predicate CutsBlindly() {
      WouldCut() && !Reading().ok && Alive(Reading().status)
    }
  }

  /** The log of a whole sequence of operations, with any number of failed handshake attempts in each open. */
  function OpsLog(ops: seq<Op>): seq<BoardEvent> {
    if ops == [] then [] else OpsLog(ops[..|ops| - 1]) + ops[|ops| - 1].Events()
  }

  /**
   * The exact condition under which an operation cuts the power, on the bits of the
   * status. A failed ioctl counts as "no radio": power is then cut whatever the true
   * status is.
   */
  lemma CutsExactly(op: Op)
    ensures PowerOff in op.Events() <==> op.WouldCut() && !(op.Reading().ok && Alive(op.Reading().status))
    ensures op.Power? ==>
              (PowerOff in op.Events() <==>
                 && op.request == PwrOff && !op.penv.userRequested && op.penv.coexFd > 0
                 && !(op.penv.ioctlOk && (op.penv.status as bv8) & 0x06 != 0))
    ensures op.Open? ==>
              (PowerOff in op.Events() <==>
                 && op.oenv.coexFd > 0 && op.oenv.uartFd >= 0 && op.cycles > 0
                 && !(op.oenv.ioctlOk && (op.oenv.status as bv8) & 0x06 != 0))
  {
    CutsWhenNotAlive(op);
    AliveBits(op.Reading().status);
  }

  lemma CutsWhenNotAlive(op: Op)
    ensures PowerOff in op.Events() <==> op.WouldCut() && !(op.Reading().ok && Alive(op.Reading().status))
  {
    var log := op.Events();
    assert !Alive(0);
    match op
    case Power(_, _) =>
      assert |log| == 2 ==> log[1] == PowerOff;
    case Open(env, n) =>
      if Handshakes(env) && n > 0 {
        assert log == [op.Reading()] + Cycles(n - 1) + [PowerOff, PowerOn];
        assert log[|log| - 2] == PowerOff;
      }
  }

  /** What safety means on the bits of every status that was really read, and of the true one. */
  lemma SafeLogMeans(log: seq<BoardEvent>)
    ensures SafeLog(log) <==>
            forall i :: 0 <= i < |log| && log[i] == PowerOff ==>
              var last := LastReading(log[..i]);
              last.Some? && (last.value.ok ==> (last.value.status as bv8) & 0x06 == 0)
    ensures TrulySafeLog(log) <==>
            forall i :: 0 <= i < |log| && log[i] == PowerOff ==>
              var last := LastReading(log[..i]);
              last.Some? && (last.value.status as bv8) & 0x06 == 0
  {
    forall i | 0 <= i < |log|
      ensures var last := LastReading(log[..i]);
              && (SeenClear(log[..i]) <==>
                    last.Some? && (last.value.ok ==> (last.value.status as bv8) & 0x06 == 0))
              && (TrulyClear(log[..i]) <==> last.Some? && (last.value.status as bv8) & 0x06 == 0)
    {
      if LastReading(log[..i]).Some? {
        AliveBits(LastReading(log[..i]).value.status);
      }
    }
  }

  lemma {:induction false} CyclesReadNothing(prefix: seq<BoardEvent>, n: nat, i: nat)
    requires i <= |Cycles(n)|
    ensures LastReading(prefix + Cycles(n)[..i]) == LastReading(prefix)
    decreases i
  {
    if i == 0 {
      assert prefix + Cycles(n)[..0] == prefix;
    } else {
      var log := prefix + Cycles(n)[..i];
      CyclesAreCycles(n, i - 1);
      assert log[|log| - 1] == Cycles(n)[i - 1];
      assert log[..|log| - 1] == prefix + Cycles(n)[..i - 1];
      CyclesReadNothing(prefix, n, i - 1);
    }
  }

  lemma {:induction false} CyclesAreCycles(n: nat, i: nat)
    requires i < |Cycles(n)|
    ensures !Cycles(n)[i].CoexRead?
  {
    if i < |Cycles(n - 1)| {
      CyclesAreCycles(n - 1, i);
    }
  }

  /** Every power-off of an operation follows its own reading. */
  lemma CutsAfterOwnReading(op: Op, i: nat)
    requires i < |op.Events()| && op.Events()[i] == PowerOff
    ensures LastReading(op.Events()[..i]) == Some(op.Reading())
  {
    var log, read := op.Events(), op.Reading();
    assert log[0] == read && log[..1] == [read] && LastReading([read]) == Some(read);
    match op
    case Power(_, _) =>
    case Open(_, n) =>
      assert log == [read] + Cycles(n);
      CyclesReadNothing([read], n, i - 1);
      assert log[..i] == [read] + Cycles(n)[..i - 1];
  }

  /** Each operation is safe by itself, as far as it can see: it relies on no reading made before it. */
  lemma OpIsSafe(op: Op)
    ensures SafeLog(op.Events())
    ensures TrulySafeLog(op.Events()) <==> !op.CutsBlindly()
  {
    var log := op.Events();
    forall i | 0 <= i < |log| && log[i] == PowerOff
      ensures SeenClear(log[..i]) && (TrulyClear(log[..i]) <==> !Alive(op.Reading().status))
    {
      CutsAfterOwnReading(op, i);
    }
    CutsExactly(op);
  }

  lemma {:induction false} LastReadingIgnoresPast(past: seq<BoardEvent>, log: seq<BoardEvent>)
    requires LastReading(log).Some?
    ensures LastReading(past + log) == LastReading(log)
    decreases |log|
  {
    var all := past + log;
    assert all[|all| - 1] == log[|log| - 1];
    if !log[|log| - 1].CoexRead? {
      assert all[..|all| - 1] == past + log[..|log| - 1];
      LastReadingIgnoresPast(past, log[..|log| - 1]);
    }
  }

  /** What precedes an operation decides nothing about it. */
  lemma SafeAppend(past: seq<BoardEvent>, op: Op)
    ensures SafeLog(past + op.Events()) <==> SafeLog(past)
    ensures TrulySafeLog(past + op.Events()) <==> TrulySafeLog(past) && !op.CutsBlindly()
  {
    var log := op.Events();
    var all := past + log;
    OpIsSafe(op);
    forall i | 0 <= i < |past|
      ensures all[i] == past[i] && all[..i] == past[..i]
    {
    }
    forall i | 0 <= i < |log| && log[i] == PowerOff
      ensures all[|past| + i] == log[i] && LastReading(all[..|past| + i]) == LastReading(log[..i])
    {
      CutsAfterOwnReading(op, i);
      assert all[..|past| + i] == past + log[..i];
      LastReadingIgnoresPast(past, log[..i]);
    }
    forall i | |past| <= i < |all|
      ensures all[i] == log[i - |past|]
    {
    }
  }

  ghost predicate NoBlindCut(ops: seq<Op>) {
    forall i :: 0 <= i < |ops| ==> !ops[i].CutsBlindly()
  }

  lemma NoBlindCutSplit(ops: seq<Op>)
    requires ops != []
    ensures NoBlindCut(ops) <==> NoBlindCut(ops[..|ops| - 1]) && !ops[|ops| - 1].CutsBlindly()
  {
    var before := ops[..|ops| - 1];
    assert forall i :: 0 <= i < |before| ==> before[i] == ops[i];
    if NoBlindCut(before) && !ops[|ops| - 1].CutsBlindly() {
      forall i | 0 <= i < |ops|
        ensures !ops[i].CutsBlindly()
      {
        assert i < |before| ==> before[i] == ops[i];
      }
    }
  }

  /**
   * Power safety over all sequences of operations: whenever BT_EN is switched off,
   * by the power operation or by a retry of the handshake, the library saw neither
   * Zigbee nor Thread in the status it read last. In truth there was none either,
   * exactly if no operation cut the power on a failed ioctl while a radio was alive.
   */
  lemma {:induction false} PowerSafety(ops: seq<Op>)
    ensures SafeLog(OpsLog(ops))
    ensures TrulySafeLog(OpsLog(ops)) <==> NoBlindCut(ops)
    ensures forall i :: 0 <= i < |OpsLog(ops)| && OpsLog(ops)[i] == PowerOff ==>
              var last := LastReading(OpsLog(ops)[..i]);
              last.Some? && (last.value.ok ==> (last.value.status as bv8) & 0x06 == 0)
  {
    SafeLogMeans(OpsLog(ops));
    if ops != [] {
      var before := ops[..|ops| - 1];
      PowerSafety(before);
      SafeAppend(OpsLog(before), ops[|ops| - 1]);
      NoBlindCutSplit(ops);
    }
  }

  /** A call into the library; how often the handshake fails is not the caller's choice. */
  datatype Call = PowerCall(request: PowerRequest, penv: PowerEnv) | OpenCall(oenv: OpenEnv)
  {
    predicate IoctlWorks() {
      if PowerCall? then penv.ioctlOk else oenv.ioctlOk
    }

    predicate Became(op: Op) {
      match this
      case PowerCall(request, env) => op == Power(request, env)
      case OpenCall(env) => op.Open? && op.oenv == env
    }
  }

  ghost predicate AllBecame(calls: seq<Call>, ops: seq<Op>) {
    |ops| == |calls| && forall i :: 0 <= i < |calls| ==> calls[i].Became(ops[i])
  }

  ghost predicate AllIoctlsWork(calls: seq<Call>) {
    forall i :: 0 <= i < |calls| ==> calls[i].IoctlWorks()
  }

  lemma WorkingIoctlsCutNothingBlindly(calls: seq<Call>, ops: seq<Op>)
    requires AllBecame(calls, ops) && AllIoctlsWork(calls)
    ensures NoBlindCut(ops)
  {
    forall i | 0 <= i < |ops|
      ensures !ops[i].CutsBlindly()
    {
      assert calls[i].IoctlWorks() && calls[i].Became(ops[i]);
    }
  }

  lemma OneMoreOp(ops: seq<Op>, op: Op)
    ensures OpsLog(ops + [op]) == OpsLog(ops) + op.Events()
  {
    assert (ops + [op])[..|ops|] == ops;
  }

  method MakeCall(w: W2l, call: Call) returns (ghost op: Op)
    modifies w, w.board, w.port
    ensures call.Became(op) && w.board.log == old(w.board.log) + op.Events()
  {
    match call
    case PowerCall(request, env) =>
      var r := w.PowerCtrl(request, env);
      op := Power(request, env);
    case OpenCall(env) =>
      ghost var matched, taken, answers;
      var r;
      r, matched, taken, answers := w.UserialOpen(env, [], []);
      op := Open(env, Failures(matched, taken));
  }

  method RunCalls(w: W2l, calls: seq<Call>) returns (ghost ops: seq<Op>)
    requires w.board.log == []
    modifies w, w.board, w.port
    ensures AllBecame(calls, ops) && w.board.log == OpsLog(ops)
  {
    ops := [];
    for i := 0 to |calls|
      invariant AllBecame(calls[..i], ops) && w.board.log == OpsLog(ops)
    {
      ghost var op := MakeCall(w, calls[i]);
      OneMoreOp(ops, op);
      ops := ops + [op];
    }
    assert calls[..|calls|] == calls;
  }

  /** Power safety of the code: any calls, one after the other, on one board. */
  method MakeCalls(w: W2l, calls: seq<Call>) returns (ghost ops: seq<Op>)
    requires w.board.log == []
    modifies w, w.board, w.port
    ensures AllBecame(calls, ops) && w.board.log == OpsLog(ops)
    ensures SafeLog(w.board.log)
    ensures AllIoctlsWork(calls) ==> TrulySafeLog(w.board.log)
    ensures forall i :: 0 <= i < |w.board.log| && w.board.log[i] == PowerOff ==>
              var last := LastReading(w.board.log[..i]);
              last.Some? && (last.value.ok || AllIoctlsWork(calls) ==> (last.value.status as bv8) & 0x06 == 0)
  {
    ops := RunCalls(w, calls);
    PowerSafety(ops);
    SafeLogMeans(OpsLog(ops));
    if AllIoctlsWork(calls) {
      WorkingIoctlsCutNothingBlindly(calls, ops);
    }
  }
}
