/**
 * The controller's serial device. How the environment cuts the byte streams is
 * drawn from plans that nothing in the library can see: each read may fail, find
 * nothing or deliver some of what was asked for, each write may be cut short.
 */
module SerialPort {
  import opened Bytes

  datatype ReadOutcome = ReadError | WouldBlock | NoData | Deliver(count: nat)
  datatype WriteOutcome = WriteError | Accept(count: nat)

  /** What a write of `n` bytes returns. */
  function WriteCount(o: WriteOutcome, n: nat): int {
    if o.WriteError? then -1 else Min(o.count, n)
  }

  /** The plan of the writes was followed up to number `k`, the first that accepts nothing, which decides the result. */
  ghost predicate StoppedAt(plan: seq<WriteOutcome>, rest: seq<WriteOutcome>, k: nat, ret: int) {
    && k < |plan| && rest == plan[k + 1..]
    && (forall i :: 0 <= i < k ==> plan[i].Accept? && plan[i].count >= 1)
    && (if plan[k].WriteError? then ret == -1 else plan[k].count == 0 && ret == 0)
  }

  /** Every write of the plan so far accepted something; beyond the plan, all is accepted. */
  ghost predicate Progressed(plan: seq<WriteOutcome>, rest: seq<WriteOutcome>, k: nat) {
    && rest == (if k <= |plan| then plan[k..] else [])
    && forall i :: 0 <= i < k && i < |plan| ==> plan[i].Accept? && plan[i].count >= 1
  }

  class Port {
    var input: seq<byte>
    var readPlan: seq<ReadOutcome>
    var selectPlan: seq<bool>
    var wouldBlock: bool
    ghost var readCalls: nat
    var wire: seq<byte>
    var writePlan: seq<WriteOutcome>

    constructor (input: seq<byte>, readPlan: seq<ReadOutcome>, selectPlan: seq<bool>, writePlan: seq<WriteOutcome>)
      ensures this.input == input && this.readPlan == readPlan && this.selectPlan == selectPlan
      ensures this.writePlan == writePlan && wire == [] && readCalls == 0
    {
      this.input, this.readPlan, this.selectPlan, this.writePlan := input, readPlan, selectPlan, writePlan;
      wire, readCalls, wouldBlock := [], 0, false;
    }

    /** What the next read returns if it asks for `n` bytes. */
    function NextCount(n: nat): int
      reads `input, `readPlan
    {
      if readPlan == [] then Min(n, |input|)
      else match readPlan[0]
        case Deliver(k) => Min(Min(k, n), |input|)
        case NoData => 0
        case _ => -1
    }

    /** Every write makes progress. */
    predicate Writable()
      reads `writePlan
    {
      forall i :: 0 <= i < |writePlan| ==> writePlan[i].Accept? && writePlan[i].count >= 1
    }

    method NextRead() returns (o: ReadOutcome)
      modifies `readPlan, `readCalls
      ensures readCalls == old(readCalls) + 1
      ensures o == if old(readPlan) == [] then Deliver(|input| + 1) else old(readPlan)[0]
      ensures readPlan == if old(readPlan) == [] then [] else old(readPlan)[1..]
    {
      readCalls := readCalls + 1;
      if readPlan == [] {
        o := Deliver(|input| + 1);
      } else {
        o := readPlan[0];
        readPlan := readPlan[1..];
      }
    }

    /** `read(fd, buf + at, n)`; a failed read says through `wouldBlock` whether errno was EAGAIN. */
    method Read(buf: array<byte>, at: nat, n: nat) returns (r: int)
      requires n > 0 && at + n <= buf.Length
      modifies `input, `readPlan, `readCalls, `wouldBlock, buf
      ensures -1 <= r <= n && r == old(NextCount(n))
      ensures r >= 0 ==> r <= |old(input)| && input == old(input)[r..] && buf[at..at + r] == old(input)[..r]
      ensures r < 0 ==> input == old(input)
      ensures forall i :: 0 <= i < buf.Length && !(at <= i < at + r) ==> buf[i] == old(buf[i])
      ensures readCalls == old(readCalls) + 1
      ensures readPlan == if old(readPlan) == [] then [] else old(readPlan)[1..]
      ensures r < 0 ==> old(readPlan) != [] && wouldBlock == old(readPlan)[0].WouldBlock?
    {
      var o := NextRead();
      match o
      case ReadError => wouldBlock := false; r := -1;
      case WouldBlock => wouldBlock := true; r := -1;
      case NoData => r := 0; assert input[0..] == input;
      case Deliver(k) =>
        var m := Min(Min(k, n), |input|);
        var i := 0;
        while i < m
          modifies buf
          invariant i <= m
          invariant forall j :: 0 <= j < buf.Length && !(at <= j < at + i) ==> buf[j] == old(buf[j])
          invariant buf[at..at + i] == input[..i]
        {
          buf[at + i] := input[i];
          i := i + 1;
        }
        input := input[m..];
        r := m;
    }

    /** `select` on this device: true if it became readable in time. */
    method Select() returns (ready: bool)
      modifies `selectPlan
      ensures ready == (old(selectPlan) == [] || old(selectPlan)[0])
      ensures selectPlan == if old(selectPlan) == [] then [] else old(selectPlan)[1..]
    {
      ready := true;
      if selectPlan != [] {
        ready := selectPlan[0];
        selectPlan := selectPlan[1..];
      }
    }

    /** `write(fd, buf + at, n)`. */
    method Write(buf: array<byte>, at: nat, n: nat) returns (r: int)
      requires n > 0 && at + n <= buf.Length
      modifies `wire, `writePlan
      ensures -1 <= r <= n
      ensures wire == old(wire) + if r > 0 then buf[at..at + r] else []
      ensures |writePlan| <= |old(writePlan)| && (r < n ==> |writePlan| < |old(writePlan)|)
      ensures if old(writePlan) == [] then writePlan == [] && r == n
              else writePlan == old(writePlan)[1..] && r == WriteCount(old(writePlan)[0], n)
      ensures old(Writable()) ==> Writable() && r > 0
    {
      if writePlan == [] {
        r := n;
        wire := wire + buf[at..at + n];
        return;
      }
      var o := writePlan[0];
      writePlan := writePlan[1..];
      match o
      case WriteError => r := -1;
      case Accept(k) =>
        r := Min(k, n);
        wire := wire + buf[at..at + r];
    }
  }

  /** One more write, of `n` bytes: it made progress, or it was the last. */
  lemma OneMoreWrite(plan: seq<WriteOutcome>, now: seq<WriteOutcome>, k: nat, n: nat, r: int, rest: seq<WriteOutcome>)
    requires Progressed(plan, now, k) && n > 0
    requires if now == [] then rest == [] && r == n else rest == now[1..] && r == WriteCount(now[0], n)
    ensures if r > 0 then Progressed(plan, rest, k + 1) else StoppedAt(plan, rest, k, r)
  {
    assert k < |plan| ==> now[0] == plan[k];
  }

  /** The first `k` bytes of a buffer, and `r` more. */
  lemma MoreOnWire(wire: seq<byte>, data: seq<byte>, k: nat, r: nat)
    requires k + r <= |data|
    ensures wire + data[..k] + data[k..k + r] == wire + data[..k + r]
  {
    assert data[..k] + data[k..k + r] == data[..k + r];
  }

  /**
   * `do_write`, and word for word `hci_write_cmd`: the result says exactly whether
   * the whole buffer is on the wire, under any sequence of short writes. The first
   * write that fails or accepts nothing is the last, and no other ends it early.
   */
  method DoWrite(port: Port, buf: array<byte>, len: int) returns (ret: int)
    requires len <= buf.Length
    modifies port`wire, port`writePlan
    ensures len > 0 ==> (ret == len <==> port.wire == old(port.wire) + buf[..len])
    ensures ret != len ==> exists k: nat | k <= buf.Length && (k < len || k == 0) ::
                             port.wire == old(port.wire) + buf[..k]
    ensures ret == len || ret == 0 || ret == -1
    ensures len <= 0 ==> ret == -1
    ensures |port.writePlan| <= |old(port.writePlan)|
    ensures len > 0 && ret != len ==> |port.writePlan| < |old(port.writePlan)|
    ensures old(port.Writable()) ==> port.Writable() && (len > 0 ==> ret == len)
    ensures len > 0 && ret != len ==> exists k: nat :: StoppedAt(old(port.writePlan), port.writePlan, k, ret)
    ensures len > 0 && ret == len ==> exists k: nat :: k > 0 && Progressed(old(port.writePlan), port.writePlan, k)
  {
    var writeOffset, writeLen := 1, len - 1;
    assert port.wire == old(port.wire) + buf[..0];
    if len <= 0 {
      return -1;
    }
    ghost var plan, now, k := port.writePlan, port.writePlan, 0;
    ret := port.Write(buf, 0, 1);
    OneMoreWrite(plan, now, k, 1, ret, port.writePlan);
    if ret < 0 {
      return -1;
    } else if ret == 0 {
      return 0;
    }
    k := 1;
    while writeLen > 0
      invariant 1 <= writeOffset && writeLen >= 0 && writeOffset + writeLen == len
      invariant port.wire == old(port.wire) + buf[..writeOffset]
      invariant |port.writePlan| <= |old(port.writePlan)|
      invariant old(port.Writable()) ==> port.Writable()
      invariant k > 0 && Progressed(plan, port.writePlan, k)
    {
      now := port.writePlan;
      ret := port.Write(buf, writeOffset, writeLen);
      OneMoreWrite(plan, now, k, writeLen, ret, port.writePlan);
      if ret < 0 {
        return -1;
      } else if ret == 0 {
        return 0;
      }
      k := k + 1;
      MoreOnWire(old(port.wire), buf[..], writeOffset, ret);
      writeLen := writeLen - ret;
      writeOffset := writeOffset + ret;
    }
    return len;
  }
}
