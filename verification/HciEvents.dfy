/**
 * Reading one HCI event from a serial stream: packet indicator 0x04 (Bluetooth
 * Core Specification, Vol 4 Part A section 2), event code, parameter length and
 * parameters (Vol 4 Part E section 5.4.4). Three readers with different retry
 * rules, and the frame that all of them must find.
 */
module HciEvents {
  import opened Bytes
  import opened SerialPort
  import opened ReadCourses

  const EVENT_INDICATOR: byte := 0x04
  const HCI_MAX_EVENT_SIZE := 260
  const TIMEOUT_TRYSUM := 20
  const MAX_READ_EVENT_CNT := 40

  /** The parameter bytes that a reader with a buffer of `size` asks for. */
  function Remain(length: byte, size: int): int {
    if length < size - 3 then length else size - 3
  }

  function FrameLength(length: byte, size: int): nat {
    3 + if Remain(length, size) > 0 then Remain(length, size) else 0
  }

  /** `s` is `junk` bytes without an indicator, then `frame`, then `rest`. */
  ghost predicate FramesAt(s: seq<byte>, junk: nat, frame: seq<byte>, rest: seq<byte>, size: int) {
    && junk <= |s| && s[junk..] == frame + rest && EVENT_INDICATOR !in s[..junk]
    && |frame| >= 3 && frame[0] == EVENT_INDICATOR && |frame| == FrameLength(frame[2], size)
  }

  ghost predicate Frames(s: seq<byte>, frame: seq<byte>, rest: seq<byte>, size: int) {
    exists junk: nat :: FramesAt(s, junk, frame, rest, size)
  }

  /** The stream alone determines the frame and where it ends, whatever the chunking of the reads. */
  lemma FrameIsUnique(s: seq<byte>, f: seq<byte>, r: seq<byte>, f': seq<byte>, r': seq<byte>, size: int)
    requires Frames(s, f, r, size) && Frames(s, f', r', size)
    ensures f == f' && r == r'
  {
    var j: nat :| FramesAt(s, j, f, r, size);
    var k: nat :| FramesAt(s, k, f', r', size);
    FrameStart(s, j, f, r, size);
    FrameStart(s, k, f', r', size);
  }

  lemma FrameStart(s: seq<byte>, j: nat, f: seq<byte>, r: seq<byte>, size: int)
    requires FramesAt(s, j, f, r, size)
    ensures j + 2 < |s| && s[j] == EVENT_INDICATOR && |f| == FrameLength(s[j + 2], size)
    ensures j + |f| <= |s| && f == s[j..j + |f|] && r == s[j + |f|..]
  {
    var t := s[j..];
    assert s[j] == t[0] && s[j + 2] == t[2];
    assert f == t[..|f|] == s[j..j + |f|] && r == t[|f|..];
  }

  /** The stream begins with everything a reader will ask for. */
  predicate StartsWithEvent(s: seq<byte>, size: int) {
    |s| >= 3 && s[0] == EVENT_INDICATOR && |s| >= FrameLength(s[2], size)
  }

  lemma EventAtFront(s: seq<byte>, frame: seq<byte>, rest: seq<byte>, size: int)
    requires StartsWithEvent(s, size) && Frames(s, frame, rest, size)
    ensures |frame| == FrameLength(s[2], size) && frame == s[..|frame|] && rest == s[|frame|..]
  {
    var n := FrameLength(s[2], size);
    assert s[0..] == s[..n] + s[n..];
    assert FramesAt(s, 0, s[..n], s[n..], size);
    FrameIsUnique(s, frame, rest, s[..n], s[n..], size);
  }

  /** Where the first indicator stands, or the length if there is none. */
  function FirstIndicator(s: seq<byte>): (j: nat)
    ensures j <= |s| && EVENT_INDICATOR !in s[..j]
    ensures j < |s| ==> s[j] == EVENT_INDICATOR
  {
    if s == [] || s[0] == EVENT_INDICATOR then 0 else 1 + FirstIndicator(s[1..])
  }

  /** After some bytes without an indicator, the stream holds everything a reader will ask for. */
  predicate HasEvent(s: seq<byte>, size: int) {
    StartsWithEvent(s[FirstIndicator(s)..], size)
  }

  /** How long the event is that `HasEvent` speaks of. */
  function EventLength(s: seq<byte>, size: int): nat
    requires HasEvent(s, size)
  {
    FrameLength(s[FirstIndicator(s)..][2], size)
  }

  // ----- one read of a wait -----

  /** The first `k` bytes of `before` went to `buf` behind `from`, and nothing else changed. */
  ghost predicate Took(before: seq<byte>, after: seq<byte>, buf: seq<byte>, buf': seq<byte>, from: nat, k: nat) {
    && k <= |before| && after == before[k..]
    && |buf'| == |buf| && from + k <= |buf|
    && forall i :: 0 <= i < |buf| ==> buf'[i] == if from <= i < from + k then before[i - from] else buf[i]
  }

  /** What went to `buf` from `from` to `at`, and then `j` bytes more. */
  lemma TookMore(s: seq<byte>, t: seq<byte>, u: seq<byte>, b: seq<byte>, c: seq<byte>, d: seq<byte>,
                 from: nat, at: nat, j: nat)
    requires from <= at && Took(s, t, b, c, from, at - from) && Took(t, u, c, d, at, j)
    ensures Took(s, u, b, d, from, at + j - from)
  {
    forall i | at <= i < at + j
      ensures d[i] == s[i - from]
    {
      assert t[i - at] == s[i - from];
    }
  }

  lemma TookNothing(t: seq<byte>, u: seq<byte>, c: seq<byte>, d: seq<byte>, at: nat)
    requires Took(t, u, c, d, at, 0)
    ensures u == t && d == c
  {
  }

  lemma TookPrefix(s: seq<byte>, u: seq<byte>, b: seq<byte>, d: seq<byte>, from: nat, k: nat)
    requires Took(s, u, b, d, from, k)
    ensures d[..from + k] == b[..from] + s[..k]
  {
  }

  /** A read that returned `r` brought the wait `c` to `now`; `again` says that a failed one is not the end. */
  predicate Went(c: Course, now: Course, r: int, again: bool) {
    if r > 0 then c == now.(brought := now.brought + 1)
    else if r == 0 || again then c == now.(empties := now.empties + 1)
    else !c.ok
  }

  /** What a read of `n` bytes returns, with at least `need` bytes in the stream, and what it does to the wait. */
  lemma WaitGoesOn(plan: seq<ReadOutcome>, n: nat, need: nat, single: bool, patient: bool, r: int)
    requires need > 0 && n == if single then 1 else need
    requires r == if plan == [] then n else if Brings(plan[0]) then Min(plan[0].count, n)
                  else if Fails(plan[0], false) then -1 else 0
    ensures var rest := if plan == [] then [] else plan[1..];
            Went(Gather(plan, need, single, patient), Gather(rest, if r > 0 then need - r else need, single, patient),
                 r, patient && plan != [] && plan[0].WouldBlock?)
  {
  }

  /** After so many reads the wait `c` has come to `now`. */
  predicate Waited(c: Course, now: Course, brought: int, empties: int) {
    c.ok == now.ok && c.rest == now.rest && c.brought == now.brought + brought && c.empties == now.empties + empties
  }

  predicate Counted(c: Course, now: Course, done: int) {
    c.ok == now.ok && c.rest == now.rest && c.brought + c.empties == now.brought + now.empties + done
  }

  predicate Emptied(c: Course, now: Course, empties: int) {
    c.ok == now.ok && c.rest == now.rest && c.empties == now.empties + empties
  }

  /** `read(fd, buf + at, n)`, as one read of a wait for `need` bytes. */
  method ReadPart(
    port: Port, buf: array<byte>, at: nat, n: nat, ghost need: nat, ghost single: bool, ghost patient: bool)
    returns (r: int)
    requires n > 0 && at + n <= buf.Length && need > 0 && n == if single then 1 else need
    modifies port`input, port`readPlan, port`readCalls, port`wouldBlock, buf
    ensures -1 <= r <= n && r == old(port.NextCount(n))
    ensures Took(old(port.input), port.input, old(buf[..]), buf[..], at, if r > 0 then r else 0)
    ensures port.readCalls == old(port.readCalls) + 1
    ensures port.readPlan == if old(port.readPlan) == [] then [] else old(port.readPlan)[1..]
    ensures |old(port.input)| >= need ==>
              Went(Gather(old(port.readPlan), need, single, patient),
                   Gather(port.readPlan, if r > 0 then need - r else need, single, patient),
                   r, patient && port.wouldBlock)
  {
    ghost var s, plan := port.input, port.readPlan;
    r := port.Read(buf, at, n);
    if r > 0 {
      assert forall i :: at <= i < at + r ==> buf[i] == buf[at..at + r][i - at];
    }
    if |s| >= need {
      WaitGoesOn(plan, n, need, single, patient, r);
    }
  }

  /** The buffer holds an indicator from before, and the first read, which returns `count`, finds nothing. */
  predicate StaleStart(first: byte, count: int) {
    first == EVENT_INDICATOR && count == 0
  }

  /** One read of the type phase, behind `junk` bytes without an indicator. */
  method ReadType(port: Port, buf: array<byte>, ghost s: seq<byte>, ghost junk: nat, ghost need: nat) returns (r: int)
    requires buf.Length > 0 && need > 0
    requires junk <= |s| && port.input == s[junk..] && EVENT_INDICATOR !in s[..junk]
    modifies port`input, port`readPlan, port`readCalls, port`wouldBlock, buf
    ensures -1 <= r <= 1 && r == old(port.NextCount(1)) && (r == 0 ==> buf[0] == old(buf[0]))
    ensures port.readCalls == old(port.readCalls) + 1
    ensures port.readPlan == if old(port.readPlan) == [] then [] else old(port.readPlan)[1..]
    ensures junk + need <= |s| ==>
              Went(Gather(old(port.readPlan), need, true, false),
                   Gather(port.readPlan, if r > 0 then need - r else need, true, false), r, false)
    ensures r >= 0 && buf[0] == EVENT_INDICATOR ==>
              s[junk..] == (if r == 1 then [EVENT_INDICATOR] else []) + port.input
    ensures r >= 0 && buf[0] != EVENT_INDICATOR ==>
              junk + r <= |s| && port.input == s[junk + r..] && EVENT_INDICATOR !in s[..junk + r]
    ensures r == 1 && buf[0] == EVENT_INDICATOR ==> junk < |s| && s[junk] == EVENT_INDICATOR
  {
    ghost var here := port.input;
    r := ReadPart(port, buf, 0, 1, need, true, false);
    if r == 1 {
      if buf[0] == EVENT_INDICATOR {
        FirstTaken(here, EVENT_INDICATOR);
      } else {
        JunkGrows(s, junk);
      }
    }
  }

  /**
   * The type phase of `read_hci_event`: read single bytes until `buf[0]` is the
   * indicator. It looks at `buf[0]` even after a read that delivered nothing, so a
   * stale indicator in the buffer passes for the packet type (`taken` is false then).
   * Otherwise it finds the first indicator exactly if the junk before it and the reads
   * that find nothing are at most 101 together.
   */
  method SkipToIndicator(port: Port, buf: array<byte>)
    returns (ok: bool, retryCnt: int, ghost junk: nat, ghost taken: bool)
    requires buf.Length > 0
    modifies port`input, port`readPlan, port`readCalls, port`wouldBlock, buf
    ensures 0 <= retryCnt <= 101
    ensures port.readCalls == old(port.readCalls) + retryCnt + 1
    ensures ok ==> buf[0] == EVENT_INDICATOR && junk <= |old(port.input)| && EVENT_INDICATOR !in old(port.input)[..junk]
                   && old(port.input)[junk..] == (if taken then [EVENT_INDICATOR] else []) + port.input
    ensures ok ==> taken == !StaleStart(old(buf[0]), old(port.NextCount(1)))
    ensures ok && !taken ==> junk == 0
    ensures StaleStart(old(buf[0]), old(port.NextCount(1))) ==>
              && ok && port.input == old(port.input) && retryCnt == 0
              && port.readPlan == if old(port.readPlan) == [] then [] else old(port.readPlan)[1..]
    ensures !StaleStart(old(buf[0]), old(port.NextCount(1))) && FirstIndicator(old(port.input)) < |old(port.input)| ==>
              var j := FirstIndicator(old(port.input));
              var c := TypeWait(old(port.readPlan), j, false);
              && (ok <==> c.ok && j + c.empties <= 101)
              && (ok ==> junk == j && retryCnt == j + c.empties && port.readPlan == c.rest)
  {
    ghost var s, j := port.input, FirstIndicator(port.input);
    ghost var c := TypeWait(port.readPlan, j, false);
    retryCnt, junk, taken := 0, 0, true;
    while true
      invariant 0 <= retryCnt <= 101 && port.readCalls == old(port.readCalls) + retryCnt
      invariant junk <= |s| && port.input == s[junk..] && EVENT_INDICATOR !in s[..junk]
      invariant retryCnt > 0 ==> buf[0] != EVENT_INDICATOR && !StaleStart(old(buf[0]), old(port.NextCount(1)))
      invariant retryCnt == 0 ==> junk == 0 && buf[0] == old(buf[0]) && port.readPlan == old(port.readPlan)
      invariant j < |s| ==>
                  junk <= j && Waited(c, Gather(port.readPlan, j + 1 - junk, true, false), junk, retryCnt - junk)
      decreases 102 - retryCnt
    {
      var r := ReadType(port, buf, s, junk, if j < |s| then j + 1 - junk else 1);
      if r < 0 {
        return false, retryCnt, junk, taken;
      }
      if buf[0] == EVENT_INDICATOR {
        return true, retryCnt, junk, r == 1;
      }
      junk := junk + r;
      if retryCnt > TIMEOUT_TRYSUM * 5 {
        return false, retryCnt, junk, taken;
      }
      retryCnt := retryCnt + 1;
    }
  }

  lemma FirstTaken(t: seq<byte>, first: byte)
    requires |t| >= 1 && first == t[0]
    ensures t == [first] + t[1..]
  {
  }

  /** One more byte of junk. */
  lemma JunkGrows(s: seq<byte>, junk: nat)
    requires junk < |s| && EVENT_INDICATOR !in s[..junk] && s[junk] != EVENT_INDICATOR
    ensures EVENT_INDICATOR !in s[..junk + 1] && s[junk..][1..] == s[junk + 1..]
  {
    assert s[..junk + 1] == s[..junk] + [s[junk]];
  }

  /**
   * The header and payload phases of `read_hci_event`, which go on counting. They
   * succeed exactly if all reads of the wait, empty ones included, keep the counter
   * within its limit.
   */
  method FillCounting(port: Port, buf: array<byte>, from: nat, to: nat, retries: int, limit: int)
    returns (ok: bool, retryCnt: int)
    requires from <= to <= buf.Length && 0 <= retries <= limit + 1
    modifies port`input, port`readPlan, port`readCalls, port`wouldBlock, buf
    ensures retries <= retryCnt <= limit + 1
    ensures port.readCalls <= old(port.readCalls) + (retryCnt - retries) + if ok then 0 else 1
    ensures ok ==> to - from <= |old(port.input)| && port.input == old(port.input)[to - from..]
                   && buf[..to] == old(buf[..from]) + old(port.input)[..to - from]
    ensures |old(port.input)| >= to - from ==>
              var c := Gather(old(port.readPlan), to - from, false, false);
              && (ok <==> c.ok && retries + c.brought + c.empties <= limit + 1)
              && (ok ==> retryCnt == retries + c.brought + c.empties && port.readPlan == c.rest)
  {
    ghost var s, b, c := port.input, buf[..], Gather(port.readPlan, to - from, false, false);
    var count := from;
    retryCnt := retries;
    while count < to
      invariant from <= count <= to && retries <= retryCnt <= limit + 1
      invariant port.readCalls == old(port.readCalls) + (retryCnt - retries)
      invariant Took(s, port.input, b, buf[..], from, count - from)
      invariant |s| >= to - from ==> Counted(c, Gather(port.readPlan, to - count, false, false), retryCnt - retries)
      decreases limit + 1 - retryCnt
    {
      ghost var mid, here := buf[..], port.input;
      var r := ReadPart(port, buf, count, to - count, to - count, false, false);
      if r < 0 {
        return false, retryCnt;
      }
      TookMore(s, here, port.input, b, mid, buf[..], from, count, r);
      count := count + r;
      if retryCnt > limit {
        return false, retryCnt;
      }
      retryCnt := retryCnt + 1;
    }
    TookPrefix(s, port.input, b, buf[..], from, to - from);
    return true, retryCnt;
  }

  /** What the phases of a reader add up to. */
  lemma FrameFound(s: seq<byte>, junk: nat, taken: bool, t: seq<byte>, frame: seq<byte>, rest: seq<byte>, size: int)
    requires junk <= |s| && EVENT_INDICATOR !in s[..junk]
    requires s[junk..] == (if taken then [EVENT_INDICATOR] else []) + t && (!taken ==> junk == 0)
    requires 3 <= |frame| <= |t| + 1 && frame == [EVENT_INDICATOR] + t[..|frame| - 1] && rest == t[|frame| - 1..]
    requires |frame| == FrameLength(frame[2], size)
    ensures if taken then FramesAt(s, junk, frame, rest, size)
            else FramesAt([EVENT_INDICATOR] + s, 0, frame, rest, size)
  {
    assert t == t[..|frame| - 1] + rest;
    assert [EVENT_INDICATOR] + t == frame + rest;
    assert ([EVENT_INDICATOR] + s)[0..] == [EVENT_INDICATOR] + s;
    assert !taken ==> s[0..] == t;
  }

  // ----- the reader with one retry counter -----

  /** Everything after the type byte has gone to `buf[1..n]`, and nothing else was consumed. */
  ghost predicate BodyRead(before: seq<byte>, after: seq<byte>, buf: seq<byte>, n: int, size: int) {
    && 3 <= n <= |buf| && n - 1 <= |before| && after == before[n - 1..]
    && buf[..n] == [EVENT_INDICATOR] + before[..n - 1] && n == FrameLength(buf[2], size)
  }

  lemma BodyDone(
    before: seq<byte>, mid: seq<byte>, after: seq<byte>, head: seq<byte>, buf: seq<byte>, n: int, size: int)
    requires |head| == 3 && 2 <= |before| && mid == before[2..] && head == [EVENT_INDICATOR] + before[..2]
    requires n == FrameLength(head[2], size) && n <= |buf| && n - 3 <= |mid| && after == mid[n - 3..]
    requires buf[..n] == head + mid[..n - 3]
    ensures BodyRead(before, after, buf, n, size)
  {
    assert buf[2] == buf[..n][2];
    assert before[..n - 1] == before[..2] + before[2..][..n - 3];
  }

  lemma BodyAhead(s: seq<byte>, junk: nat, taken: bool, t: seq<byte>, size: int)
    requires junk <= |s| && s[junk..] == (if taken then [EVENT_INDICATOR] else []) + t
    ensures taken ==> s[junk..] == [EVENT_INDICATOR] + t
    ensures junk == 0 && taken && StartsWithEvent(s, size) ==> StartsWithEvent([EVENT_INDICATOR] + t, size)
  {
    assert s[0..] == s;
  }

  /** From the body of a frame to the frame, for every reader. */
  lemma ReaderResult(
    s: seq<byte>, junk: nat, taken: bool, t: seq<byte>, after: seq<byte>, buf: seq<byte>, n: int, size: int)
    requires junk <= |s| && EVENT_INDICATOR !in s[..junk]
    requires s[junk..] == (if taken then [EVENT_INDICATOR] else []) + t && (!taken ==> junk == 0)
    requires BodyRead(t, after, buf, n, size)
    ensures if taken then Frames(s, buf[..n], after, size)
            else FramesAt([EVENT_INDICATOR] + s, 0, buf[..n], after, size)
    ensures taken && StartsWithEvent(s, size) ==>
              n == FrameLength(s[2], size) && buf[..n] == s[..n] && after == s[n..]
    ensures buf[0] == 0x04 && n == if size <= 3 then 3 else if buf[2] < size - 3 then 3 + buf[2] else size
  {
    assert buf[0] == buf[..n][0];
    FrameFound(s, junk, taken, t, buf[..n], after, size);
    if taken && StartsWithEvent(s, size) {
      EventAtFront(s, buf[..n], after, size);
    }
  }

  method ReadBodyCounting(port: Port, buf: array<byte>, size: int, retries: int) returns (n: int)
    requires buf.Length >= 3 && size <= buf.Length && buf[0] == EVENT_INDICATOR && 0 <= retries <= 101
    modifies port`input, port`readPlan, port`readCalls, port`wouldBlock, buf
    ensures n == -1 || BodyRead(old(port.input), port.input, buf[..], n, size)
    ensures port.readCalls <= old(port.readCalls) + 302 - retries
    ensures StartsWithEvent([EVENT_INDICATOR] + old(port.input), size) ==>
              var length := FrameLength(old(port.input)[1], size);
              && (n > 0 <==> BodyCountedInTime(old(port.readPlan), retries, length))
              && (n > 0 ==> port.readPlan == BodyWait(old(port.readPlan), length, false).rest)
  {
    ghost var t := port.input;
    var ok, retryCnt := FillCounting(port, buf, 1, 3, retries, TIMEOUT_TRYSUM * 10);
    if !ok {
      return -1;
    }
    ghost var head, mid := buf[..3], port.input;
    var remain := if buf[2] < size - 3 then buf[2] as int else size - 3;
    n := 3;
    if remain > 0 {
      n := 3 + remain;
      ok, retryCnt := FillCounting(port, buf, 3, n, retryCnt, TIMEOUT_TRYSUM * 15);
      if !ok {
        return -1;
      }
    } else {
      assert mid[0..] == mid && mid[..0] == [];
    }
    BodyDone(t, mid, port.input, head, buf[..], n, size);
  }

  /**
   * `read_hci_event`. A positive result is a frame of the stream and the bytes
   * consumed are exactly the junk before it and the frame itself, except exactly
   * when the buffer held an indicator from before and the first read found nothing:
   * then the stale byte stands in for the first byte of the frame. One retry counter
   * bounds all three phases, so at most 303 reads are made; an event that the stream
   * holds is found exactly if the reads, empty ones included, leave the counter within
   * its limits.
   */
  method ReadHciEvent(port: Port, buf: array<byte>, size: int) returns (n: int)
    requires buf.Length >= 3 && size <= buf.Length
    modifies port`input, port`readPlan, port`readCalls, port`wouldBlock, buf
    ensures n > 0 ==> buf[0] == 0x04 && n == if size <= 3 then 3 else if buf[2] < size - 3 then 3 + buf[2] else size
    ensures size <= 0 ==> n == -1 && port.input == old(port.input)
    ensures n == -1 || 3 <= n <= buf.Length
    ensures n > 0 ==>
              if StaleStart(old(buf[0]), old(port.NextCount(1))) then
                FramesAt([EVENT_INDICATOR] + old(port.input), 0, buf[..n], port.input, size)
              else Frames(old(port.input), buf[..n], port.input, size)
    ensures port.readCalls <= old(port.readCalls) + 303
    ensures size > 0 && StaleStart(old(buf[0]), old(port.NextCount(1)))
            && StartsWithEvent([EVENT_INDICATOR] + old(port.input), size) ==>
              var plan := if old(port.readPlan) == [] then [] else old(port.readPlan)[1..];
              (n > 0 <==> BodyCountedInTime(plan, 0, FrameLength(old(port.input)[1], size)))
    ensures size > 0 && !StaleStart(old(buf[0]), old(port.NextCount(1))) && HasEvent(old(port.input), size) ==>
              var j, length := FirstIndicator(old(port.input)), EventLength(old(port.input), size);
              && (n > 0 <==> CountedInTime(old(port.readPlan), j, length))
              && (n > 0 ==> port.readPlan == PlanAfter(old(port.readPlan), j, length, false))
  {
    if size <= 0 {
      return -1;
    }
    ghost var s := port.input;
    var ok, retryCnt, junk, taken := SkipToIndicator(port, buf);
    if !ok {
      return -1;
    }
    ghost var t := port.input;
    BodyAhead(s, junk, taken, t, size);
    n := ReadBodyCounting(port, buf, size, retryCnt);
    if n > 0 {
      ReaderResult(s, junk, taken, t, port.input, buf[..], n, size);
    }
  }

  /** An event at the front is behind no junk. */
  lemma FrontEvent(s: seq<byte>, size: int)
    requires StartsWithEvent(s, size)
    ensures FirstIndicator(s) == 0 && HasEvent(s, size) && EventLength(s, size) == FrameLength(s[2], size)
  {
    assert s[0..] == s;
  }

  /**
   * With no failing read, an event is in time in every chunking if junk and empty
   * reads are at most 101 together, and 302 with the event.
   */
  lemma FewEmptiesFind(plan: seq<ReadOutcome>, s: seq<byte>, size: int)
    requires HasEvent(s, size) && NoFailure(plan, false)
    requires FirstIndicator(s) + EmptyReads(plan) <= 101
    requires FirstIndicator(s) + EventLength(s, size) + EmptyReads(plan) <= 302
    ensures CountedInTime(plan, FirstIndicator(s), EventLength(s, size))
  {
    FewEmptiesCounted(plan, FirstIndicator(s), EventLength(s, size));
  }

  /** A frame that a stale indicator stands in for is no frame there: with what is left behind it, it is too long. */
  lemma StaleFrameIsNone(s: seq<byte>, frame: seq<byte>, rest: seq<byte>, size: int)
    requires FramesAt([EVENT_INDICATOR] + s, 0, frame, rest, size)
    ensures !Frames(s, frame, rest, size)
  {
    assert |frame| + |rest| == |([EVENT_INDICATOR] + s)[0..]| == |s| + 1;
    forall junk: nat | junk <= |s|
      ensures s[junk..] != frame + rest
    {
      assert |s[junk..]| < |frame + rest|;
    }
  }

  lemma NoFrameWithoutIndicator(s: seq<byte>, size: int)
    requires EVENT_INDICATOR !in s
    ensures !exists f, r :: Frames(s, f, r, size)
  {
    forall f, r | Frames(s, f, r, size)
      ensures false
    {
      var j: nat :| FramesAt(s, j, f, r, size);
      FrameStart(s, j, f, r, size);
    }
  }

  /**
   * Why the buffer must be clean: with a stale indicator in it and a first read that
   * finds nothing, three bytes without any indicator are returned as an event of
   * four, although the stream holds no frame at all.
   */
  method StaleIndicatorExample() returns (n: int, event: seq<byte>)
    ensures n == 4 && event == [0x04, 0x0e, 0x01, 0x00]
    ensures !exists f, r :: Frames([0x0e, 0x01, 0x00], f, r, HCI_MAX_EVENT_SIZE)
  {
    var s: seq<byte> := [0x0e, 0x01, 0x00];
    var port := new Port(s, [NoData], [], []);
    var buf := new byte[HCI_MAX_EVENT_SIZE](_ => EVENT_INDICATOR);
    n := ReadHciEvent(port, buf, HCI_MAX_EVENT_SIZE);
    event := buf[..n];
    var t := [EVENT_INDICATOR] + s;
    FrameStart(t, 0, event, port.input, HCI_MAX_EVENT_SIZE);
    assert |event| == FrameLength(t[2], HCI_MAX_EVENT_SIZE) == 4;
    NoFrameWithoutIndicator(s, HCI_MAX_EVENT_SIZE);
  }

  // ----- the polling reader -----

  /** One `select` and one read of a wait for `need` bytes. */
  method PollPart(port: Port, buf: array<byte>, at: nat, n: nat, ghost need: nat, ghost single: bool) returns (r: int)
    requires n > 0 && at + n <= buf.Length && need > 0 && n == if single then 1 else need
    modifies port`input, port`readPlan, port`readCalls, port`wouldBlock, port`selectPlan, buf
    ensures -1 <= r <= n && r != 0
    ensures r > 0 ==> Took(old(port.input), port.input, old(buf[..]), buf[..], at, r)
    ensures r > 0 ==> port.selectPlan == Later(old(port.selectPlan), 1) && Ready(old(port.selectPlan), 1)
    ensures |old(port.input)| >= need ==>
              var c := Gather(old(port.readPlan), need, single, false);
              && (r < 0 ==> !Polled(c, old(port.selectPlan)))
              && (r > 0 ==> Waited(c, Gather(port.readPlan, need - r, single, false), 1, 0))
  {
    ghost var c := Gather(port.readPlan, need, single, false);
    StillWaiting(port.readPlan, need, single);
    var ready := port.Select();
    if !ready {
      return -1;
    }
    r := ReadPart(port, buf, at, n, need, single, false);
    if r == 0 {
      r := -1;
    }
  }

  /** What `select` has announced so far, and the next time. */
  lemma OneMoreReady(selects: seq<bool>, k: nat)
    requires Ready(selects, k)
    ensures Ready(Later(selects, k), 1) ==> Ready(selects, k + 1)
    ensures Later(Later(selects, k), 1) == Later(selects, k + 1)
  {
    if k < |selects| {
      assert Later(selects, k)[0] == selects[k];
    }
  }

  /** A wait that has come to `now` after `k` reads cannot be over before that one is. */
  lemma PolledSoFar(c: Course, now: Course, selects: seq<bool>, k: nat)
    requires Waited(c, now, k, 0) && Ready(selects, k)
    ensures Polled(c, selects) <==> Polled(now, Later(selects, k))
  {
    if Polled(now, Later(selects, k)) {
      forall i | k <= i < c.brought && i < |selects|
        ensures selects[i]
      {
        assert Later(selects, k)[i - k] == selects[i];
      }
    }
  }

  method FillPolling(port: Port, buf: array<byte>, from: nat, to: nat) returns (ok: bool)
    requires from <= to <= buf.Length
    modifies port`input, port`readPlan, port`readCalls, port`wouldBlock, port`selectPlan, buf
    ensures ok ==> to - from <= |old(port.input)| && port.input == old(port.input)[to - from..]
                   && buf[..to] == old(buf[..from]) + old(port.input)[..to - from]
    ensures |old(port.input)| >= to - from ==>
              var c := Gather(old(port.readPlan), to - from, false, false);
              && (ok <==> Polled(c, old(port.selectPlan)))
              && (ok ==> port.readPlan == c.rest && port.selectPlan == Later(old(port.selectPlan), c.brought))
  {
    ghost var s, b, c, selects, k :=
      port.input, buf[..], Gather(port.readPlan, to - from, false, false), port.selectPlan, 0;
    var count := from;
    while count < to
      invariant from <= count <= to
      invariant Took(s, port.input, b, buf[..], from, count - from)
      invariant port.selectPlan == Later(selects, k) && Ready(selects, k)
      invariant |s| >= to - from ==> Waited(c, Gather(port.readPlan, to - count, false, false), k, 0)
    {
      ghost var mid, here := buf[..], port.input;
      if |s| >= to - from {
        PolledSoFar(c, Gather(port.readPlan, to - count, false, false), selects, k);
      }
      var r := PollPart(port, buf, count, to - count, to - count, false);
      if r < 0 {
        return false;
      }
      OneMoreReady(selects, k);
      TookMore(s, here, port.input, b, mid, buf[..], from, count, r);
      count, k := count + r, k + 1;
    }
    TookPrefix(s, port.input, b, buf[..], from, to - from);
    return true;
  }

  method ReadBodyPolling(port: Port, buf: array<byte>, size: int) returns (n: int)
    requires buf.Length >= 3 && size <= buf.Length && buf[0] == EVENT_INDICATOR
    modifies port`input, port`readPlan, port`readCalls, port`wouldBlock, port`selectPlan, buf
    ensures n == -1 || BodyRead(old(port.input), port.input, buf[..], n, size)
    ensures StartsWithEvent([EVENT_INDICATOR] + old(port.input), size) ==>
              (n > 0 <==>
                 BodyPolled(old(port.readPlan), old(port.selectPlan), FrameLength(old(port.input)[1], size)))
  {
    ghost var t := port.input;
    var ok := FillPolling(port, buf, 1, 3);
    if !ok {
      return -1;
    }
    ghost var head, mid := buf[..3], port.input;
    var remain := if buf[2] < size - 3 then buf[2] as int else size - 3;
    n := 3;
    if remain > 0 {
      n := 3 + remain;
      ok := FillPolling(port, buf, 3, n);
      if !ok {
        return -1;
      }
    } else {
      assert mid[0..] == mid && mid[..0] == [];
    }
    BodyDone(t, mid, port.input, head, buf[..], n, size);
  }

  /** The type phase of the polling reader: it ends at the first byte that is an indicator. */
  method SkipPolling(port: Port, buf: array<byte>) returns (ok: bool, ghost junk: nat)
    requires buf.Length > 0
    modifies port`input, port`readPlan, port`readCalls, port`wouldBlock, port`selectPlan, buf
    ensures ok ==> buf[0] == EVENT_INDICATOR && junk <= |old(port.input)| && EVENT_INDICATOR !in old(port.input)[..junk]
                   && old(port.input)[junk..] == [EVENT_INDICATOR] + port.input
    ensures FirstIndicator(old(port.input)) < |old(port.input)| ==>
              var j := FirstIndicator(old(port.input));
              var c := TypeWait(old(port.readPlan), j, false);
              && (ok <==> Polled(c, old(port.selectPlan)))
              && (ok ==> junk == j && port.readPlan == c.rest
                         && port.selectPlan == Later(old(port.selectPlan), c.brought))
  {
    ghost var s, j, selects := port.input, FirstIndicator(port.input), port.selectPlan;
    ghost var c := TypeWait(port.readPlan, j, false);
    junk := 0;
    while true
      invariant junk <= |s| && port.input == s[junk..] && EVENT_INDICATOR !in s[..junk]
      invariant port.selectPlan == Later(selects, junk) && Ready(selects, junk)
      invariant j < |s| ==> junk <= j && Waited(c, Gather(port.readPlan, j + 1 - junk, true, false), junk, 0)
      decreases |port.input|
    {
      ghost var here := port.input;
      if j < |s| {
        PolledSoFar(c, Gather(port.readPlan, j + 1 - junk, true, false), selects, junk);
      }
      var r := PollPart(port, buf, 0, 1, if j < |s| then j + 1 - junk else 1, true);
      if r < 0 {
        return false, junk;
      }
      OneMoreReady(selects, junk);
      if buf[0] == EVENT_INDICATOR {
        FirstTaken(here, EVENT_INDICATOR);
        return true, junk;
      }
      JunkGrows(s, junk);
      junk := junk + 1;
    }
  }

  /** What follows the type byte, found behind `junk` bytes of the stream `s`. */
  method FinishPolling(port: Port, buf: array<byte>, size: int, ghost s: seq<byte>, ghost junk: nat) returns (n: int)
    requires buf.Length >= 3 && size <= buf.Length && buf[0] == EVENT_INDICATOR
    requires junk <= |s| && EVENT_INDICATOR !in s[..junk] && s[junk..] == [EVENT_INDICATOR] + port.input
    modifies port`input, port`readPlan, port`readCalls, port`wouldBlock, port`selectPlan, buf
    ensures n == -1 || 3 <= n <= buf.Length
    ensures n > 0 ==> Frames(s, buf[..n], port.input, size)
    ensures n > 0 ==> buf[0] == 0x04 && n == if size <= 3 then 3 else if buf[2] < size - 3 then 3 + buf[2] else size
    ensures n > 0 && StartsWithEvent(s, size) ==>
              n == FrameLength(s[2], size) && buf[..n] == s[..n] && port.input == s[n..]
    ensures StartsWithEvent(s[junk..], size) ==>
              (n > 0 <==> BodyPolled(old(port.readPlan), old(port.selectPlan), FrameLength(s[junk..][2], size)))
  {
    ghost var t := port.input;
    n := ReadBodyPolling(port, buf, size);
    if n > 0 {
      ReaderResult(s, junk, true, t, port.input, buf[..], n, size);
    }
  }

  /**
   * `read_hci_event_poll`: every wait and every read must succeed; a positive result
   * is a frame. There is no limit on the junk before it, but a `select` or a read that
   * finds nothing ends it: an event that the stream holds is found exactly if there is
   * none on the way.
   */
  method ReadHciEventPoll(port: Port, buf: array<byte>, size: int) returns (n: int)
    requires buf.Length >= 3 && size <= buf.Length
    modifies port`input, port`readPlan, port`readCalls, port`wouldBlock, port`selectPlan, buf
    ensures n == -1 || 3 <= n <= buf.Length
    ensures n > 0 ==> Frames(old(port.input), buf[..n], port.input, size)
    ensures n > 0 ==> buf[0] == 0x04 && n == if size <= 3 then 3 else if buf[2] < size - 3 then 3 + buf[2] else size
    ensures size > 0 && HasEvent(old(port.input), size) ==>
              (n > 0 <==> PolledInTime(old(port.readPlan), old(port.selectPlan),
                                       FirstIndicator(old(port.input)), EventLength(old(port.input), size)))
    ensures n > 0 && StartsWithEvent(old(port.input), size) ==>
              n == FrameLength(old(port.input)[2], size)
              && buf[..n] == old(port.input)[..n] && port.input == old(port.input)[n..]
  {
    if size <= 0 {
      return -1;
    }
    ghost var s := port.input;
    if StartsWithEvent(s, size) {
      FrontEvent(s, size);
    }
    var ok, junk := SkipPolling(port, buf);
    if !ok {
      return -1;
    }
    n := FinishPolling(port, buf, size, s, junk);
  }

  // ----- the non-blocking reader -----

  /**
   * Header and payload phases of `hci_read_event`, each with its own count of empty
   * reads; they succeed exactly if there are fewer than ten.
   */
  method FillPatient(port: Port, buf: array<byte>, from: nat, to: nat) returns (ok: bool, ghost k: nat)
    requires from <= to <= buf.Length
    modifies port`input, port`readPlan, port`readCalls, port`wouldBlock, buf
    ensures Took(old(port.input), port.input, old(buf[..]), buf[..], from, k)
    ensures k <= to - from && (ok ==> k == to - from) && port.readCalls >= old(port.readCalls)
    ensures |old(port.input)| >= to - from ==>
              var c := Gather(old(port.readPlan), to - from, false, true);
              (ok <==> c.ok && c.empties < 10) && (ok ==> port.readPlan == c.rest)
  {
    ghost var s, b, c := port.input, buf[..], Gather(port.readPlan, to - from, false, true);
    var count, retryCnt := from, 0;
    while count < to
      invariant from <= count <= to && 0 <= retryCnt < MAX_READ_EVENT_CNT / 4
      invariant port.readCalls >= old(port.readCalls)
      invariant Took(s, port.input, b, buf[..], from, count - from)
      invariant |s| >= to - from ==> Emptied(c, Gather(port.readPlan, to - count, false, true), retryCnt)
      decreases (to - count), MAX_READ_EVENT_CNT / 4 - retryCnt
    {
      ghost var mid, here := buf[..], port.input;
      var r := ReadPart(port, buf, count, to - count, to - count, false, true);
      if r <= 0 {
        TookNothing(here, port.input, mid, buf[..], count);
        if r < 0 && !port.wouldBlock {
          return false, count - from;
        } else {
          retryCnt := retryCnt + 1;
          if retryCnt >= MAX_READ_EVENT_CNT / 4 {
            return false, count - from;
          }
          continue;
        }
      }
      TookMore(s, here, port.input, b, mid, buf[..], from, count, r);
      count := count + r;
    }
    return true, count - from;
  }

  /** The type phase of `hci_read_event`: it gives up, with nothing consumed, after ten reads that find nothing. */
  method AwaitType(port: Port, buf: array<byte>) returns (r: int)
    requires buf.Length > 0
    modifies port`input, port`readPlan, port`readCalls, port`wouldBlock, buf
    ensures -1 <= r <= 1 && port.readCalls > old(port.readCalls)
    ensures Took(old(port.input), port.input, old(buf[..]), buf[..], 0, if r > 0 then r else 0)
    ensures old(port.input) != [] ==>
              var c := TypeWait(old(port.readPlan), 0, true);
              && (r > 0 <==> c.ok && c.empties < 10) && (r > 0 ==> port.readPlan == c.rest)
              && (r == 0 ==> Emptied(c, TypeWait(port.readPlan, 0, true), 10))
              && (c.ok && c.empties >= 10 ==> r == 0)
  {
    ghost var s, b, c := port.input, buf[..], TypeWait(port.readPlan, 0, true);
    var retryCnt := 0;
    while retryCnt < MAX_READ_EVENT_CNT / 4
      invariant 0 <= retryCnt <= MAX_READ_EVENT_CNT / 4
      invariant port.input == s && buf[..] == b && port.readCalls == old(port.readCalls) + retryCnt
      invariant s != [] ==> Emptied(c, TypeWait(port.readPlan, 0, true), retryCnt)
    {
      r := ReadPart(port, buf, 0, 1, 1, true, true);
      if r <= 0 {
        assert buf[..] == b;
        if r < 0 && !port.wouldBlock {
          return -1;
        }
        retryCnt := retryCnt + 1;
      } else {
        return 1;
      }
    }
    return 0;
  }

  /** The stream holds an event at its front that arrives in time for `hci_read_event`. */
  predicate ComesInTime(plan: seq<ReadOutcome>, s: seq<byte>, size: int) {
    StartsWithEvent(s, size) && PatientInTime(plan, FrameLength(s[2], size), 10)
  }

  /**
   * `hci_read_event`. Zero means that nothing was consumed; in every other case the
   * bytes consumed are the ones in front of the buffer, a complete frame if the
   * result is positive. Anything but an indicator as first byte is an error. An event
   * at the front is found exactly if fewer than ten reads find nothing in each phase;
   * ten or more before it give zero.
   */
  method HciReadEvent(port: Port, buf: array<byte>, size: int) returns (n: int, ghost k: nat)
    requires buf.Length >= 3 && size <= buf.Length
    modifies port`input, port`readPlan, port`readCalls, port`wouldBlock, buf
    ensures n > 0 ==> buf[0] == 0x04 && n == if size <= 3 then 3 else if buf[2] < size - 3 then 3 + buf[2] else size
    ensures -1 <= n <= buf.Length
    ensures Took(old(port.input), port.input, old(buf[..]), buf[..], 0, k)
    ensures (n == 0 ==> k == 0) && (n > 0 ==> k == n)
    ensures size > 0 ==> port.readCalls > old(port.readCalls)
    ensures n > 0 ==> FramesAt(old(port.input), 0, buf[..n], port.input, size)
    ensures size > 0 && StartsWithEvent(old(port.input), size) ==>
              var length := FrameLength(old(port.input)[2], size);
              && (n > 0 <==> PatientInTime(old(port.readPlan), length, 10))
              && (n > 0 ==> n == length && buf[..n] == old(port.input)[..n] && port.input == old(port.input)[n..]
                            && port.readPlan == PlanAfter(old(port.readPlan), 0, length, true))
    ensures size > 0 && old(port.input) != [] ==>
              var c := TypeWait(old(port.readPlan), 0, true);
              && (n == 0 ==> Emptied(c, TypeWait(port.readPlan, 0, true), 10))
              && (c.ok && c.empties >= 10 ==> n == 0)
  {
    if size <= 0 {
      return -1, 0;
    }
    ghost var s, b := port.input, buf[..];
    var r := AwaitType(port, buf);
    if r < 0 {
      return -1, 0;
    } else if r == 0 {
      return 0, 0;
    }
    if buf[0] != EVENT_INDICATOR {
      return -1, 1;
    }
    n, k := ReadBodyPatient(port, buf, size, s, b);
  }

  /** What follows the type byte; `s` and `b` are stream and buffer before it. */
  method ReadBodyPatient(port: Port, buf: array<byte>, size: int, ghost s: seq<byte>, ghost b: seq<byte>)
    returns (n: int, ghost k: nat)
    requires buf.Length >= 3 && size <= buf.Length && buf[0] == EVENT_INDICATOR
    requires s != [] && s[0] == EVENT_INDICATOR && Took(s, port.input, b, buf[..], 0, 1)
    modifies port`input, port`readPlan, port`readCalls, port`wouldBlock, buf
    ensures n == -1 || 3 <= n <= buf.Length
    ensures Took(s, port.input, b, buf[..], 0, k) && k > 0 && (n > 0 ==> k == n)
    ensures port.readCalls >= old(port.readCalls)
    ensures n > 0 ==> buf[0] == 0x04 && n == if size <= 3 then 3 else if buf[2] < size - 3 then 3 + buf[2] else size
    ensures n > 0 ==> FramesAt(s, 0, buf[..n], port.input, size)
    ensures StartsWithEvent(s, size) ==>
              var length := FrameLength(s[2], size);
              && (n > 0 <==> BodyInTime(old(port.readPlan), length))
              && (n > 0 ==> n == length && buf[..n] == s[..n] && port.input == s[n..]
                            && port.readPlan == BodyWait(old(port.readPlan), length, true).rest)
  {
    ghost var t, c := port.input, buf[..];
    var ok, j := FillPatient(port, buf, 1, 3);
    TookMore(s, t, port.input, b, c, buf[..], 0, 1, j);
    if !ok {
      return -1, 1 + j;
    }
    n, k := ReadParameters(port, buf, size, s, b);
  }

  /** What follows the header. */
  method ReadParameters(port: Port, buf: array<byte>, size: int, ghost s: seq<byte>, ghost b: seq<byte>)
    returns (n: int, ghost k: nat)
    requires buf.Length >= 3 && size <= buf.Length
    requires s != [] && s[0] == EVENT_INDICATOR && Took(s, port.input, b, buf[..], 0, 3)
    modifies port`input, port`readPlan, port`readCalls, port`wouldBlock, buf
    ensures n == -1 || 3 <= n <= buf.Length
    ensures Took(s, port.input, b, buf[..], 0, k) && k > 0 && (n > 0 ==> k == n)
    ensures port.readCalls >= old(port.readCalls)
    ensures n > 0 ==> buf[0] == 0x04 && n == if size <= 3 then 3 else if buf[2] < size - 3 then 3 + buf[2] else size
    ensures n > 0 ==> FramesAt(s, 0, buf[..n], port.input, size)
    ensures StartsWithEvent(s, size) ==>
              var length := FrameLength(s[2], size);
              var body := Gather(old(port.readPlan), length - 3, false, true);
              && (n > 0 <==> body.ok && body.empties < 10)
              && (n > 0 ==> n == length && buf[..n] == s[..n] && port.input == s[n..] && port.readPlan == body.rest)
  {
    ghost var mid, d := port.input, buf[..];
    assert buf[2] == s[2];
    var remain := if buf[2] < size - 3 then buf[2] as int else size - 3;
    n := 3;
    if remain > 0 {
      n := 3 + remain;
      ghost var j;
      var ok;
      ok, j := FillPatient(port, buf, 3, n);
      TookMore(s, mid, port.input, b, d, buf[..], 0, 3, j);
      if !ok {
        return -1, 3 + j;
      }
    }
    k := n;
    TookFrame(s, port.input, b, buf[..], n, size);
    if StartsWithEvent(s, size) {
      EventAtFront(s, buf[..n], port.input, size);
    }
  }

  lemma TookFrame(s: seq<byte>, u: seq<byte>, b: seq<byte>, d: seq<byte>, n: int, size: int)
    requires 3 <= n <= |d| && Took(s, u, b, d, 0, n)
    requires s[0] == EVENT_INDICATOR && n == FrameLength(d[2], size)
    ensures FramesAt(s, 0, d[..n], u, size)
    ensures d[0] == 0x04 && n == if size <= 3 then 3 else if d[2] < size - 3 then 3 + d[2] else size
  {
    assert d[..n] == s[..n];
    assert s[0..] == s[..n] + s[n..];
  }
}
