/** Streams of events, and request and response over them. */
module HciExchange {
  import opened Bytes
  import opened SerialPort
  import opened ReadCourses
  import opened HciEvents

  // ----- streams of events -----

  /** A complete event packet. */
  predicate IsEvent(e: seq<byte>) {
    |e| >= 3 && e[0] == EVENT_INDICATOR && |e| == 3 + e[2] as nat
  }

  predicate AllEvents(events: seq<seq<byte>>) {
    forall i :: 0 <= i < |events| ==> IsEvent(events[i])
  }

  /** Command Complete, or the vendor's event 0x19. */
  predicate Answers(e: seq<byte>)
    requires |e| >= 2
  {
    e[1] == 0x0e || e[1] == 0x19
  }

  /** The index of the first answer, or the number of events if there is none. */
  function FirstAnswer(events: seq<seq<byte>>): (k: nat)
    requires AllEvents(events)
    ensures k <= |events| && (k < |events| ==> events[k][1] == 0x0e || events[k][1] == 0x19)
    ensures forall i :: 0 <= i < k ==> events[i][1] != 0x0e && events[i][1] != 0x19
  {
    if events == [] || Answers(events[0]) then 0 else 1 + FirstAnswer(events[1..])
  }

  lemma EventThenRest(e: seq<byte>, rest: seq<byte>)
    requires IsEvent(e)
    ensures var s := e + rest;
            && StartsWithEvent(s, HCI_MAX_EVENT_SIZE) && FrameLength(s[2], HCI_MAX_EVENT_SIZE) == |e|
            && s[..|e|] == e && s[|e|..] == rest
  {
  }

  lemma EventUpFront(events: seq<seq<byte>>, j: nat, rest: seq<byte>)
    requires AllEvents(events) && j < |events|
    ensures var s := Flatten(events[j..]) + rest; var e := events[j];
            && StartsWithEvent(s, HCI_MAX_EVENT_SIZE)
            && FrameLength(s[2], HCI_MAX_EVENT_SIZE) == |e| && s[..|e|] == e
            && s[|e|..] == Flatten(events[j + 1..]) + rest
  {
    var e := events[j];
    assert events[j..][0] == e && events[j..][1..] == events[j + 1..];
    assert Flatten(events[j..]) + rest == e + (Flatten(events[j + 1..]) + rest);
    EventThenRest(e, Flatten(events[j + 1..]) + rest);
  }

  method ReadCounting(port: Port, buf: array<byte>, e: seq<byte>, rest: seq<byte>) returns (n: int)
    requires buf.Length == HCI_MAX_EVENT_SIZE && IsEvent(e) && port.input == e + rest
    requires buf[0] != EVENT_INDICATOR && CountedInTime(port.readPlan, 0, |e|)
    modifies port, buf
    ensures n == |e| && buf[..n] == e && port.input == rest
  {
    EventThenRest(e, rest);
    FrontEvent(e + rest, HCI_MAX_EVENT_SIZE);
    n := ReadHciEvent(port, buf, HCI_MAX_EVENT_SIZE);
    EventAtFront(e + rest, buf[..n], port.input, HCI_MAX_EVENT_SIZE);
  }

  method ReadPolling(port: Port, buf: array<byte>, e: seq<byte>, rest: seq<byte>) returns (n: int)
    requires buf.Length == HCI_MAX_EVENT_SIZE && IsEvent(e) && port.input == e + rest
    requires PolledInTime(port.readPlan, port.selectPlan, 0, |e|)
    modifies port, buf
    ensures n == |e| && buf[..n] == e && port.input == rest
  {
    EventThenRest(e, rest);
    FrontEvent(e + rest, HCI_MAX_EVENT_SIZE);
    n := ReadHciEventPoll(port, buf, HCI_MAX_EVENT_SIZE);
  }

  method ReadPatient(port: Port, buf: array<byte>, e: seq<byte>, rest: seq<byte>) returns (n: int)
    requires buf.Length == HCI_MAX_EVENT_SIZE && IsEvent(e) && port.input == e + rest
    requires PatientInTime(port.readPlan, |e|, 10)
    modifies port, buf
    ensures n == |e| && buf[..n] == e && port.input == rest
  {
    EventThenRest(e, rest);
    ghost var k;
    n, k := HciReadEvent(port, buf, HCI_MAX_EVENT_SIZE);
  }

  /**
   * Whatever the chunking of their reads, and as long as each is in time for the event
   * by its own rules, the three readers return the same event and consume the same
   * bytes.
   */
  method ReadersAgree(
    a: Port, b: Port, c: Port, bufA: array<byte>, bufB: array<byte>, bufC: array<byte>, e: seq<byte>, rest: seq<byte>)
    returns (m: int, n: int, o: int)
    requires a != b && b != c && a != c && bufA != bufB && bufB != bufC && bufA != bufC
    requires bufA.Length == bufB.Length == bufC.Length == HCI_MAX_EVENT_SIZE
    requires IsEvent(e) && a.input == b.input == c.input == e + rest
    requires bufA[0] != EVENT_INDICATOR && CountedInTime(a.readPlan, 0, |e|)
    requires PolledInTime(b.readPlan, b.selectPlan, 0, |e|) && PatientInTime(c.readPlan, |e|, 10)
    modifies a, b, c, bufA, bufB, bufC
    ensures m == n == o == |e|
    ensures bufA[..m] == bufB[..n] == bufC[..o] == e
    ensures a.input == b.input == c.input == rest
  {
    m := ReadCounting(a, bufA, e, rest);
    n := ReadPolling(b, bufB, e, rest);
    o := ReadPatient(c, bufC, e, rest);
  }

  /** `memset(buf, 0, size)`. */
  method Clear(buf: array<byte>)
    modifies buf
    ensures forall i :: 0 <= i < buf.Length ==> buf[i] == 0
  {
    for i := 0 to buf.Length
      invariant forall j :: 0 <= j < i ==> buf[j] == 0
    {
      buf[i] := 0;
    }
  }

  // ----- request and response -----

  /** The event an exchange ends with: the first answer, or the fortieth event if no answer comes before. */
  function LastRead(events: seq<seq<byte>>): nat
    requires AllEvents(events)
  {
    Min(FirstAnswer(events), MAX_READ_EVENT_CNT - 1)
  }

  /** The plan of the reads once the first `i` events have been read. */
  function PlanAt(plan: seq<ReadOutcome>, events: seq<seq<byte>>, i: nat, patient: bool): seq<ReadOutcome>
    requires AllEvents(events) && i <= |events|
  {
    if i == 0 then plan else PlanAfter(PlanAt(plan, events, i - 1, patient), 0, |events[i - 1]|, patient)
  }

  /** When its turn comes, event `i` arrives before the retry counter runs out. */
  predicate TimelyAt(plan: seq<ReadOutcome>, events: seq<seq<byte>>, i: nat)
    requires AllEvents(events) && i < |events|
  {
    CountedInTime(PlanAt(plan, events, i, false), 0, |events[i]|)
  }

  ghost predicate Timely(plan: seq<ReadOutcome>, events: seq<seq<byte>>, n: nat)
    requires AllEvents(events) && n <= |events|
  {
    forall i :: 0 <= i < n ==> TimelyAt(plan, events, i)
  }

  /** The same by the rules of `hci_read_event`, with `limit` empty reads before the event being too many. */
  predicate ReplyTimelyAt(plan: seq<ReadOutcome>, events: seq<seq<byte>>, i: nat, limit: nat)
    requires AllEvents(events) && i < |events|
  {
    PatientInTime(PlanAt(plan, events, i, true), |events[i]|, limit)
  }

  ghost predicate RepliesTimely(plan: seq<ReadOutcome>, events: seq<seq<byte>>, n: nat, limit: nat)
    requires AllEvents(events) && n <= |events|
  {
    forall i :: 0 <= i < n ==> ReplyTimelyAt(plan, events, i, limit)
  }

  lemma {:induction false} PlanAtTail(plan: seq<ReadOutcome>, events: seq<seq<byte>>, m: nat, i: nat, patient: bool)
    requires AllEvents(events) && m + i <= |events|
    ensures AllEvents(events[m..])
    ensures PlanAt(plan, events, m + i, patient) == PlanAt(PlanAt(plan, events, m, patient), events[m..], i, patient)
    decreases i
  {
    if i > 0 {
      PlanAtTail(plan, events, m, i - 1, patient);
    }
  }

  lemma RepliesTimelyTail(plan: seq<ReadOutcome>, events: seq<seq<byte>>, m: nat, n: nat, limit: nat)
    requires AllEvents(events) && m + n <= |events| && RepliesTimely(plan, events, m + n, limit)
    ensures AllEvents(events[m..]) && RepliesTimely(PlanAt(plan, events, m, true), events[m..], n, limit)
  {
    forall i | 0 <= i < n
      ensures ReplyTimelyAt(PlanAt(plan, events, m, true), events[m..], i, limit)
    {
      PlanAtTail(plan, events, m, i, true);
      assert ReplyTimelyAt(plan, events, m + i, limit);
    }
  }

  /** No failing read and fewer than ten that find nothing: every reply is in time. */
  lemma {:induction false} FewEmptiesReply(plan: seq<ReadOutcome>, events: seq<seq<byte>>, n: nat)
    requires AllEvents(events) && n <= |events| && NoFailure(plan, true) && EmptyReads(plan) < 10
    ensures RepliesTimely(plan, events, n, 200)
    ensures NoFailure(PlanAt(plan, events, n, true), true)
    ensures EmptyReads(PlanAt(plan, events, n, true)) <= EmptyReads(plan)
  {
    if n > 0 {
      FewEmptiesReply(plan, events, n - 1);
      FewEmptiesPatient(PlanAt(plan, events, n - 1, true), |events[n - 1]|, 200);
    }
  }

  /**
   * `k` reads that find nothing before the first reply, and fewer than ten behind them:
   * below 200 in all, every reply is in time.
   */
  lemma LateReplies(k: nat, o: ReadOutcome, plan: seq<ReadOutcome>, events: seq<seq<byte>>, n: nat)
    requires o == WouldBlock || o == Deliver(0)
    requires AllEvents(events) && n <= |events| && plan != [] && NoFailure(plan, true)
    requires EmptyReads(plan) < 10 && k + EmptyReads(plan) < 200
    ensures RepliesTimely(seq(k, i requires 0 <= i < k => o) + plan, events, n, 200)
  {
    var late := seq(k, i requires 0 <= i < k => o) + plan;
    FewEmptiesReply(plan, events, n);
    EmptiesFirst(k, o, plan, 1, true, true);
    GatherPlanned(plan, 1, true, true);
    forall i | 0 <= i < n
      ensures ReplyTimelyAt(late, events, i, 200)
    {
      LatePlan(k, o, plan, events, i);
      assert ReplyTimelyAt(plan, events, i, 200);
    }
  }

  /** Once the first event is read, nothing is left of the reads before it. */
  lemma {:induction false} LatePlan(k: nat, o: ReadOutcome, plan: seq<ReadOutcome>, events: seq<seq<byte>>, n: nat)
    requires o == WouldBlock || o == Deliver(0)
    requires AllEvents(events) && n <= |events| && plan != []
    ensures n > 0 ==>
              PlanAt(seq(k, i requires 0 <= i < k => o) + plan, events, n, true) == PlanAt(plan, events, n, true)
  {
    if n > 1 {
      LatePlan(k, o, plan, events, n - 1);
    } else {
      EmptiesFirst(k, o, plan, 1, true, true);
    }
  }

  /** No failing read and at most 44 that find nothing: then every event of an exchange is in time. */
  lemma {:induction false} FewEmptiesTimely(plan: seq<ReadOutcome>, events: seq<seq<byte>>, n: nat)
    requires AllEvents(events) && n <= |events| && NoFailure(plan, false) && EmptyReads(plan) <= 44
    ensures Timely(plan, events, n)
    ensures NoFailure(PlanAt(plan, events, n, false), false)
    ensures EmptyReads(PlanAt(plan, events, n, false)) <= EmptyReads(plan)
  {
    if n > 0 {
      FewEmptiesTimely(plan, events, n - 1);
      assert |events[n - 1]| <= 258;
      FewEmptiesCounted(PlanAt(plan, events, n - 1, false), 0, |events[n - 1]|);
    }
  }

  /** Clears the buffer and reads one event; on a clean stream of events it is event number `j`. */
  method ReadNext(port: Port, rsp: array<byte>, ghost events: seq<seq<byte>>, ghost rest: seq<byte>, ghost j: nat)
    returns (err: int)
    requires rsp.Length == HCI_MAX_EVENT_SIZE && AllEvents(events)
    modifies port`input, port`readPlan, port`readCalls, port`wouldBlock, rsp
    ensures err == -1 || 3 <= err <= rsp.Length
    ensures port.readCalls <= old(port.readCalls) + 303
    ensures j < |events| && old(port.input) == Flatten(events[j..]) + rest ==>
              && (err > 0 <==> CountedInTime(old(port.readPlan), 0, |events[j]|))
              && (err > 0 ==>
                    && err == |events[j]| && rsp[..err] == events[j]
                    && rsp[0] == events[j][0] && rsp[1] == events[j][1]
                    && port.input == Flatten(events[j + 1..]) + rest
                    && port.readPlan == PlanAfter(old(port.readPlan), 0, |events[j]|, false))
  {
    Clear(rsp);
    ghost var s := port.input;
    ghost var clean := j < |events| && s == Flatten(events[j..]) + rest;
    if clean {
      EventUpFront(events, j, rest);
      FrontEvent(s, HCI_MAX_EVENT_SIZE);
    }
    err := ReadHciEvent(port, rsp, HCI_MAX_EVENT_SIZE);
    if err > 0 {
      assert rsp[..err][0] == rsp[0] && rsp[..err][1] == rsp[1];
      if clean {
        EventAtFront(s, rsp[..err], port.input, HCI_MAX_EVENT_SIZE);
      }
    }
  }

  /** As long as the exchange goes on, it has not come to its last event. */
  lemma BelowLastRead(events: seq<seq<byte>>, retryCnt: nat)
    requires AllEvents(events) && retryCnt < MAX_READ_EVENT_CNT
    requires retryCnt == 0 || retryCnt - 1 < FirstAnswer(events)
    ensures retryCnt <= LastRead(events)
  {
  }

  /** The loop of `aml_hci_send_cmd`, after the command. */
  method AwaitAnswer(port: Port, rsp: array<byte>, ghost events: seq<seq<byte>>, ghost rest: seq<byte>)
    returns (err: int)
    requires rsp.Length == HCI_MAX_EVENT_SIZE && AllEvents(events)
    modifies port`input, port`readPlan, port`readCalls, port`wouldBlock, rsp
    ensures port.readCalls <= old(port.readCalls) + 303 * 40
    ensures err == -1 || 3 <= err <= rsp.Length
    ensures err > 0 && old(port.input) == Flatten(events) + rest && LastRead(events) < |events| ==>
              && err == |events[LastRead(events)]| && rsp[..err] == events[LastRead(events)]
              && port.input == Flatten(events[LastRead(events) + 1..]) + rest
              && (rsp[1] == 0x0e || rsp[1] == 0x19 <==> FirstAnswer(events) < 40)
    ensures old(port.input) == Flatten(events) + rest && LastRead(events) < |events| ==>
              (err > 0 <==> Timely(old(port.readPlan), events, LastRead(events) + 1))
  {
    ghost var plan := port.readPlan;
    ghost var clean := port.input == Flatten(events) + rest && LastRead(events) < |events|;
    assert events[0..] == events;
    var retryCnt := 0;
    err := 0;
    while retryCnt < MAX_READ_EVENT_CNT
      invariant 0 <= retryCnt <= MAX_READ_EVENT_CNT && port.readCalls <= old(port.readCalls) + 303 * retryCnt
      invariant retryCnt > 0 ==> 3 <= err <= rsp.Length
      invariant clean ==> retryCnt <= LastRead(events) + 1 && port.input == Flatten(events[retryCnt..]) + rest
      invariant clean ==> port.readPlan == PlanAt(plan, events, retryCnt, false) && Timely(plan, events, retryCnt)
      invariant clean && 0 < retryCnt ==>
                  && err == |events[retryCnt - 1]| && rsp[..err] == events[retryCnt - 1]
                  && retryCnt - 1 < FirstAnswer(events)
    {
      if clean {
        BelowLastRead(events, retryCnt);
      }
      err := ReadNext(port, rsp, events, rest, retryCnt);
      if err < 0 {
        assert clean ==> !TimelyAt(plan, events, retryCnt);
        return;
      }
      retryCnt := retryCnt + 1;
      if rsp[0] == EVENT_INDICATOR && (rsp[1] == 0x0e || rsp[1] == 0x19) {
        break;
      }
    }
    assert err > 1 ==> rsp[..err][1] == rsp[1];
  }

  /**
   * `aml_hci_send_cmd`. If it returns a positive length on a stream of whole events,
   * then however the reads were cut and however many of them found nothing, the
   * response buffer holds the first answer and the stream stands right behind it,
   * provided the answer is among the first forty events. If it is not, the fortieth
   * event is left in the buffer and its length returned all the same: the result
   * alone does not tell a match from none. While writes make progress the result is
   * positive exactly if every event up to that one is in time.
   */
  method AmlHciSendCmd(port: Port, cmd: array<byte>, cmdSize: int, rsp: array<byte>,
                       ghost events: seq<seq<byte>>, ghost rest: seq<byte>)
    returns (err: int)
    requires cmdSize <= cmd.Length && rsp.Length == HCI_MAX_EVENT_SIZE && cmd != rsp
    requires AllEvents(events)
    modifies port, rsp
    ensures port.readCalls <= old(port.readCalls) + 303 * 40
    ensures cmdSize > 0 && err > 0 ==> port.wire == old(port.wire) + cmd[..cmdSize]
    ensures err == -1 || 3 <= err <= rsp.Length
    ensures err > 0 && old(port.input) == Flatten(events) + rest && LastRead(events) < |events| ==>
              && err == |events[LastRead(events)]| && rsp[..err] == events[LastRead(events)]
              && port.input == Flatten(events[LastRead(events) + 1..]) + rest
              && (rsp[1] == 0x0e || rsp[1] == 0x19 <==> FirstAnswer(events) < 40)
    ensures cmdSize > 0 && old(port.Writable())
            && old(port.input) == Flatten(events) + rest && LastRead(events) < |events| ==>
              && (err > 0 <==> Timely(old(port.readPlan), events, LastRead(events) + 1))
              && (NoFailure(old(port.readPlan), false) && EmptyReads(old(port.readPlan)) <= 44 ==> err > 0)
  {
    err := DoWrite(port, cmd, cmdSize);
    if err != cmdSize {
      return -1;
    }
    if LastRead(events) < |events| && NoFailure(port.readPlan, false) && EmptyReads(port.readPlan) <= 44 {
      FewEmptiesTimely(port.readPlan, events, LastRead(events) + 1);
    }
    err := AwaitAnswer(port, rsp, events, rest);
  }
}
