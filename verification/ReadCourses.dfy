/**
 * How long a reader has to wait for some bytes, read off the plan of the reads alone:
 * how many reads deliver something and how many find nothing on the way.
 */
module ReadCourses {
  import opened Bytes
  import opened SerialPort

  /** Whether all bytes arrive, the reads that deliver and the reads that find nothing, and what is left of the plan. */
  datatype Course = Course(ok: bool, brought: nat, empties: nat, rest: seq<ReadOutcome>)

  /** The read fails; EAGAIN is no failure for a `patient` reader. */
  predicate Fails(o: ReadOutcome, patient: bool) {
    o.ReadError? || (o.WouldBlock? && !patient)
  }

  predicate Brings(o: ReadOutcome) {
    o.Deliver? && o.count > 0
  }

  /**
   * Reads until `need` bytes have arrived, one at a time if `single`, else as many as
   * come. Beyond the plan, everything asked for is delivered.
   */
  function Gather(plan: seq<ReadOutcome>, need: nat, single: bool, patient: bool): Course
    decreases |plan|
  {
    if need == 0 then Course(true, 0, 0, plan)
    else if plan == [] then Course(true, if single then need else 1, 0, [])
    else if Fails(plan[0], patient) then Course(false, 0, 0, plan)
    else if Brings(plan[0]) then
      var c := Gather(plan[1..], need - if single then 1 else Min(plan[0].count, need), single, patient);
      c.(brought := c.brought + 1)
    else
      var c := Gather(plan[1..], need, single, patient);
      c.(empties := c.empties + 1)
  }

  // ----- the three waits for an event: its type, its header, its parameters -----

  function TypeWait(plan: seq<ReadOutcome>, junk: nat, patient: bool): Course {
    Gather(plan, junk + 1, true, patient)
  }

  function HeadWait(plan: seq<ReadOutcome>, patient: bool): Course {
    Gather(plan, 2, false, patient)
  }

  function BodyWait(plan: seq<ReadOutcome>, length: nat, patient: bool): Course
    requires length >= 3
  {
    Gather(HeadWait(plan, patient).rest, length - 3, false, patient)
  }

  /** What is left of the plan after an event of `length` bytes behind `junk` others. */
  function PlanAfter(plan: seq<ReadOutcome>, junk: nat, length: nat, patient: bool): seq<ReadOutcome>
    requires length >= 3
  {
    BodyWait(TypeWait(plan, junk, patient).rest, length, patient).rest
  }

  /** The counter, at `first` behind the type, may reach 201 behind the header and 301 behind the parameters. */
  predicate BodyCountedInTime(plan: seq<ReadOutcome>, first: nat, length: nat)
    requires length >= 3
  {
    var head, body := HeadWait(plan, false), BodyWait(plan, length, false);
    var second := first + head.brought + head.empties;
    head.ok && second <= 201 && body.ok && second + body.brought + body.empties <= 301
  }

  /** One counter for all three waits: it may reach 101 before the type, counting junk and reads that find nothing. */
  predicate CountedInTime(plan: seq<ReadOutcome>, junk: nat, length: nat)
    requires length >= 3
  {
    var kind := TypeWait(plan, junk, false);
    kind.ok && junk + kind.empties <= 101 && BodyCountedInTime(kind.rest, junk + kind.empties, length)
  }

  /** Header and parameters each have their own count of reads that find nothing. */
  predicate BodyInTime(plan: seq<ReadOutcome>, length: nat)
    requires length >= 3
  {
    var head, body := HeadWait(plan, true), BodyWait(plan, length, true);
    head.ok && head.empties < 10 && body.ok && body.empties < 10
  }

  /** The type has too; its limit is the caller's. */
  predicate PatientInTime(plan: seq<ReadOutcome>, length: nat, limit: nat)
    requires length >= 3
  {
    var kind := TypeWait(plan, 0, true);
    kind.ok && kind.empties < limit && BodyInTime(kind.rest, length)
  }

  // ----- the same with a `select` before every read -----

  /** The first `n` calls of `select` find data; those beyond the plan always do. */
  predicate Ready(selects: seq<bool>, n: nat) {
    forall i :: 0 <= i < n && i < |selects| ==> selects[i]
  }

  /** What is left of the plan after `n` calls. */
  function Later(selects: seq<bool>, n: nat): seq<bool> {
    if n <= |selects| then selects[n..] else []
  }

  /** Every read of the wait is announced and delivers. */
  predicate Polled(c: Course, selects: seq<bool>) {
    c.ok && c.empties == 0 && Ready(selects, c.brought)
  }

  predicate BodyPolled(plan: seq<ReadOutcome>, selects: seq<bool>, length: nat)
    requires length >= 3
  {
    var head := HeadWait(plan, false);
    Polled(head, selects) && Polled(BodyWait(plan, length, false), Later(selects, head.brought))
  }

  predicate PolledInTime(plan: seq<ReadOutcome>, selects: seq<bool>, junk: nat, length: nat)
    requires length >= 3
  {
    var kind := TypeWait(plan, junk, false);
    Polled(kind, selects) && BodyPolled(kind.rest, Later(selects, kind.brought), length)
  }

  predicate AllBring(plan: seq<ReadOutcome>) {
    forall i :: 0 <= i < |plan| ==> plan[i].Deliver? && plan[i].count > 0
  }

  lemma {:induction false} GatherSteady(plan: seq<ReadOutcome>, need: nat, single: bool)
    requires AllBring(plan)
    ensures var c := Gather(plan, need, single, false); c.ok && c.empties == 0 && AllBring(c.rest)
    decreases |plan|
  {
    if need > 0 && plan != [] {
      GatherSteady(plan[1..], need - if single then 1 else Min(plan[0].count, need), single);
    }
  }

  /** Data that is always there is polled in time in every chunking, however much junk comes first. */
  lemma SteadyPolls(plan: seq<ReadOutcome>, selects: seq<bool>, junk: nat, length: nat)
    requires length >= 3 && AllBring(plan) && forall i :: 0 <= i < |selects| ==> selects[i]
    ensures PolledInTime(plan, selects, junk, length)
  {
    var kind := TypeWait(plan, junk, false);
    GatherSteady(plan, junk + 1, true);
    GatherSteady(kind.rest, 2, false);
    GatherSteady(HeadWait(kind.rest, false).rest, length - 3, false);
  }

  /** A wait that is not over needs another read. */
  lemma StillWaiting(plan: seq<ReadOutcome>, need: nat, single: bool)
    requires need > 0
    ensures var c := Gather(plan, need, single, false); c.ok && c.empties == 0 ==> c.brought > 0
  {
  }

  // ----- plans as a whole -----

  predicate NoFailure(plan: seq<ReadOutcome>, patient: bool) {
    forall i :: 0 <= i < |plan| ==> !Fails(plan[i], patient)
  }

  /** The reads of a plan that find nothing. */
  function EmptyReads(plan: seq<ReadOutcome>): nat {
    if plan == [] then 0 else (if Brings(plan[0]) then 0 else 1) + EmptyReads(plan[1..])
  }

  lemma {:induction false} GatherPlanned(plan: seq<ReadOutcome>, need: nat, single: bool, patient: bool)
    requires NoFailure(plan, patient)
    ensures var c := Gather(plan, need, single, patient);
            && c.ok && c.brought <= need && NoFailure(c.rest, patient)
            && c.empties + EmptyReads(c.rest) <= EmptyReads(plan)
    decreases |plan|
  {
    if need > 0 && plan != [] {
      var got := if !Brings(plan[0]) then 0 else if single then 1 else Min(plan[0].count, need);
      GatherPlanned(plan[1..], need - got, single, patient);
    }
  }

  /** Without failing reads, few enough empty ones leave every chunking in time, and the next event no worse off. */
  lemma FewEmptiesCounted(plan: seq<ReadOutcome>, junk: nat, length: nat)
    requires length >= 3 && NoFailure(plan, false)
    requires junk + EmptyReads(plan) <= 101 && junk + length + EmptyReads(plan) <= 302
    ensures CountedInTime(plan, junk, length)
    ensures var rest := PlanAfter(plan, junk, length, false);
            NoFailure(rest, false) && EmptyReads(rest) <= EmptyReads(plan)
  {
    var kind := TypeWait(plan, junk, false);
    GatherPlanned(plan, junk + 1, true, false);
    GatherPlanned(kind.rest, 2, false, false);
    GatherPlanned(HeadWait(kind.rest, false).rest, length - 3, false, false);
  }

  lemma FewEmptiesPatient(plan: seq<ReadOutcome>, length: nat, limit: nat)
    requires length >= 3 && NoFailure(plan, true) && EmptyReads(plan) < 10 <= limit
    ensures PatientInTime(plan, length, limit)
    ensures var rest := PlanAfter(plan, 0, length, true);
            NoFailure(rest, true) && EmptyReads(rest) <= EmptyReads(plan)
  {
    var kind := TypeWait(plan, 0, true);
    GatherPlanned(plan, 1, true, true);
    GatherPlanned(kind.rest, 2, false, true);
    GatherPlanned(HeadWait(kind.rest, true).rest, length - 3, false, true);
  }

  lemma {:induction false} GatherDrips(plan: seq<ReadOutcome>, need: nat, single: bool, patient: bool)
    requires |plan| >= need && forall i :: 0 <= i < |plan| ==> plan[i] == Deliver(1)
    ensures Gather(plan, need, single, patient) == Course(true, need, 0, plan[need..])
    decreases |plan|
  {
    if need > 0 {
      GatherDrips(plan[1..], need - 1, single, patient);
      assert plan[1..][need - 1..] == plan[need..];
    }
  }

  /** Byte by byte, exactly up to 101 bytes of junk and 302 in all are in time. */
  lemma DripsCounted(plan: seq<ReadOutcome>, junk: nat, length: nat)
    requires length >= 3 && |plan| >= junk + length && forall i :: 0 <= i < |plan| ==> plan[i] == Deliver(1)
    ensures CountedInTime(plan, junk, length) <==> junk <= 101 && junk + length <= 302
  {
    GatherDrips(plan, junk + 1, true, false);
    GatherDrips(plan[junk + 1..], 2, false, false);
    assert plan[junk + 1..][2..] == plan[junk + 3..];
    GatherDrips(plan[junk + 3..], length - 3, false, false);
  }

  /** `k` reads that find nothing only put the wait off. */
  lemma {:induction false} EmptiesFirst(
    k: nat, o: ReadOutcome, plan: seq<ReadOutcome>, need: nat, single: bool, patient: bool)
    requires need > 0 && !Fails(o, patient) && !Brings(o)
    ensures var late := seq(k, i requires 0 <= i < k => o) + plan;
            var c := Gather(plan, need, single, patient);
            plan != [] ==> Gather(late, need, single, patient) == c.(empties := c.empties + k)
    decreases k
  {
    var late := seq(k, i requires 0 <= i < k => o) + plan;
    if k == 0 {
      assert late == plan;
    } else {
      assert late[0] == o && late[1..] == seq(k - 1, i requires 0 <= i < k - 1 => o) + plan;
      EmptiesFirst(k - 1, o, plan, need, single, patient);
    }
  }

  // ----- where each limit lies: `k` reads that find nothing, before the type, the header or the parameters -----

  lemma LateType(k: nat, o: ReadOutcome, length: nat)
    requires length > 3 && (o == NoData || o == Deliver(0))
    ensures var plan := seq(k, i requires 0 <= i < k => o) + [Deliver(1), Deliver(2), Deliver(length)];
            && (CountedInTime(plan, 0, length) <==> k <= 101)
            && (PatientInTime(plan, length, 10) <==> k < 10)
  {
    var prompt := [Deliver(1), Deliver(2), Deliver(length)];
    EmptiesFirst(k, o, prompt, 1, true, false);
    EmptiesFirst(k, o, prompt, 1, true, true);
    PromptBody(length, false);
    PromptBody(length, true);
    assert prompt[1..] == [Deliver(2), Deliver(length)];
  }

  lemma LateHead(k: nat, o: ReadOutcome, length: nat)
    requires length > 3 && (o == NoData || o == Deliver(0))
    ensures var plan := [Deliver(1)] + (seq(k, i requires 0 <= i < k => o) + [Deliver(2), Deliver(length)]);
            && (CountedInTime(plan, 0, length) <==> k <= 200)
            && (PatientInTime(plan, length, 10) <==> k < 10)
  {
    var late := seq(k, i requires 0 <= i < k => o) + [Deliver(2), Deliver(length)];
    EmptiesFirst(k, o, [Deliver(2), Deliver(length)], 2, false, false);
    EmptiesFirst(k, o, [Deliver(2), Deliver(length)], 2, false, true);
    PromptBody(length, false);
    PromptBody(length, true);
    PromptRead(1, late, true, false);
    PromptRead(1, late, true, true);
  }

  lemma LateBody(k: nat, o: ReadOutcome, length: nat)
    requires length > 3 && (o == NoData || o == Deliver(0))
    ensures var plan := [Deliver(1)] + ([Deliver(2)] + (seq(k, i requires 0 <= i < k => o) + [Deliver(length)]));
            && (CountedInTime(plan, 0, length) <==> k <= 299)
            && (PatientInTime(plan, length, 10) <==> k < 10)
  {
    var late := seq(k, i requires 0 <= i < k => o) + [Deliver(length)];
    EmptiesFirst(k, o, [Deliver(length)], length - 3, false, false);
    EmptiesFirst(k, o, [Deliver(length)], length - 3, false, true);
    PromptBody(length, false);
    PromptBody(length, true);
    PromptRead(1, [Deliver(2)] + late, true, false);
    PromptRead(1, [Deliver(2)] + late, true, true);
    PromptRead(2, late, false, false);
    PromptRead(2, late, false, true);
  }

  /** The next read delivers all that is waited for. */
  lemma PromptRead(n: nat, rest: seq<ReadOutcome>, single: bool, patient: bool)
    requires n > 0 && (single ==> n == 1)
    ensures Gather([Deliver(n)] + rest, n, single, patient) == Course(true, 1, 0, rest)
  {
    assert ([Deliver(n)] + rest)[1..] == rest;
  }

  lemma PromptBody(length: nat, patient: bool)
    requires length > 3
    ensures Gather([Deliver(2), Deliver(length)], 2, false, patient) == Course(true, 1, 0, [Deliver(length)])
    ensures Gather([Deliver(length)], length - 3, false, patient) == Course(true, 1, 0, [])
  {
    assert [Deliver(2), Deliver(length)][1..] == [Deliver(length)] && [Deliver(length)][1..] == [];
  }
}
