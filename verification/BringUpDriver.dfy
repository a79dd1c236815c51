/**
 * The stack and the library together: a start, and then completions for as long
 * as a command is in flight. It ties the code in `HwConfig` to the run-level
 * results.
 */
module BringUpDriver {
  import opened Bytes
  import opened FirmwareFile
  import opened BringUp
  import opened BringUpPlan
  import opened BringUpRuns
  import opened BringUpSessions
  import opened HwConfig

  /** One completion: an event buffer arrives, and the callback handles it. */
  method DeliverOne(hw: HwConfig, e: Completion)
    requires hw.Valid() && hw.stack.inFlight > 0
    modifies hw, hw.stack
    ensures hw.stack.Valid()
    ensures hw.Current() == BringUp.Complete(hw.cfg, old(hw.Current()), e)
  {
    var evt := hw.stack.Complete(e.status);
    hw.Cback(evt, e.allocOk, e.xmitOk, e.mallocOk, e.nodeOk);
  }

  /** Feeds completions to the callback until none is due; the state follows the value model step by step. */
  method DeliverAll(hw: HwConfig, es: seq<Completion>)
    requires hw.cfg.Valid() && hw.stack.Valid()
    requires hw.stack.ledger.InFlight() <= 1 && (Awaiting(hw.Current()) ==> Sound(hw.cfg, hw.Abstract()))
    modifies hw, hw.stack
    ensures hw.stack.Valid() && hw.Current() == Run(hw.cfg, old(hw.Current()), es)
    decreases |es|
  {
    if es != [] && hw.stack.inFlight > 0 {
      CompletionKeepsSound(hw.cfg, hw.Current(), es[0]);
      DeliverOne(hw, es[0]);
      DeliverAll(hw, es[1..]);
    }
  }

  /**
   * A whole firmware bring-up of the code, after any others: whatever happens, what it
   * has sent is a prefix of its plan, and success means all of the plan.
   */
  method FirmwareBringUp(hw: HwConfig, file: seq<byte>, allocOk: bool, xmitOk: bool, es: seq<Completion>)
    requires Settled(hw.Current()) && hw.stack.Valid() && hw.cfg.Valid()
    requires Loadable(hw.cfg.chip, hw.cfg.intf, file)
    modifies hw, hw.stack
    ensures hw.stack.Valid()
    ensures var v0, v, plan := old(hw.Current()), hw.Current(), Plan(hw.cfg, FirmwareStart(file), old(hw.manfCnt));
            && v == BringUpRun(hw.cfg, v0, FirmwareStart(file), allocOk, xmitOk, es)
            && v0.led.sent <= v.led.sent && SentSince(v0, v) <= plan
            && (v.led.verdicts == v0.led.verdicts + [true] ==> SentSince(v0, v) == plan)
  {
    ghost var v0 := hw.Current();
    hw.ConfigStart(file, false, allocOk, xmitOk);
    BeginKeepsSound(hw.cfg, v0, FirmwareStart(file), allocOk, xmitOk);
    assert hw.Current() == Begin(hw.cfg, v0, FirmwareStart(file), allocOk, xmitOk);
    DeliverAll(hw, es);
    LosingBringUp(hw.cfg, v0, FirmwareStart(file), allocOk, xmitOk, es);
    RunFollowsPlan(hw.cfg, WrittenOff(v0), FirmwareStart(file), allocOk, xmitOk, es);
  }
}
