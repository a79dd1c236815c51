/**
 * The Bluetooth stack's side of the bring-up protocol: the callbacks that
 * allocate, transmit and free HC buffers and that take the final verdict.
 * Every buffer carries an id; the ledger records which ids the library still
 * owns, what became of the others, what went on the wire and what was reported.
 */
module VendorCallbacks {
  import opened Bytes
  import opened HciCommand

  /**
   * `next` is the next fresh buffer id. `disposed` holds an id once per hand-over
   * to the transmitter and once per free. `delivered` counts completion events.
   */
  datatype Ledger = Ledger(
    next: nat,
    owned: set<nat>,
    disposed: multiset<nat>,
    sent: seq<Command>,
    delivered: nat,
    verdicts: seq<bool>)
  {
    function InFlight(): int {
      |sent| - delivered
    }

    /** Each id ever issued is owned, or was disposed of exactly once, and never both. */
    ghost predicate Balanced() {
      && (forall id :: id in owned ==> id < next)
      && (forall id: nat :: disposed[id] == if id < next && id !in owned then 1 else 0)
    }

    function Acquire(): Ledger {
      this.(next := next + 1, owned := owned + {next})
    }

    /** A completion event arrives in a buffer that the library must free. */
    function Deliver(): Ledger {
      Acquire().(delivered := delivered + 1)
    }

    function Release(id: nat): Ledger {
      this.(owned := owned - {id}, disposed := disposed + multiset{id})
    }

    function Transmit(id: nat, cmd: Command, accepted: bool): Ledger {
      if accepted then Release(id).(sent := sent + [cmd]) else this
    }

    function Report(ok: bool): Ledger {
      this.(verdicts := verdicts + [ok])
    }
  }

  const EMPTY_LEDGER := Ledger(0, {}, multiset{}, [], 0, [])

  /** How much of the memory behind a buffer the model shows. */
  const MEMORY_BEHIND := 2

  /**
   * An `HC_BT_HDR` with the bytes behind it; `id` stands for its address. `data` goes
   * `MEMORY_BEHIND` bytes beyond the `size` that was asked for: what is stored there
   * hits memory of someone else.
   */
  class HcBuf {
    const id: nat
    const size: nat
    const data: array<byte>
    var len: nat

    constructor (id: nat, size: nat)
      ensures this.id == id && this.size == size && data.Length == size + MEMORY_BEHIND && fresh(data) && len == 0
    {
      this.id := id;
      this.size := size;
      data := new byte[size + MEMORY_BEHIND];
      len := 0;
    }
  }

  class VendorCallbacks {
    ghost var ledger: Ledger
    var next: nat
    var inFlight: int

    ghost predicate Valid()
      reads this
    {
      next == ledger.next && inFlight == ledger.InFlight()
    }

    constructor ()
      ensures Valid() && ledger == EMPTY_LEDGER
    {
      ledger := EMPTY_LEDGER;
      next, inFlight := 0, 0;
    }

    /** `ok` is the environment's choice: whether memory is available. */
    method Alloc(size: nat, ok: bool) returns (b: HcBuf?)
      requires Valid()
      modifies this
      ensures Valid()
      ensures ok ==> b != null && fresh(b) && fresh(b.data) && b.id == old(ledger.next)
      ensures ok ==> b.size == size && b.data.Length == size + MEMORY_BEHIND
      ensures ledger == if ok then old(ledger).Acquire() else old(ledger)
      ensures !ok ==> b == null
    {
      if ok {
        b := new HcBuf(next, size);
        next := next + 1;
        ledger := ledger.Acquire();
      } else {
        b := null;
      }
    }

    /**
     * Hands a command over; its bytes must be the command's encoding, so the ledger
     * says what is on the wire. A refused buffer stays with the caller.
     */
    method Xmit(b: HcBuf, ghost cmd: Command, accepted: bool) returns (r: bool)
      requires Valid() && b.id in ledger.owned && b.len <= b.data.Length
      requires b.data[..b.len] == Wire(cmd)
      modifies this
      ensures Valid() && r == accepted
      ensures ledger == old(ledger).Transmit(b.id, cmd, accepted)
    {
      ledger := ledger.Transmit(b.id, cmd, accepted);
      if accepted {
        inFlight := inFlight + 1;
      }
      r := accepted;
    }

    /** A completion event for a command in flight, in a buffer that the library then owns. */
    method Complete(status: byte) returns (evt: HcBuf)
      requires Valid() && inFlight > 0
      modifies this
      ensures Valid() && ledger == old(ledger).Deliver()
      ensures fresh(evt) && fresh(evt.data) && evt.id == old(ledger.next)
      ensures evt.data.Length > 5 && evt.data[5] == status
    {
      evt := new HcBuf(next, 16);
      evt.data[5] := status;
      next, inFlight := next + 1, inFlight - 1;
      ledger := ledger.Deliver();
    }

    method Dealloc(b: HcBuf)
      requires Valid() && b.id in ledger.owned
      modifies this
      ensures Valid() && ledger == old(ledger).Release(b.id)
    {
      ledger := ledger.Release(b.id);
    }

    method FwCfg(ok: bool)
      requires Valid()
      modifies this
      ensures Valid() && ledger == old(ledger).Report(ok)
    {
      ledger := ledger.Report(ok);
    }
  }
}
