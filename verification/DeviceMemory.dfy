/** The controller's side of a download: executing packets on a memory. */
module DeviceMemory {
  import opened Bytes
  import opened HciCommand

  type Memory = map<nat, byte>

  datatype Store = Store(at: nat, value: byte)

  function StoresOf(address: nat, data: seq<byte>): (r: seq<Store>) {
    seq(|data|, i requires 0 <= i < |data| => Store(address + i, data[i]))
  }

  /** The RAM stores of one packet, as the controller decodes it. */
  function PacketStores(p: Packet): seq<Store> {
    match Decode(p)
    case StoreRam(to, bytes) => StoresOf(to, bytes)
    case _ => []
  }

  lemma DownloadStores(address: u32, data: seq<byte>)
    requires |data| <= RW_OPERATION_SIZE
    ensures PacketStores(Wire(Download(address, data))) == StoresOf(address, data)
  {
    DecodeDownload(address, data);
  }

  lemma StoresOfSplit(address: nat, data: seq<byte>, n: nat)
    requires n <= |data|
    ensures StoresOf(address, data) == StoresOf(address, data[..n]) + StoresOf(address + n, data[n..])
  {
  }

  /** All RAM stores of a command sequence, in wire order. */
  function Stores(cmds: seq<Command>): seq<Store> {
    if cmds == [] then [] else PacketStores(Wire(cmds[0])) + Stores(cmds[1..])
  }

  function Execute(m: Memory, ss: seq<Store>): Memory
    decreases |ss|
  {
    if ss == [] then m else Execute(m[ss[0].at := ss[0].value], ss[1..])
  }

  /** The memory after the controller has executed every packet. */
  function Replay(m: Memory, cmds: seq<Command>): Memory {
    Execute(m, Stores(cmds))
  }

  lemma StoresCons(cmd: Command, cmds: seq<Command>)
    ensures Stores([cmd] + cmds) == PacketStores(Wire(cmd)) + Stores(cmds)
  {
  }

  lemma {:induction false} StoresAppend(a: seq<Command>, b: seq<Command>)
    ensures Stores(a + b) == Stores(a) + Stores(b)
  {
    if a == [] {
      assert a + b == b;
    } else {
      assert (a + b)[0] == a[0] && (a + b)[1..] == a[1..] + b;
      StoresAppend(a[1..], b);
    }
  }

  ghost predicate DownloadFree(cmds: seq<Command>) {
    forall i :: 0 <= i < |cmds| ==> !cmds[i].Download?
  }

  lemma {:induction false} NoStores(cmds: seq<Command>)
    requires DownloadFree(cmds)
    ensures Stores(cmds) == []
  {
    if cmds != [] {
      var cmd := cmds[0];
      if cmd.WriteReg? {
        DecodeWriteReg(cmd.reg, cmd.value);
      } else {
        DecodeOther(cmd);
      }
      NoStores(cmds[1..]);
    }
  }

  lemma StoresPrefix(a: seq<Command>, b: seq<Command>)
    requires a <= b
    ensures Stores(a) <= Stores(b)
  {
    assert b == a + b[|a|..];
    StoresAppend(a, b[|a|..]);
  }

  /** No address is stored to twice. */
  ghost predicate Once(ss: seq<Store>) {
    forall i, j :: 0 <= i < j < |ss| ==> ss[i].at != ss[j].at
  }

  lemma {:induction false} ExecuteElsewhere(m: Memory, ss: seq<Store>, a: nat)
    requires forall i :: 0 <= i < |ss| ==> ss[i].at != a
    ensures a in Execute(m, ss) <==> a in m
    ensures a in m ==> Execute(m, ss)[a] == m[a]
    decreases |ss|
  {
    if ss != [] {
      ExecuteElsewhere(m[ss[0].at := ss[0].value], ss[1..], a);
    }
  }

  /** Under single assignment, the stored value is the one that stays. */
  lemma {:induction false} ExecuteHits(m: Memory, ss: seq<Store>, k: nat)
    requires k < |ss| && Once(ss)
    ensures ss[k].at in Execute(m, ss) && Execute(m, ss)[ss[k].at] == ss[k].value
    decreases |ss|
  {
    var m' := m[ss[0].at := ss[0].value];
    if k == 0 {
      ExecuteElsewhere(m', ss[1..], ss[0].at);
    } else {
      ExecuteHits(m', ss[1..], k - 1);
    }
  }
}
