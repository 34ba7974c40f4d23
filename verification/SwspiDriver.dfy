/**
 The software SPI driver: requests are recorded into an allocated array, then either
 carried out one by one or thrown away; either way all that was allocated is freed.
 */
module SwspiDriver {
  import opened Bytes
  import opened Digest
  import opened SwspiSpec

  type Buffer = array<byte>

  /** `struct spi_req_xfer_args` */
  class XferArgs {
    const tx: array?<byte>
    const rx: array?<byte>
    const len: nat

    constructor (tx: array?<byte>, rx: array?<byte>, len: nat)
      ensures this.tx == tx && this.rx == rx && this.len == len
    {
      this.tx, this.rx, this.len := tx, rx, len;
    }
  }

  /** The allocated argument of a delay. */
  class DelayArg {
    const ns: nat

    constructor (ns: nat)
      ensures this.ns == ns
    {
      this.ns := ns;
    }
  }

  datatype Exec = NoExec | ExecSetClk | ExecCsAssert | ExecCsDeassert | ExecXfer | ExecDelay

  datatype Priv = Null | XferPriv(args: XferArgs) | DelayPriv(arg: DelayArg)

  /** `struct spi_seq_entry`, all zero when allocated. */
  datatype SeqEntry = SeqEntry(exec: Exec, priv: Priv)

  const EMPTY_ENTRY := SeqEntry(NoExec, Null)

  ghost predicate Recorded(e: SeqEntry) {
    match e.exec
    case NoExec => false
    case ExecXfer => e.priv.XferPriv?
    case ExecDelay => e.priv.DelayPriv?
    case _ => e.priv.Null?
  }

  function Ref(b: array?<byte>): Option<Buffer> {
    if b == null then None else Some(b)
  }

  /** The request an entry stands for. */
  ghost function ReqOf(e: SeqEntry): Req<Buffer>
    requires Recorded(e)
  {
    match e.exec
    case ExecSetClk => SetClk
    case ExecCsAssert => CsAssert
    case ExecCsDeassert => CsDeassert
    case ExecXfer => Xfer(Ref(e.priv.args.tx), Ref(e.priv.args.rx), e.priv.args.len)
    case ExecDelay => Delay(e.priv.arg.ns)
  }

  ghost function ReqsOf(es: seq<SeqEntry>): (reqs: seq<Req<Buffer>>)
    requires forall i :: 0 <= i < |es| ==> Recorded(es[i])
    ensures |reqs| == |es|
    ensures forall i :: 0 <= i < |es| ==> reqs[i] == ReqOf(es[i])
  {
    seq(|es|, i requires 0 <= i < |es| => ReqOf(es[i]))
  }

  ghost function Allocation(p: Priv): set<object> {
    match p
    case Null => {}
    case XferPriv(args) => {args}
    case DelayPriv(arg) => {arg}
  }

  /** What the entries own. */
  ghost function Allocations(es: seq<SeqEntry>): set<object> {
    if es == [] then {} else Allocations(es[..|es| - 1]) + Allocation(es[|es| - 1].priv)
  }

  /** No two entries own the same memory. */
  ghost predicate Unshared(es: seq<SeqEntry>) {
    forall i, j :: 0 <= i < j < |es| ==> Allocation(es[i].priv) !! Allocation(es[j].priv)
  }

  /** The C heap: what has been allocated and not freed. Freeing anything else is an error. */
  class Heap {
    ghost var live: set<object>

    constructor ()
      ensures live == {}
    {
      live := {};
    }

    ghost method Malloc(o: object)
      requires o !in live
      modifies this
      ensures live == old(live) + {o}
    {
      live := live + {o};
    }

    ghost method Free(o: object)
      requires o in live
      modifies this
      ensures live == old(live) - {o}
    {
      live := live - {o};
    }
  }

  /** `struct spi_bus_ctx` */
  class Bus {
    var owner: Device?

    constructor ()
      ensures owner == null
    {
      owner := null;
    }
  }

  /** `struct spi_dev_ctx` */
  class Device {
    const bus: Bus
    const loopback: bool
    const rand: (byte, nat) -> nat
    const heap: Heap

    var cmds: array?<SeqEntry>
    var numCmds: nat
    var currCmd: nat

    constructor (bus: Bus, loopback: bool, rand: (byte, nat) -> nat, heap: Heap)
      ensures Idle()
      ensures this.bus == bus && this.loopback == loopback && this.rand == rand && this.heap == heap
    {
      this.bus, this.loopback, this.rand, this.heap := bus, loopback, rand, heap;
      cmds, numCmds, currCmd := null, 0, 0;
    }

    ghost predicate Idle()
      reads this
    {
      cmds == null && numCmds == 0 && currCmd == 0
    }

    /** A sequence has been begun, and its entries are filled up to `currCmd`. */
    ghost predicate Begun()
      reads this, cmds
    {
      && cmds != null && cmds.Length == numCmds && currCmd <= numCmds
      && (forall i :: 0 <= i < currCmd ==> Recorded(cmds[i]))
      && (forall i :: currCmd <= i < numCmds ==> cmds[i] == EMPTY_ENTRY)
      && Unshared(cmds[..]) && cmds !in Allocations(cmds[..])
    }

    /** The requests recorded so far. */
    ghost function Reqs(): seq<Req<Buffer>>
      requires Begun()
      reads this, cmds
    {
      ReqsOf(cmds[..currCmd])
    }

    /** Everything the sequence has allocated: its array and the requests' arguments. */
    ghost function Owned(): set<object>
      requires Begun()
      reads this, cmds
    {
      {cmds} + Allocations(cmds[..])
    }

    /** None of that has been freed. */
    ghost predicate Active()
      reads this, cmds, heap
    {
      Begun() && Owned() <= heap.live
    }

    ghost function Chip(): Chip<Device> {
      SwspiSpec.Chip(this, loopback, rand)
    }

    // ----- recording

    method SeqBegin(n: nat, allocOk: bool) returns (ok: bool)
      requires Idle()
      modifies this, heap
      ensures ok == allocOk
      ensures !ok ==> Idle() && heap.live == old(heap.live)
      ensures ok ==> Active() && numCmds == n && currCmd == 0 && heap.live == old(heap.live) + Owned()
      ensures ok ==> fresh(cmds) && fresh(Owned())
    {
      if !allocOk {
        return false;
      }
      var entries := new SeqEntry[n](_ => EMPTY_ENTRY);
      heap.Malloc(entries);
      cmds, numCmds := entries, n;
      NoAllocations(cmds[..]);
      return true;
    }

    /** Fills the next entry; its argument, if it has one, was allocated just before. */
    method Record(e: SeqEntry)
      requires Active() && currCmd < numCmds && Recorded(e)
      requires Allocation(e.priv) <= heap.live && Allocation(e.priv) !! Owned()
      modifies `currCmd, cmds
      ensures Active() && Reqs() == old(Reqs()) + [ReqOf(e)]
      ensures Owned() == old(Owned()) + Allocation(e.priv)
    {
      cmds[currCmd] := e;
      currCmd := currCmd + 1;
      RecordStep(old(cmds[..]), cmds[..], old(currCmd), e);
    }

    method ReqSetClk()
      requires Active() && currCmd < numCmds
      modifies `currCmd, cmds
      ensures Active() && Reqs() == old(Reqs()) + [SetClk] && Owned() == old(Owned())
    {
      Record(SeqEntry(ExecSetClk, Null));
    }

    method ReqCsAssert()
      requires Active() && currCmd < numCmds
      modifies `currCmd, cmds
      ensures Active() && Reqs() == old(Reqs()) + [CsAssert] && Owned() == old(Owned())
    {
      Record(SeqEntry(ExecCsAssert, Null));
    }

    method ReqCsDeassert()
      requires Active() && currCmd < numCmds
      modifies `currCmd, cmds
      ensures Active() && Reqs() == old(Reqs()) + [CsDeassert] && Owned() == old(Owned())
    {
      Record(SeqEntry(ExecCsDeassert, Null));
    }

    method ReqXfer(tx: array?<byte>, rx: array?<byte>, len: nat, allocOk: bool) returns (ok: bool)
      requires Active() && currCmd < numCmds
      modifies `currCmd, cmds, heap
      ensures Active() && ok == allocOk
      ensures Reqs() == old(Reqs()) + if ok then [Xfer(Ref(tx), Ref(rx), len)] else []
      ensures fresh(Owned() - old(Owned())) && old(Owned()) <= Owned()
      ensures heap.live == old(heap.live) + Owned()
    {
      if !allocOk {
        return false;
      }
      var args := new XferArgs(tx, rx, len);
      heap.Malloc(args);
      Record(SeqEntry(ExecXfer, XferPriv(args)));
      return true;
    }

    method ReqDelay(ns: nat, allocOk: bool) returns (ok: bool)
      requires Active() && currCmd < numCmds
      modifies `currCmd, cmds, heap
      ensures Active() && ok == allocOk
      ensures Reqs() == old(Reqs()) + if ok then [Delay(ns)] else []
      ensures fresh(Owned() - old(Owned())) && old(Owned()) <= Owned()
      ensures heap.live == old(heap.live) + Owned()
    {
      if !allocOk {
        return false;
      }
      var arg := new DelayArg(ns);
      heap.Malloc(arg);
      Record(SeqEntry(ExecDelay, DelayPriv(arg)));
      return true;
    }

    // ----- carrying out

    ghost function Owner(): Option<Device>
      reads bus
    {
      if bus.owner == null then None else Some(bus.owner)
    }

    /** The bus and the buffers as they are. */
    ghost function Now(bufs: set<Buffer>): World<Device, Buffer>
      reads bus, bufs
    {
      World(Owner(), MemOf(bufs))
    }

    /** Fills a buffer from the C library's generator, seeded first. */
    method RandBuf(buf: array<byte>, sz: nat, seed: byte)
      requires sz <= buf.Length
      modifies buf
      ensures buf[..sz] == RandBytes(rand, seed, sz) && buf[sz..] == old(buf[sz..])
    {
      var i := 0;
      while i < sz
        invariant 0 <= i <= sz
        invariant forall k :: 0 <= k < i ==> buf[k] == (rand(seed, k) % 0xff) as byte
        invariant buf[sz..] == old(buf[sz..])
      {
        buf[i] := (rand(seed, i) % 0xff) as byte;
        i := i + 1;
      }
    }

    /** A transfer; `tx` and `rx` may be the same buffer. */
    method ExecXferArgs(tx: array?<byte>, rx: array?<byte>, len: nat)
      requires tx != null ==> len <= tx.Length
      requires rx != null ==> len <= rx.Length
      modifies rx
      ensures rx != null ==> rx[len..] == old(rx[len..])
      ensures rx != null && loopback ==> rx[..len] == if tx != null then old(tx[..len]) else Zeros(len)
      ensures rx != null && !loopback ==>
                rx[..len] == RandBytes(rand, if tx != null then DigestOf(old(tx[..len])) else 0, len)
    {
      if loopback {
        if rx != null {
          if tx != null {
            forall i | 0 <= i < len {
              rx[i] := tx[i];
            }
          } else {
            forall i | 0 <= i < len {
              rx[i] := 0;
            }
          }
        }
        return;
      }
      var seed := 0;
      if tx != null {
        seed := ComputeDigest(tx, len);
      }
      if rx != null {
        RandBuf(rx, len, seed);
      }
    }

    method ExecEntry(e: SeqEntry, ghost bufs: set<Buffer>) returns (ok: bool)
      requires Recorded(e) && Fits(ReqOf(e), MemOf(bufs))
      modifies bus, bufs
      ensures var r := ExecOne(Chip(), old(Now(bufs)), ReqOf(e));
              ok == r.Some? && (ok ==> Now(bufs) == r.value)
    {
      match e.exec {
        case ExecSetClk => return true;
        case ExecCsAssert =>
          if bus.owner != null {
            return false;
          }
          bus.owner := this;
          return true;
        case ExecCsDeassert =>
          if bus.owner != this {
            return false;
          }
          bus.owner := null;
          return true;
        case ExecXfer =>
          ghost var before := MemOf(bufs);
          var args := e.priv.args;
          ExecXferArgs(args.tx, args.rx, args.len);
          if args.rx != null {
            assert args.rx[..] == args.rx[..args.len] + args.rx[args.len..];
            assert MemOf(bufs) == before[args.rx := args.rx[..]];
          } else {
            assert MemOf(bufs) == before;
          }
          return true;
        case ExecDelay => return true;
      }
    }

    // ----- freeing

    method SeqFree()
      requires Active()
      modifies this, heap
      ensures Idle() && heap.live == old(heap.live) - old(Owned())
    {
      var i := 0;
      while i < numCmds
        invariant 0 <= i <= numCmds && cmds == old(cmds) && numCmds == old(numCmds)
        invariant heap.live == old(heap.live) - Allocations(cmds[..i])
      {
        FreeStep(cmds[..], i);
        match cmds[i].priv {
          case Null =>
          case XferPriv(args) => heap.Free(args);
          case DelayPriv(arg) => heap.Free(arg);
        }
        i := i + 1;
      }
      assert cmds[..i] == cmds[..];
      heap.Free(cmds);
      cmds, numCmds, currCmd := null, 0, 0;
    }

    /** Carries out the recorded requests in order. The result is false if an ownership assertion stops it. */
    method SeqCommit(ghost bufs: set<Buffer>) returns (completed: bool)
      requires Active() && currCmd == numCmds && AllFit(Reqs(), MemOf(bufs))
      modifies this, heap, bus, bufs
      ensures var r := ExecAll(Chip(), old(Now(bufs)), old(Reqs()));
              && completed == r.Some?
              && (completed ==> Now(bufs) == r.value && Idle() && heap.live == old(heap.live) - old(Owned()))
      ensures completed ==> Transferred(Chip(), old(Now(bufs)), old(Reqs()), MemOf(bufs))
      ensures !completed ==> heap.live == old(heap.live) && cmds == old(cmds)
    {
      var i := 0;
      ghost var reqs := Reqs();
      while i < numCmds
        invariant 0 <= i <= numCmds && Active() && currCmd == numCmds && cmds == old(cmds)
        invariant heap.live == old(heap.live) && cmds[..] == old(cmds[..])
        invariant AllFit(reqs[i..], MemOf(bufs))
        invariant ExecAll(Chip(), Now(bufs), reqs[i..]) == ExecAll(Chip(), old(Now(bufs)), reqs)
      {
        ExecNext(Chip(), Now(bufs), reqs, i);
        assert ReqOf(cmds[i]) == reqs[i];
        var ok := ExecEntry(cmds[i], bufs);
        if !ok {
          return false;
        }
        i := i + 1;
      }
      CompletedTransfers(Chip(), old(Now(bufs)), reqs);
      SeqFree();
      return true;
    }

    method SeqAbort()
      requires Active()
      modifies this, heap
      ensures Idle() && heap.live == old(heap.live) - old(Owned())
    {
      SeqFree();
    }

    // ----- the whole protocol

    /** Records one request, whatever it is. */
    method RecordReq(req: Req<Buffer>, allocOk: bool) returns (ok: bool)
      requires Active() && currCmd < numCmds
      modifies `currCmd, cmds, heap
      ensures Active() && ok == (!NeedsMemory(req) || allocOk)
      ensures Reqs() == old(Reqs()) + if ok then [req] else []
      ensures fresh(Owned() - old(Owned())) && old(Owned()) <= Owned()
      ensures heap.live == old(heap.live) + Owned()
    {
      ok := true;
      match req {
        case SetClk => ReqSetClk();
        case CsAssert => ReqCsAssert();
        case CsDeassert => ReqCsDeassert();
        case Xfer(tx, rx, len) =>
          ok := ReqXfer(if tx.Some? then tx.value else null, if rx.Some? then rx.value else null, len, allocOk);
        case Delay(ns) => ok := ReqDelay(ns, allocOk);
      }
    }

    /** Records requests into a sequence just begun, until an allocation fails. */
    method RecordAll(reqs: seq<Req<Buffer>>, allocs: seq<bool>) returns (ok: bool)
      requires Active() && currCmd == 0 && numCmds == |reqs| == |allocs|
      modifies `currCmd, cmds, heap
      ensures Active() && (ok <==> !RunsOut(reqs, allocs))
      ensures ok ==> currCmd == numCmds && Reqs() == reqs
      ensures fresh(Owned() - old(Owned())) && old(Owned()) <= Owned()
      ensures heap.live == old(heap.live) + Owned()
    {
      var i := 0;
      while i < |reqs|
        invariant 0 <= i <= |reqs| && Active() && currCmd == i && Reqs() == reqs[..i]
        invariant fresh(Owned() - old(Owned())) && old(Owned()) <= Owned() && heap.live == old(heap.live) + Owned()
        invariant forall k :: 0 <= k < i ==> !NeedsMemory(reqs[k]) || allocs[k]
      {
        ok := RecordReq(reqs[i], allocs[i]);
        if !ok {
          return false;
        }
        i := i + 1;
      }
      assert reqs[..i] == reqs;
      return true;
    }

    /** Begin and one call per request; what a failed allocation leaves behind is aborted. */
    method RecordSequence(reqs: seq<Req<Buffer>>, beginOk: bool, allocs: seq<bool>) returns (ok: bool)
      requires Idle() && |allocs| == |reqs|
      modifies this, heap
      ensures ok <==> beginOk && !RunsOut(reqs, allocs)
      ensures ok ==> Active() && currCmd == numCmds && Reqs() == reqs
      ensures ok ==> fresh(Owned()) && heap.live == old(heap.live) + Owned()
      ensures !ok ==> Idle() && heap.live == old(heap.live)
    {
      ok := SeqBegin(|reqs|, beginOk);
      if ok {
        ok := RecordAll(reqs, allocs);
        if !ok {
          SeqAbort();
        }
      }
    }

    /**
     Begin, one call per request, then commit; or abort as soon as an allocation fails.
     Recording and committing is the same as carrying the requests out one after the
     other, and an aborted sequence has done nothing. Nothing stays allocated.
     */
    method RunSequence(reqs: seq<Req<Buffer>>, beginOk: bool, allocs: seq<bool>, ghost bufs: set<Buffer>)
      returns (end: SequenceEnd)
      requires Idle() && |allocs| == |reqs| && AllFit(reqs, MemOf(bufs))
      modifies this, heap, bus, bufs
      ensures end == Completed || end == Stopped <==> beginOk && !RunsOut(reqs, allocs)
      ensures end == NotStarted <==> !beginOk
      ensures end == Completed || end == Stopped ==>
                var r := ExecAll(Chip(), old(Now(bufs)), reqs);
                (end == Completed <==> r.Some?) && (end == Completed ==> Now(bufs) == r.value)
      ensures end == Completed ==> Transferred(Chip(), old(Now(bufs)), reqs, MemOf(bufs))
      ensures end == NotStarted || end == Aborted ==> Now(bufs) == old(Now(bufs))
      ensures end != Stopped ==> Idle() && heap.live == old(heap.live)
    {
      var recorded := RecordSequence(reqs, beginOk, allocs);
      if !recorded {
        return if beginOk then Aborted else NotStarted;
      }
      var completed := SeqCommit(bufs);
      return if completed then Completed else Stopped;
    }

    // ----- other devices on the same bus and heap

    /** Any one call of the protocol. It frees nothing but what the device itself owns. */
    method Operate(op: Op, ghost bufs: set<Buffer>) returns (ok: bool)
      requires if op.Begin? then Idle() else Active()
      requires op.Add? ==> currCmd < numCmds
      requires op.Commit? ==> currCmd == numCmds && AllFit(Reqs(), MemOf(bufs))
      modifies this, cmds, heap, bus, bufs
      ensures cmds == null || cmds == old(cmds) || fresh(cmds)
      ensures op.Begin? ==> old(heap.live) <= heap.live && ok == op.allocOk
      ensures op.Begin? && ok ==> Active() && numCmds == op.n && Reqs() == [] && fresh(Owned())
      ensures !op.Begin? ==> old(heap.live) - old(Owned()) <= heap.live
      ensures op.Add? ==> ok == (!NeedsMemory(op.req) || op.allocOk)
      ensures op.Add? ==> Active() && numCmds == old(numCmds) && Reqs() == old(Reqs()) + if ok then [op.req] else []
      ensures op.Add? ==> fresh(Owned() - old(Owned()))
      ensures (op.Begin? && !ok) || (op.Commit? && ok) || op.Abort? ==> Idle()
      ensures !op.Commit? ==> Now(bufs) == old(Now(bufs))
      ensures op.Commit? ==>
                var r := ExecAll(Chip(), old(Now(bufs)), old(Reqs()));
                ok == r.Some? && (ok ==> Now(bufs) == r.value)
    {
      ok := true;
      match op {
        case Begin(n, allocOk) => ok := SeqBegin(n, allocOk);
        case Add(req, allocOk) => ok := RecordReq(req, allocOk);
        case Commit => ok := SeqCommit(bufs);
        case Abort => SeqAbort();
      }
    }

    /**
     One call of the protocol while another device is in the middle of a sequence of its
     own. Whatever the call comes to, the other's recording and memory are untouched.
     */
    method OperateBeside(other: Device, op: Op, ghost bufs: set<Buffer>) returns (ok: bool)
      requires other != this && other.heap == heap && other.Active()
      requires op.Begin? ==> Idle()
      requires !op.Begin? ==> Active() && Owned() !! other.Owned()
      requires op.Add? ==> currCmd < numCmds
      requires op.Commit? ==> currCmd == numCmds && AllFit(Reqs(), MemOf(bufs))
      modifies this, cmds, heap, bus, bufs
      ensures other.Active() && other.Reqs() == old(other.Reqs()) && other.Owned() == old(other.Owned())
      ensures ok && (op.Begin? || op.Add?) ==> Active() && Owned() !! other.Owned()
      ensures (op.Begin? && !ok) || (op.Commit? && ok) || op.Abort? ==> Idle()
      ensures op.Add? ==> Active() && Reqs() == old(Reqs()) + if ok then [op.req] else []
    {
      ok := Operate(op, bufs);
      KeptBeside(other);
    }
  }

  /** An active device that is left alone stays as it is as long as nobody frees its memory. */
  twostate lemma KeptBeside(other: Device)
    requires old(other.Active()) && unchanged(other) && unchanged(other.cmds)
    requires old(other.Owned()) <= other.heap.live
    ensures other.Active() && other.Reqs() == old(other.Reqs()) && other.Owned() == old(other.Owned())
  {
    assert other.cmds[..] == old(other.cmds[..]);
  }

  /** A call into the driver's sequence protocol. */
  datatype Op = Begin(n: nat, allocOk: bool) | Add(req: Req<Buffer>, allocOk: bool) | Commit | Abort

  /** How a sequence ended; `Stopped` is a failed ownership assertion. */
  datatype SequenceEnd = NotStarted | Aborted | Completed | Stopped

  predicate NeedsMemory<B>(req: Req<B>) {
    req.Xfer? || req.Delay?
  }

  ghost predicate RunsOut<B>(reqs: seq<Req<B>>, allocs: seq<bool>)
    requires |allocs| == |reqs|
  {
    exists k :: 0 <= k < |reqs| && NeedsMemory(reqs[k]) && !allocs[k]
  }

  ghost function MemOf(bufs: set<Buffer>): map<Buffer, seq<byte>>
    reads bufs
  {
    map b | b in bufs :: b[..]
  }

  /** The next argument to be freed is still live, and freeing it extends what has been freed. */
  lemma FreeStep(es: seq<SeqEntry>, i: nat)
    requires i < |es| && Unshared(es)
    ensures Allocation(es[i].priv) <= Allocations(es)
    ensures Allocation(es[i].priv) !! Allocations(es[..i])
    ensures Allocations(es[..i + 1]) == Allocations(es[..i]) + Allocation(es[i].priv)
  {
    AllocationOfEntry(es, i);
    assert es[..i + 1][..i] == es[..i];
    NotAmong(es[..i], Allocation(es[i].priv));
  }

  lemma {:induction false} NotAmong(es: seq<SeqEntry>, objects: set<object>)
    requires forall i :: 0 <= i < |es| ==> Allocation(es[i].priv) !! objects
    ensures Allocations(es) !! objects
  {
    if es != [] {
      NotAmong(es[..|es| - 1], objects);
    }
  }

  lemma {:induction false} NoAllocations(es: seq<SeqEntry>)
    requires forall i :: 0 <= i < |es| ==> es[i] == EMPTY_ENTRY
    ensures Allocations(es) == {}
  {
    if es != [] {
      NoAllocations(es[..|es| - 1]);
    }
  }

  lemma {:induction false} AllocationsOfUpdate(es: seq<SeqEntry>, k: nat, e: SeqEntry)
    requires k < |es| && es[k].priv == Null
    ensures Allocations(es[k := e]) == Allocations(es) + Allocation(e.priv)
  {
    var n := |es| - 1;
    if k < n {
      AllocationsOfUpdate(es[..n], k, e);
      assert es[k := e][..n] == es[..n][k := e];
    } else {
      assert es[k := e][..n] == es[..n];
    }
  }

  lemma {:induction false} AllocationOfEntry(es: seq<SeqEntry>, i: nat)
    requires i < |es|
    ensures Allocation(es[i].priv) <= Allocations(es)
  {
    if i < |es| - 1 {
      AllocationOfEntry(es[..|es| - 1], i);
    }
  }

  lemma RecordStep(before: seq<SeqEntry>, after: seq<SeqEntry>, k: nat, e: SeqEntry)
    requires k < |before| && after == before[k := e] && before[k] == EMPTY_ENTRY
    requires Unshared(before) && Allocation(e.priv) !! Allocations(before)
    ensures Allocations(after) == Allocations(before) + Allocation(e.priv)
    ensures Unshared(after)
    ensures after[..k + 1] == before[..k] + [e]
  {
    AllocationsOfUpdate(before, k, e);
    forall i | 0 <= i < |before|
      ensures Allocation(before[i].priv) !! Allocation(e.priv)
    {
      AllocationOfEntry(before, i);
    }
  }
}
