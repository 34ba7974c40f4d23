/** Several devices on one bus and one heap, whose calls into the driver come interleaved in any way. */
module SwspiSharing {
  import opened Bytes
  import opened SwspiSpec
  import opened SwspiDriver

  /** What a device has recorded, if it is in the middle of a sequence. */
  datatype Rec = Resting | Recording(room: nat, reqs: seq<Req<Buffer>>)

  datatype Call = Call(dev: Device, op: Op)

  ghost predicate FitsIn(req: Req<Buffer>, bufs: set<Buffer>) {
    req.Xfer? ==>
      && (req.tx.Some? ==> req.tx.value in bufs && req.len <= req.tx.value.Length)
      && (req.rx.Some? ==> req.rx.value in bufs && req.len <= req.rx.value.Length)
  }

  ghost predicate AllFitIn(reqs: seq<Req<Buffer>>, bufs: set<Buffer>) {
    forall i :: 0 <= i < |reqs| ==> FitsIn(reqs[i], bufs)
  }

  lemma FitsInMemory(reqs: seq<Req<Buffer>>, bufs: set<Buffer>)
    requires AllFitIn(reqs, bufs)
    ensures AllFit(reqs, MemOf(bufs))
  {
  }

  // ----- one device on its own

  /** The order of calls that the driver demands of each device. */
  ghost predicate Legal(r: Rec, op: Op, bufs: set<Buffer>) {
    match op
    case Begin(_, _) => r.Resting?
    case Add(req, _) => r.Recording? && |r.reqs| < r.room && FitsIn(req, bufs)
    case Commit => r.Recording? && |r.reqs| == r.room
    case Abort => r.Recording?
  }

  function AfterOp(r: Rec, op: Op): Rec {
    match op
    case Begin(n, allocOk) => if allocOk then Recording(n, []) else r
    case Add(req, allocOk) =>
      if r.Recording? && (!NeedsMemory(req) || allocOk) then r.(reqs := r.reqs + [req]) else r
    case Commit => Resting
    case Abort => Resting
  }

  ghost predicate AllLegal(r: Rec, ops: seq<Op>, bufs: set<Buffer>)
    decreases |ops|
  {
    ops == [] || (Legal(r, ops[0], bufs) && AllLegal(AfterOp(r, ops[0]), ops[1..], bufs))
  }

  function AfterOps(r: Rec, ops: seq<Op>): Rec
    decreases |ops|
  {
    if ops == [] then r else AfterOps(AfterOp(r, ops[0]), ops[1..])
  }

  /** The calls that device `d` makes, in order. */
  function OwnOps(calls: seq<Call>, d: Device): seq<Op> {
    if calls == [] then [] else (if calls[0].dev == d then [calls[0].op] else []) + OwnOps(calls[1..], d)
  }

  /** The next call changes the outlook of the device that makes it, and of no other. */
  lemma NextCall(calls: seq<Call>, k: nat, d: Device, r: Rec, bufs: set<Buffer>)
    requires k < |calls|
    ensures var now, next := OwnOps(calls[k..], d), OwnOps(calls[k + 1..], d);
            if calls[k].dev == d
            then (AllLegal(r, now, bufs) <==>
                  Legal(r, calls[k].op, bufs) && AllLegal(AfterOp(r, calls[k].op), next, bufs))
              && AfterOps(r, now) == AfterOps(AfterOp(r, calls[k].op), next)
            else now == next
  {
    var now, next := OwnOps(calls[k..], d), OwnOps(calls[k + 1..], d);
    assert calls[k..][1..] == calls[k + 1..];
    if calls[k].dev == d {
      assert now == [calls[k].op] + next && now[1..] == next;
    }
  }

  ghost function Moved(now: map<Device, Rec>, call: Call): (next: map<Device, Rec>)
    requires call.dev in now
    ensures next.Keys == now.Keys
    ensures forall d :: d in now ==> next[d] == if call.dev == d then AfterOp(now[d], call.op) else now[d]
  {
    now[call.dev := AfterOp(now[call.dev], call.op)]
  }

  // ----- what the bus and the buffers see

  /** Only commits do anything there: each carries out what its device has recorded by then. */
  ghost function AfterCall(w: World<Device, Buffer>, r: Rec, call: Call): Option<World<Device, Buffer>> {
    if !call.op.Commit? then Some(w)
    else if r.Recording? && AllFit(r.reqs, w.mem) then ExecAll(call.dev.Chip(), w, r.reqs)
    else None
  }

  ghost function AfterCalls(w: World<Device, Buffer>, recs: map<Device, Rec>, calls: seq<Call>)
    : Option<World<Device, Buffer>>
    decreases |calls|
  {
    if calls == [] then
      Some(w)
    else if calls[0].dev !in recs then
      None
    else
      var r := recs[calls[0].dev];
      var next := AfterCall(w, r, calls[0]);
      if next.None? then None
      else AfterCalls(next.value, Moved(recs, calls[0]), calls[1..])
  }

  lemma NextInWorld(w: World<Device, Buffer>, recs: map<Device, Rec>, calls: seq<Call>, k: nat)
    requires k < |calls| && calls[k].dev in recs
    ensures var r := recs[calls[k].dev];
            var next := AfterCall(w, r, calls[k]);
            AfterCalls(w, recs, calls[k..]) ==
            if next.None? then None
            else AfterCalls(next.value, Moved(recs, calls[k]), calls[k + 1..])
  {
    assert calls[k..][0] == calls[k] && calls[k..][1..] == calls[k + 1..];
  }

  // ----- all of them

  ghost function OwnerOf(bus: Bus): Option<Device>
    reads bus
  {
    if bus.owner == null then None else Some(bus.owner)
  }

  ghost function WorldOf(bus: Bus, bufs: set<Buffer>): World<Device, Buffer>
    reads bus, bufs
  {
    World(OwnerOf(bus), MemOf(bufs))
  }

  /** A device is idle or recording requests on these buffers. */
  ghost predicate Fine(d: Device, bufs: set<Buffer>)
    reads d, d.cmds
  {
    d.Idle() || (d.Begun() && AllFitIn(d.Reqs(), bufs))
  }

  ghost function RecOf(d: Device): Rec
    requires d.Idle() || d.Begun()
    reads d, d.cmds
  {
    if d.cmds == null then Resting else Recording(d.numCmds, d.Reqs())
  }

  ghost function OwnedBy(d: Device): set<object>
    requires d.Idle() || d.Begun()
    reads d, d.cmds
  {
    if d.cmds == null then {} else d.Owned()
  }

  ghost function Memory(devs: set<Device>): set<array<SeqEntry>>
    reads devs
  {
    set d | d in devs && d.cmds != null :: d.cmds
  }

  /** Every device is fine with its memory live, and no two share any of it. */
  ghost predicate Together(devs: set<Device>, heap: Heap, bus: Bus, bufs: set<Buffer>)
    reads devs, heap, Memory(devs)
  {
    && (forall d :: d in devs ==> d.heap == heap && d.bus == bus)
    && (forall d :: d in devs ==> Fine(d, bufs) && OwnedBy(d) <= heap.live)
    && (forall d, e :: d in devs && e in devs && d != e ==> OwnedBy(d) !! OwnedBy(e))
  }

  /** One call of one device, by what it means for that device and for the heap. */
  method PerformOne(d: Device, op: Op, ghost bufs: set<Buffer>) returns (ok: bool)
    requires Fine(d, bufs) && OwnedBy(d) <= d.heap.live && Legal(RecOf(d), op, bufs)
    modifies d, d.cmds, d.heap, d.bus, bufs
    ensures d.cmds == null || d.cmds == old(d.cmds) || fresh(d.cmds)
    ensures old(d.heap.live) - old(OwnedBy(d)) <= d.heap.live
    ensures ok || !op.Commit? ==>
              && Fine(d, bufs) && RecOf(d) == AfterOp(old(RecOf(d)), op)
              && OwnedBy(d) <= d.heap.live && fresh(OwnedBy(d) - old(OwnedBy(d)))
    ensures var next := AfterCall(old(WorldOf(d.bus, bufs)), old(RecOf(d)), Call(d, op));
            if ok || !op.Commit? then next == Some(WorldOf(d.bus, bufs)) else next.None?
  {
    if d.cmds != null {
      FitsInMemory(d.Reqs(), bufs);
    }
    ok := d.Operate(op, bufs);
  }

  lemma OwnMemory(d: Device, e: Device)
    requires (d.Idle() || d.Begun()) && (e.Idle() || e.Begun()) && OwnedBy(d) !! OwnedBy(e)
    ensures d.cmds != null ==> d.cmds != e.cmds
  {
    assert d.cmds != null ==> d.cmds in OwnedBy(d);
    assert e.cmds != null ==> e.cmds in OwnedBy(e);
  }

  /** One call, by one of the devices. A commit that is not `ok` has been stopped by an ownership assertion. */
  method Perform(ghost devs: set<Device>, call: Call, ghost heap: Heap, ghost bus: Bus, ghost bufs: set<Buffer>)
    returns (ok: bool)
    requires Together(devs, heap, bus, bufs) && call.dev in devs
    requires Legal(RecOf(call.dev), call.op, bufs)
    modifies call.dev, call.dev.cmds, heap, bus, bufs
    ensures ok || !call.op.Commit? ==> Together(devs, heap, bus, bufs)
    ensures ok || !call.op.Commit? ==>
              forall d :: d in devs ==>
                RecOf(d) == if d == call.dev then AfterOp(old(RecOf(d)), call.op) else old(RecOf(d))
    ensures var next := AfterCall(old(WorldOf(bus, bufs)), old(RecOf(call.dev)), call);
            if ok || !call.op.Commit? then next == Some(WorldOf(bus, bufs)) else next.None?
    ensures call.dev.cmds == null || call.dev.cmds == old(call.dev.cmds) || fresh(call.dev.cmds)
  {
    forall d | d in devs && d != call.dev
      ensures d.cmds != null ==> d.cmds != call.dev.cmds
    {
      OwnMemory(d, call.dev);
    }
    ok := PerformOne(call.dev, call.op, bufs);
    assert forall d :: d in devs && d != call.dev ==>
      Fine(d, bufs) && RecOf(d) == old(RecOf(d)) && OwnedBy(d) == old(OwnedBy(d));
  }

  // ----- all calls

  /** These are the devices' recordings. */
  ghost predicate Recs(devs: set<Device>, recs: map<Device, Rec>, bufs: set<Buffer>)
    reads devs, Memory(devs)
  {
    recs.Keys == devs && forall d :: d in devs ==> Fine(d, bufs) && recs[d] == RecOf(d)
  }

  ghost predicate CourseOf(now: Rec, start: Rec, calls: seq<Call>, k: nat, d: Device, bufs: set<Buffer>)
    requires k <= |calls|
  {
    AllLegal(now, OwnOps(calls[k..], d), bufs) &&
    AfterOps(now, OwnOps(calls[k..], d)) == AfterOps(start, OwnOps(calls, d))
  }

  /** Every device keeps to the protocol from call `k` on and ends up as its own calls have it. */
  ghost predicate OnCourse(now: map<Device, Rec>, recs: map<Device, Rec>, calls: seq<Call>, k: nat, bufs: set<Buffer>)
    requires k <= |calls|
  {
    now.Keys == recs.Keys && forall d :: d in recs ==> CourseOf(now[d], recs[d], calls, k, d, bufs)
  }

  lemma CourseGoesOn(now: Rec, start: Rec, calls: seq<Call>, k: nat, d: Device, bufs: set<Buffer>)
    requires k < |calls| && CourseOf(now, start, calls, k, d, bufs)
    ensures calls[k].dev == d ==> Legal(now, calls[k].op, bufs)
    ensures CourseOf(if calls[k].dev == d then AfterOp(now, calls[k].op) else now, start, calls, k + 1, d, bufs)
  {
    NextCall(calls, k, d, now, bufs);
  }

  lemma Advance(now: map<Device, Rec>, recs: map<Device, Rec>, calls: seq<Call>, k: nat, bufs: set<Buffer>)
    requires k < |calls| && OnCourse(now, recs, calls, k, bufs) && calls[k].dev in recs
    ensures Legal(now[calls[k].dev], calls[k].op, bufs)
    ensures OnCourse(Moved(now, calls[k]), recs, calls, k + 1, bufs)
  {
    forall d | d in recs
      ensures calls[k].dev == d ==> Legal(now[d], calls[k].op, bufs)
      ensures CourseOf(Moved(now, calls[k])[d], recs[d], calls, k + 1, d, bufs)
    {
      CourseGoesOn(now[d], recs[d], calls, k, d, bufs);
    }
  }

  lemma Departing(recs: map<Device, Rec>, calls: seq<Call>, bufs: set<Buffer>)
    requires forall d :: d in recs ==> AllLegal(recs[d], OwnOps(calls, d), bufs)
    ensures OnCourse(recs, recs, calls, 0, bufs) && calls[0..] == calls
  {
    assert calls[0..] == calls;
  }

  lemma Arrived(now: map<Device, Rec>, recs: map<Device, Rec>, calls: seq<Call>, bufs: set<Buffer>)
    requires OnCourse(now, recs, calls, |calls|, bufs)
    ensures forall d :: d in recs ==> now[d] == AfterOps(recs[d], OwnOps(calls, d))
  {
    forall d | d in recs
      ensures now[d] == AfterOps(recs[d], OwnOps(calls, d))
    {
      assert CourseOf(now[d], recs[d], calls, |calls|, d, bufs);
      assert OwnOps(calls[|calls|..], d) == [];
    }
  }

  /** The next call of an interleaving, on the devices and on what has been noted about them. */
  method PerformNext(ghost devs: set<Device>, ghost now: map<Device, Rec>, call: Call,
                     ghost heap: Heap, ghost bus: Bus, ghost bufs: set<Buffer>)
    returns (ok: bool, ghost next: map<Device, Rec>)
    requires Together(devs, heap, bus, bufs) && Recs(devs, now, bufs)
    requires call.dev in devs && Legal(now[call.dev], call.op, bufs)
    modifies devs, Memory(devs), heap, bus, bufs
    ensures next == Moved(now, call)
    ensures ok ==> Together(devs, heap, bus, bufs) && Recs(devs, next, bufs)
    ensures AfterCall(old(WorldOf(bus, bufs)), now[call.dev], call) == if ok then Some(WorldOf(bus, bufs)) else None
    ensures fresh(Memory(devs) - old(Memory(devs)))
  {
    next := Moved(now, call);
    ok := Perform(devs, call, heap, bus, bufs);
    ok := ok || !call.op.Commit?;
  }

  /** Call `k` of an interleaving, and what is left to be done after it. */
  method PerformCall(ghost devs: set<Device>, ghost now: map<Device, Rec>, ghost recs: map<Device, Rec>,
                     calls: seq<Call>, k: nat, ghost heap: Heap, ghost bus: Bus, ghost bufs: set<Buffer>)
    returns (ok: bool, ghost next: map<Device, Rec>)
    requires Together(devs, heap, bus, bufs) && Recs(devs, now, bufs)
    requires k < |calls| && calls[k].dev in devs && OnCourse(now, recs, calls, k, bufs)
    modifies devs, Memory(devs), heap, bus, bufs
    ensures ok ==> Together(devs, heap, bus, bufs) && Recs(devs, next, bufs)
    ensures OnCourse(next, recs, calls, k + 1, bufs)
    ensures AfterCalls(old(WorldOf(bus, bufs)), now, calls[k..])
            == if ok then AfterCalls(WorldOf(bus, bufs), next, calls[k + 1..]) else None
    ensures fresh(Memory(devs) - old(Memory(devs)))
  {
    Advance(now, recs, calls, k, bufs);
    NextInWorld(WorldOf(bus, bufs), now, calls, k);
    ok, next := PerformNext(devs, now, calls[k], heap, bus, bufs);
  }

  method PerformFrom(ghost devs: set<Device>, ghost now: map<Device, Rec>, ghost recs: map<Device, Rec>,
                     calls: seq<Call>, k: nat, ghost heap: Heap, ghost bus: Bus, ghost bufs: set<Buffer>)
    returns (completed: bool, ghost end: map<Device, Rec>)
    requires Together(devs, heap, bus, bufs) && Recs(devs, now, bufs)
    requires k <= |calls| && (forall i :: 0 <= i < |calls| ==> calls[i].dev in devs)
    requires OnCourse(now, recs, calls, k, bufs)
    modifies devs, Memory(devs), heap, bus, bufs
    ensures completed ==>
              Together(devs, heap, bus, bufs) && Recs(devs, end, bufs) && OnCourse(end, recs, calls, |calls|, bufs)
    ensures AfterCalls(old(WorldOf(bus, bufs)), now, calls[k..])
            == if completed then Some(WorldOf(bus, bufs)) else None
    decreases |calls| - k
  {
    if k == |calls| {
      return true, now;
    }
    var ok;
    ghost var next: map<Device, Rec>;
    ok, next := PerformCall(devs, now, recs, calls, k, heap, bus, bufs);
    if !ok {
      return false, next;
    }
    completed, end := PerformFrom(devs, next, recs, calls, k + 1, heap, bus, bufs);
  }

  /**
   Any interleaving in which every device keeps to the protocol on its own. It runs
   through unless an ownership assertion stops a commit; then each device ends up with
   what its own calls recorded, and bus and buffers are as if only the commits had
   happened, in their order, each on what its device had recorded. `recs` names what
   the devices have recorded at the beginning.
   */
  method PerformAll(ghost devs: set<Device>, ghost recs: map<Device, Rec>, calls: seq<Call>,
                    ghost heap: Heap, ghost bus: Bus, ghost bufs: set<Buffer>)
    returns (completed: bool)
    requires Together(devs, heap, bus, bufs) && Recs(devs, recs, bufs)
    requires forall k :: 0 <= k < |calls| ==> calls[k].dev in devs
    requires forall d :: d in devs ==> AllLegal(recs[d], OwnOps(calls, d), bufs)
    modifies devs, Memory(devs), heap, bus, bufs
    ensures completed ==> Together(devs, heap, bus, bufs)
    ensures completed ==> forall d :: d in devs ==> RecOf(d) == AfterOps(recs[d], OwnOps(calls, d))
    ensures AfterCalls(old(WorldOf(bus, bufs)), recs, calls) == if completed then Some(WorldOf(bus, bufs)) else None
  {
    ghost var end: map<Device, Rec>;
    Departing(recs, calls, bufs);
    completed, end := PerformFrom(devs, recs, recs, calls, 0, heap, bus, bufs);
    if completed {
      Arrived(end, recs, calls, bufs);
    }
  }
}
