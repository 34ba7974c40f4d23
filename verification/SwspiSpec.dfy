/**
 What a sequence of SPI requests means when each is simply carried out on the spot:
 the buffers' contents and the owner of the bus after it.
 */
module SwspiSpec {
  import opened Bytes
  import opened Digest

  /** A request; `B` stands for the address of a buffer. */
  datatype Req<B> =
    | SetClk
    | CsAssert
    | CsDeassert
    | Xfer(tx: Option<B>, rx: Option<B>, len: nat)
    | Delay(ns: nat)

  datatype World<D, B> = World(owner: Option<D>, mem: map<B, seq<byte>>)

  /** `rand(seed, i)` is the `i`-th number the C library's generator yields after `srand(seed)`. */
  datatype Chip<D> = Chip(dev: D, loopback: bool, rand: (byte, nat) -> nat)

  function RandBytes(rand: (byte, nat) -> nat, seed: byte, n: nat): (s: seq<byte>)
    ensures |s| == n
    ensures forall i :: 0 <= i < n ==> s[i] == (rand(seed, i) % 0xff) as byte
  {
    seq(n, i requires 0 <= i < n => (rand(seed, i) % 0xff) as byte)
  }

  ghost predicate Fits<B>(req: Req<B>, mem: map<B, seq<byte>>) {
    req.Xfer? ==>
      && (req.tx.Some? ==> req.tx.value in mem && req.len <= |mem[req.tx.value]|)
      && (req.rx.Some? ==> req.rx.value in mem && req.len <= |mem[req.rx.value]|)
  }

  ghost predicate AllFit<B>(reqs: seq<Req<B>>, mem: map<B, seq<byte>>) {
    forall i :: 0 <= i < |reqs| ==> Fits(reqs[i], mem)
  }

  /** The bytes a transfer puts at the front of its receive buffer. */
  ghost function Received<D, B>(chip: Chip<D>, req: Req<B>, mem: map<B, seq<byte>>): (s: seq<byte>)
    requires req.Xfer? && Fits(req, mem)
    ensures |s| == req.len
  {
    if chip.loopback then
      if req.tx.Some? then mem[req.tx.value][..req.len] else Zeros(req.len)
    else
      RandBytes(chip.rand, if req.tx.Some? then DigestOf(mem[req.tx.value][..req.len]) else 0, req.len)
  }

  /** One request; `None` when an ownership assertion stops the driver. */
  ghost function ExecOne<D, B>(chip: Chip<D>, w: World<D, B>, req: Req<B>): (r: Option<World<D, B>>)
    requires Fits(req, w.mem)
    ensures r.Some? ==> r.value.mem.Keys == w.mem.Keys
    ensures r.Some? ==> forall b :: b in w.mem ==> |r.value.mem[b]| == |w.mem[b]|
  {
    match req
    case SetClk => Some(w)
    case Delay(_) => Some(w)
    case CsAssert => if w.owner == None then Some(w.(owner := Some(chip.dev))) else None
    case CsDeassert => if w.owner == Some(chip.dev) then Some(w.(owner := None)) else None
    case Xfer(_, rx, len) =>
      if rx.None? then Some(w)
      else Some(w.(mem := w.mem[rx.value := Received(chip, req, w.mem) + w.mem[rx.value][len..]]))
  }

  lemma StillFit<D, B>(chip: Chip<D>, w: World<D, B>, req: Req<B>, reqs: seq<Req<B>>)
    requires Fits(req, w.mem) && AllFit(reqs, w.mem) && ExecOne(chip, w, req).Some?
    ensures AllFit(reqs, ExecOne(chip, w, req).value.mem)
  {
  }

  ghost function ExecAll<D, B>(chip: Chip<D>, w: World<D, B>, reqs: seq<Req<B>>): Option<World<D, B>>
    requires AllFit(reqs, w.mem)
    decreases |reqs|
  {
    if reqs == [] then
      Some(w)
    else
      var first := ExecOne(chip, w, reqs[0]);
      if first.None? then
        None
      else
        StillFit(chip, w, reqs[0], reqs[1..]);
        ExecAll(chip, first.value, reqs[1..])
  }

  /** Carrying out request `i` leaves the requests behind it to be carried out. */
  lemma ExecNext<D, B>(chip: Chip<D>, w: World<D, B>, reqs: seq<Req<B>>, i: nat)
    requires i < |reqs| && AllFit(reqs[i..], w.mem)
    ensures Fits(reqs[i], w.mem)
    ensures ExecOne(chip, w, reqs[i]).None? ==> ExecAll(chip, w, reqs[i..]).None?
    ensures ExecOne(chip, w, reqs[i]).Some? ==>
              var first := ExecOne(chip, w, reqs[i]).value;
              && AllFit(reqs[i + 1..], first.mem)
              && ExecAll(chip, w, reqs[i..]) == ExecAll(chip, first, reqs[i + 1..])
  {
    assert reqs[i..][0] == reqs[i] && reqs[i..][1..] == reqs[i + 1..];
    if ExecOne(chip, w, reqs[i]).Some? {
      var front, rest := reqs[i..], reqs[i + 1..];
      assert forall j :: 0 <= j < |rest| ==> rest[j] == front[j + 1];
      StillFit(chip, w, reqs[i], reqs[i + 1..]);
    }
  }

  // ----- what a sequence leaves in the buffers

  /** The request receives into position `pos` of buffer `b`. */
  ghost predicate ReceivesAt<B>(req: Req<B>, b: B, pos: nat) {
    req.Xfer? && req.rx == Some(b) && pos < req.len
  }

  /** None of the requests from the `from`-th on receives into position `pos` of buffer `b`. */
  ghost predicate NoneReceives<B>(reqs: seq<Req<B>>, from: nat, b: B, pos: nat) {
    forall j :: from <= j < |reqs| ==> !ReceivesAt(reqs[j], b, pos)
  }

  /** Request `i` is the last to receive into position `pos` of buffer `b`. */
  ghost predicate LastReceives<B>(reqs: seq<Req<B>>, i: nat, b: B, pos: nat) {
    i < |reqs| && ReceivesAt(reqs[i], b, pos) && NoneReceives(reqs, i + 1, b, pos)
  }

  /** What a transfer with this transmit side puts into position `pos`, with the buffers as in `mem`. */
  ghost predicate ByteFrom<D, B>(chip: Chip<D>, tx: Option<B>, len: nat, mem: map<B, seq<byte>>, pos: nat, x: byte)
    requires pos < len && (tx.Some? ==> tx.value in mem && len <= |mem[tx.value]|)
  {
    if chip.loopback then
      x == if tx.Some? then mem[tx.value][pos] else 0
    else
      x as nat == chip.rand(if tx.Some? then DigestOf(mem[tx.value][..len]) else 0, pos) % 0xff
  }

  lemma OneTransfer<D, B>(chip: Chip<D>, w: World<D, B>, req: Req<B>, b: B, pos: nat)
    requires Fits(req, w.mem) && ExecOne(chip, w, req).Some? && b in w.mem && pos < |w.mem[b]|
    ensures var x := ExecOne(chip, w, req).value.mem[b][pos];
            if ReceivesAt(req, b, pos) then ByteFrom(chip, req.tx, req.len, w.mem, pos, x) else x == w.mem[b][pos]
  {
  }

  lemma {:induction false} ExecSplit<D, B>(chip: Chip<D>, w: World<D, B>, reqs: seq<Req<B>>, i: nat)
    requires AllFit(reqs, w.mem) && ExecAll(chip, w, reqs).Some? && i <= |reqs|
    ensures ExecAll(chip, w, reqs[..i]).Some?
    ensures var mid := ExecAll(chip, w, reqs[..i]).value;
            AllFit(reqs[i..], mid.mem) && ExecAll(chip, mid, reqs[i..]) == ExecAll(chip, w, reqs)
    decreases i
  {
    if i == 0 {
      assert reqs[..0] == [] && reqs[0..] == reqs;
    } else {
      var first, rest := ExecOne(chip, w, reqs[0]).value, reqs[1..];
      StillFit(chip, w, reqs[0], rest);
      ExecSplit(chip, first, rest, i - 1);
      assert reqs[..i][0] == reqs[0] && reqs[..i][1..] == rest[..i - 1] && reqs[i..] == rest[i - 1..];
    }
  }

  /** A position that no request of a completed sequence receives into keeps its byte. */
  lemma {:induction false} NotReceivedInto<D, B>(chip: Chip<D>, w: World<D, B>, reqs: seq<Req<B>>, b: B, pos: nat)
    requires AllFit(reqs, w.mem) && ExecAll(chip, w, reqs).Some? && b in w.mem && pos < |w.mem[b]|
    requires NoneReceives(reqs, 0, b, pos)
    ensures var mem := ExecAll(chip, w, reqs).value.mem;
            b in mem && |mem[b]| == |w.mem[b]| && mem[b][pos] == w.mem[b][pos]
    decreases |reqs|
  {
    if reqs != [] {
      OneTransfer(chip, w, reqs[0], b, pos);
      StillFit(chip, w, reqs[0], reqs[1..]);
      NotReceivedInto(chip, ExecOne(chip, w, reqs[0]).value, reqs[1..], b, pos);
    }
  }

  /**
   Any other position holds what the last transfer into it received, worked out from
   the transmit bytes as they were when its turn came.
   */
  lemma LastTransferDecides<D, B>(chip: Chip<D>, w: World<D, B>, reqs: seq<Req<B>>, i: nat, b: B, pos: nat)
    requires AllFit(reqs, w.mem) && ExecAll(chip, w, reqs).Some?
    requires LastReceives(reqs, i, b, pos)
    ensures ExecAll(chip, w, reqs[..i]).Some?
    ensures var mid, mem := ExecAll(chip, w, reqs[..i]).value.mem, ExecAll(chip, w, reqs).value.mem;
            && Fits(reqs[i], mid) && b in mem && pos < |mem[b]|
            && ByteFrom(chip, reqs[i].tx, reqs[i].len, mid, pos, mem[b][pos])
  {
    ExecSplit(chip, w, reqs, i);
    var mid, rest := ExecAll(chip, w, reqs[..i]).value, reqs[i..];
    assert rest[0] == reqs[i];
    StillFit(chip, mid, rest[0], rest[1..]);
    OneTransfer(chip, mid, rest[0], b, pos);
    assert forall j :: 0 <= j < |rest[1..]| ==> rest[1..][j] == reqs[i + 1 + j];
    NotReceivedInto(chip, ExecOne(chip, mid, rest[0]).value, rest[1..], b, pos);
  }

  /** Position by position, what a completed sequence leaves in the buffers. */
  ghost predicate Transferred<D, B>(chip: Chip<D>, w: World<D, B>, reqs: seq<Req<B>>, mem: map<B, seq<byte>>)
    requires AllFit(reqs, w.mem)
  {
    && mem.Keys == w.mem.Keys && (forall b :: b in w.mem ==> |mem[b]| == |w.mem[b]|)
    && (forall b, pos :: b in w.mem && 0 <= pos < |w.mem[b]| && NoneReceives(reqs, 0, b, pos) ==>
                           mem[b][pos] == w.mem[b][pos])
    && (forall i: nat, b, pos: nat :: b in w.mem && LastReceives(reqs, i, b, pos) ==>
                                     Delivers(chip, w, reqs, i, mem, b, pos))
  }

  /** Position `pos` of `b` ends up with what request `i` transfers once the requests before it are done. */
  ghost predicate Delivers<D, B>(chip: Chip<D>, w: World<D, B>, reqs: seq<Req<B>>, i: nat,
                                 mem: map<B, seq<byte>>, b: B, pos: nat)
    requires AllFit(reqs, w.mem) && i < |reqs| && ReceivesAt(reqs[i], b, pos)
  {
    var before := ExecAll(chip, w, reqs[..i]);
    && before.Some? && Fits(reqs[i], before.value.mem) && b in mem && pos < |mem[b]|
    && ByteFrom(chip, reqs[i].tx, reqs[i].len, before.value.mem, pos, mem[b][pos])
  }

  lemma CompletedTransfers<D, B>(chip: Chip<D>, w: World<D, B>, reqs: seq<Req<B>>)
    requires AllFit(reqs, w.mem) && ExecAll(chip, w, reqs).Some?
    ensures Transferred(chip, w, reqs, ExecAll(chip, w, reqs).value.mem)
  {
    var mem := ExecAll(chip, w, reqs).value.mem;
    ExecKeepsSizes(chip, w, reqs);
    forall b, pos | b in w.mem && 0 <= pos < |w.mem[b]| && NoneReceives(reqs, 0, b, pos)
      ensures mem[b][pos] == w.mem[b][pos]
    {
      NotReceivedInto(chip, w, reqs, b, pos);
    }
    forall i: nat, b, pos: nat | b in w.mem && LastReceives(reqs, i, b, pos)
      ensures Delivers(chip, w, reqs, i, mem, b, pos)
    {
      LastTransferDecides(chip, w, reqs, i, b, pos);
    }
  }

  // ----- chip select

  /** The chip-select operations of a sequence: true for assert, false for deassert. */
  ghost function CsOps<B>(reqs: seq<Req<B>>): seq<bool> {
    if reqs == [] then
      []
    else
      (match reqs[0] case CsAssert => [true] case CsDeassert => [false] case _ => []) + CsOps(reqs[1..])
  }

  /** Strictly alternating, beginning with `first`. */
  ghost predicate Alternating(ops: seq<bool>, first: bool) {
    forall i :: 0 <= i < |ops| ==> ops[i] == if i % 2 == 0 then first else !first
  }

  lemma AlternatingCons(op: bool, ops: seq<bool>, first: bool)
    ensures Alternating([op] + ops, first) <==> op == first && Alternating(ops, !first)
  {
    var all := [op] + ops;
    if Alternating(all, first) {
      assert all[0] == first;
      forall i | 0 <= i < |ops|
        ensures ops[i] == if i % 2 == 0 then !first else first
      {
        assert all[i + 1] == ops[i];
      }
    }
  }

  /** The operations fit the bus as it is: from the current owner on, assert and deassert take turns. */
  ghost predicate CsFits<D>(owner: Option<D>, dev: D, ops: seq<bool>) {
    if owner == None then Alternating(ops, true)
    else if owner == Some(dev) then Alternating(ops, false)
    else ops == []
  }

  /** The owner after that many operations that fit. */
  ghost function OwnerAfter<D>(owner: Option<D>, dev: D, count: nat): Option<D> {
    if count % 2 == 0 then owner else if owner == None then Some(dev) else None
  }

  /** A commit runs through, without an ownership assertion failing, if and only if the operations fit the bus. */
  lemma {:induction false} CommitCompletesIff<D, B>(chip: Chip<D>, w: World<D, B>, reqs: seq<Req<B>>)
    requires AllFit(reqs, w.mem)
    ensures ExecAll(chip, w, reqs).Some? <==> CsFits(w.owner, chip.dev, CsOps(reqs))
    ensures ExecAll(chip, w, reqs).Some? ==>
              ExecAll(chip, w, reqs).value.owner == OwnerAfter(w.owner, chip.dev, |CsOps(reqs)|)
    decreases |reqs|
  {
    if reqs != [] {
      var rest := CsOps(reqs[1..]);
      if reqs[0].CsAssert? {
        AlternatingCons(true, rest, true);
        AlternatingCons(true, rest, false);
      } else if reqs[0].CsDeassert? {
        AlternatingCons(false, rest, true);
        AlternatingCons(false, rest, false);
      } else {
        assert CsOps(reqs) == rest;
      }
      var first := ExecOne(chip, w, reqs[0]);
      if first.Some? {
        StillFit(chip, w, reqs[0], reqs[1..]);
        CommitCompletesIff(chip, first.value, reqs[1..]);
      }
    }
  }

  /** What leaves the bus as it found it: chip select asserted and released in turns. */
  ghost predicate Balanced<B>(reqs: seq<Req<B>>) {
    Alternating(CsOps(reqs), true) && |CsOps(reqs)| % 2 == 0
  }

  /** Committed sequences of any devices on one bus, in the order in which they are committed. */
  datatype Commit<D, B> = Commit(chip: Chip<D>, reqs: seq<Req<B>>)

  ghost function Commits<D, B>(w: World<D, B>, cs: seq<Commit<D, B>>): Option<World<D, B>>
    requires forall i :: 0 <= i < |cs| ==> AllFit(cs[i].reqs, w.mem)
    decreases |cs|
  {
    if cs == [] then
      Some(w)
    else
      var first := ExecAll(cs[0].chip, w, cs[0].reqs);
      if first.None? then
        None
      else
        AllStillFit(cs[0].chip, w, cs[0].reqs, cs[1..]);
        Commits(first.value, cs[1..])
  }

  lemma {:induction false} ExecKeepsSizes<D, B>(chip: Chip<D>, w: World<D, B>, reqs: seq<Req<B>>)
    requires AllFit(reqs, w.mem) && ExecAll(chip, w, reqs).Some?
    ensures var mem := ExecAll(chip, w, reqs).value.mem;
            mem.Keys == w.mem.Keys && forall b :: b in w.mem ==> |mem[b]| == |w.mem[b]|
    decreases |reqs|
  {
    if reqs != [] {
      StillFit(chip, w, reqs[0], reqs[1..]);
      ExecKeepsSizes(chip, ExecOne(chip, w, reqs[0]).value, reqs[1..]);
    }
  }

  lemma AllStillFit<D, B>(chip: Chip<D>, w: World<D, B>, reqs: seq<Req<B>>, cs: seq<Commit<D, B>>)
    requires AllFit(reqs, w.mem) && ExecAll(chip, w, reqs).Some?
    requires forall i :: 0 <= i < |cs| ==> AllFit(cs[i].reqs, w.mem)
    ensures forall i :: 0 <= i < |cs| ==> AllFit(cs[i].reqs, ExecAll(chip, w, reqs).value.mem)
  {
    ExecKeepsSizes(chip, w, reqs);
  }

  /**
   Balanced sequences, of whatever devices and in whatever order they are committed,
   all complete, and the bus is released after each.
   */
  lemma {:induction false} BalancedCommitsReleaseBus<D, B>(w: World<D, B>, cs: seq<Commit<D, B>>)
    requires forall i :: 0 <= i < |cs| ==> AllFit(cs[i].reqs, w.mem)
    requires w.owner == None && forall i :: 0 <= i < |cs| ==> Balanced(cs[i].reqs)
    ensures Commits(w, cs).Some? && Commits(w, cs).value.owner == None
    decreases |cs|
  {
    if cs != [] {
      CommitCompletesIff(cs[0].chip, w, cs[0].reqs);
      AllStillFit(cs[0].chip, w, cs[0].reqs, cs[1..]);
      BalancedCommitsReleaseBus(ExecAll(cs[0].chip, w, cs[0].reqs).value, cs[1..]);
    }
  }

  lemma {:induction false} AlternatingPrefix<B>(reqs: seq<Req<B>>, k: nat)
    requires k <= |reqs|
    ensures CsOps(reqs[..k]) <= CsOps(reqs)
  {
    if k > 0 {
      AlternatingPrefix(reqs[1..], k - 1);
      assert reqs[..k][1..] == reqs[1..][..k - 1];
    }
  }

  /** While a balanced sequence runs, nobody but its own device ever owns the bus. */
  lemma OnlyCommitterOwnsBus<D, B>(chip: Chip<D>, w: World<D, B>, reqs: seq<Req<B>>, k: nat)
    requires AllFit(reqs, w.mem) && w.owner == None && Balanced(reqs) && k <= |reqs|
    ensures ExecAll(chip, w, reqs[..k]).Some?
    ensures ExecAll(chip, w, reqs[..k]).value.owner in {None, Some(chip.dev)}
  {
    AlternatingPrefix(reqs, k);
    var ops := CsOps(reqs[..k]);
    assert forall i :: 0 <= i < |ops| ==> ops[i] == CsOps(reqs)[i];
    CommitCompletesIff(chip, w, reqs[..k]);
  }
}
