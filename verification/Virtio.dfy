/** virtio_disk.c: the descriptor protocol between the driver and the device. The device
    is a nondeterministic partner: it takes published chains in order and completes taken
    ones in any order. */
module Virtio {
  const NUM := 8
  const IDX := 65536
  const SECTORS_PER_BLOCK := 2

  /** The first sector of a block, multiplied in 32 bits. */
  function Sector(blockno: nat): nat {
    blockno * SECTORS_PER_BLOCK % 0x1_0000_0000
  }

  /** Two blocks have sectors of their own if and only if they are not 2^31 apart. */
  lemma SectorsApart(a: nat, b: nat)
    requires a < b < 0x1_0000_0000
    ensures Sector(a) == Sector(b) <==> b == a + 0x8000_0000
    ensures Sector(a) == a * SECTORS_PER_BLOCK <==> a < 0x8000_0000
  {
  }

  /** What a descriptor's address points at. */
  datatype Target = Nothing | Op(head: nat) | Data(buf: nat) | Status(head: nat)

  /** next is valid when hasNext (VRING_DESC_F_NEXT); devWrites is VRING_DESC_F_WRITE. */
  datatype Desc = Desc(target: Target, hasNext: bool, devWrites: bool, next: nat)

  const NO_DESC := Desc(Nothing, false, false, 0)

  datatype Phase = Published | Taken | Completed | Seen

  /** A request in flight, by its head descriptor: the other two descriptors, the buffer,
      and how far it has come. */
  datatype Req = Req(d1: nat, d2: nat, buf: nat, write: bool, sector: nat, phase: Phase)

  // Counting free descriptors.

  function CountFree(free: seq<bool>): nat {
    if free == [] then 0 else (if free[|free| - 1] then 1 else 0) + CountFree(free[..|free| - 1])
  }

  lemma {:induction false} CountSet(free: seq<bool>, i: nat, v: bool)
    requires i < |free|
    ensures CountFree(free[i := v]) == CountFree(free) + (if v then 1 else 0) - (if free[i] then 1 else 0)
    decreases free
  {
    var n := |free| - 1;
    if i == n {
      assert free[i := v][..n] == free[..n];
    } else {
      assert free[i := v][..n] == free[..n][i := v];
      CountSet(free[..n], i, v);
    }
  }

  lemma {:induction false} CountBound(free: seq<bool>)
    ensures CountFree(free) <= |free|
    decreases free
  {
    if free != [] {
      CountBound(free[..|free| - 1]);
    }
  }

  lemma {:induction false} DistinctSize(s: seq<nat>, t: set<nat>)
    requires (forall i, j :: 0 <= i < j < |s| ==> s[i] != s[j]) && forall i :: 0 <= i < |s| ==> s[i] in t
    ensures |s| <= |t|
    decreases s
  {
    if s != [] {
      var n := |s| - 1;
      DistinctSize(s[..n], t - {s[n]});
    }
  }

  // Chains.

  datatype BlkReq = BlkReq(write: bool, sector: nat)

  /** disk.desc, disk.free, disk.ops, disk.info[].b and disk.info[].status, and the buffers
      with b->disk == 1. */
  datatype Regs = Regs(desc: seq<Desc>, free: seq<bool>, ops: seq<BlkReq>, info: seq<int>, status: seq<nat>,
                       busy: set<nat>)

  predicate Sized(r: Regs) {
    |r.desc| == |r.free| == |r.ops| == |r.info| == |r.status| == NUM
  }

  /** For the proofs: the requests by head, the request that each descriptor belongs to, -1
      for none, and the request that each buffer is in. */
  datatype Book = Book(reqs: map<nat, Req>, owner: seq<int>, carrier: map<nat, nat>)

  const NONE := -1

  /** The chain of request h is operation, data, status, as the device reads it; its three
      descriptors and its buffer belong to it alone. */
  ghost predicate ReqOk(r: Regs, k: Book, h: nat)
    requires Sized(r) && |k.owner| == NUM
  {
    h in k.reqs ==>
      var q := k.reqs[h];
      && h < NUM && q.d1 < NUM && q.d2 < NUM && h != q.d1 && h != q.d2 && q.d1 != q.d2
      && k.owner[h] == k.owner[q.d1] == k.owner[q.d2] == h && q.buf in k.carrier && k.carrier[q.buf] == h
      && r.desc[h] == Desc(Op(h), true, false, q.d1)
      && r.desc[q.d1] == Desc(Data(q.buf), true, !q.write, q.d2)
      && r.desc[q.d2] == Desc(Status(h), false, true, 0)
      && r.ops[h] == BlkReq(q.write, q.sector) && r.info[h] == q.buf
      && (q.buf in r.busy <==> !q.phase.Seen?)
  }

  ghost predicate Chains(r: Regs, k: Book) {
    && Sized(r) && |k.owner| == NUM
    && (forall h :: ReqOk(r, k, h))
    && (forall i :: 0 <= i < NUM ==> (r.free[i] <==> k.owner[i] == NONE))
    && CountFree(r.free) + 3 * |k.reqs| == NUM
  }

  // Rings with 16-bit indices.

  function Slot(idx: nat, i: nat): nat {
    (idx + i) % NUM
  }

  /** The entries from idx on are the queue. */
  ghost predicate Queued(ring: seq<nat>, idx: nat, queue: seq<nat>) {
    |queue| <= NUM && forall i :: QueuedAt(ring, idx, queue, i)
  }

  predicate QueuedAt(ring: seq<nat>, idx: nat, queue: seq<nat>, i: nat) {
    i < |queue| ==> Slot(idx, i) < |ring| && ring[Slot(idx, i)] == queue[i]
  }

  /** Index wrap is harmless because NUM divides 65536. */
  lemma WrapSlot(idx: nat, i: nat)
    ensures (idx + i) % IDX % NUM == (idx + i) % NUM
  {
    var x := idx + i;
    var q, r := x / IDX, x % IDX;
    DropWhole(q, r);
    assert x == IDX * q + r;
  }

  lemma DropWhole(q: nat, r: nat)
    ensures (IDX * q + r) % NUM == r % NUM
  {
    RemainderIs(IDX * q + r, 8192 * q + r / NUM, r % NUM);
  }

  lemma RemainderIs(x: nat, q: nat, b: nat)
    requires x == NUM * q + b && b < NUM
    ensures x % NUM == b
  {
  }

  lemma NextSlot(idx: nat, i: nat)
    ensures Slot((idx + 1) % IDX, i) == Slot(idx, i + 1)
  {
    WrapSlot(idx, 1);
    var x := idx + 1;
    assert x % IDX % NUM == x % NUM;
    AddMod(x % IDX, i);
    AddMod(x, i);
  }

  lemma AddMod(x: nat, i: nat)
    ensures (x + i) % NUM == (x % NUM + i) % NUM
  {
  }

  /** Adding at the end overwrites no entry of the queue. */
  lemma Enqueue(ring: seq<nat>, idx: nat, queue: seq<nat>, h: nat)
    requires |ring| == NUM && Queued(ring, idx, queue) && |queue| < NUM
    ensures Queued(ring[(idx + |queue|) % IDX % NUM := h], idx, queue + [h])
  {
    WrapSlot(idx, |queue|);
    var ring', more := ring[(idx + |queue|) % IDX % NUM := h], queue + [h];
    forall i: nat
      ensures QueuedAt(ring', idx, more, i)
    {
      assert QueuedAt(ring, idx, queue, i);
      if i < |queue| {
        SlotsApart(idx, i, |queue|);
      }
    }
  }

  lemma SlotsApart(idx: nat, i: nat, j: nat)
    requires i < j < NUM
    ensures Slot(idx, i) != Slot(idx, j)
  {
  }

  lemma Dequeue(ring: seq<nat>, idx: nat, queue: seq<nat>)
    requires |ring| == NUM && Queued(ring, idx, queue) && queue != []
    ensures ring[idx % NUM] == queue[0] && Queued(ring, (idx + 1) % IDX, queue[1..])
  {
    assert QueuedAt(ring, idx, queue, 0);
    var rest, idx' := queue[1..], (idx + 1) % IDX;
    forall i: nat
      ensures QueuedAt(ring, idx', rest, i)
    {
      NextSlot(idx, i);
      assert QueuedAt(ring, idx, queue, i + 1);
    }
  }

  /** Equal 16-bit indices mean an empty queue. */
  lemma SameIndex(idx: nat, n: nat)
    requires n <= NUM && idx < IDX
    ensures (idx + n) % IDX == idx <==> n == 0
  {
  }

  /** The ring between two 16-bit indices holds the queue. */
  ghost predicate RingOk(ring: seq<nat>, head: nat, tail: nat, queue: seq<nat>) {
    |ring| == NUM && head < IDX && tail < IDX && Queued(ring, head, queue) && tail == (head + |queue|) % IDX
  }

  lemma RingPush(ring: seq<nat>, head: nat, tail: nat, queue: seq<nat>, h: nat)
    requires RingOk(ring, head, tail, queue) && |queue| < NUM
    ensures RingOk(ring[tail % NUM := h], head, (tail + 1) % IDX, queue + [h])
  {
    Enqueue(ring, head, queue, h);
  }

  lemma RingPop(ring: seq<nat>, head: nat, tail: nat, queue: seq<nat>)
    requires RingOk(ring, head, tail, queue)
    ensures head == tail <==> queue == []
    ensures head != tail ==> ring[head % NUM] == queue[0] && RingOk(ring, (head + 1) % IDX, tail, queue[1..])
  {
    SameIndex(head, |queue|);
    if queue != [] {
      Dequeue(ring, head, queue);
      IndexNext(head, |queue|);
    }
  }

  // The driver and the device.

  /** The queue holds, once each, the requests of a phase. */
  ghost predicate InPhase(queue: seq<nat>, reqs: map<nat, Req>, phase: Phase) {
    && (forall i, j :: 0 <= i < j < |queue| ==> queue[i] != queue[j])
    && (forall i :: 0 <= i < |queue| ==> queue[i] in reqs && reqs[queue[i]].phase == phase)
    && forall h :: h in reqs && reqs[h].phase == phase ==> h in queue
  }

  /** Request h has been seen if it is among the first n completions, and is else as it was. */
  predicate SeenUpTo(before: map<nat, Req>, after: map<nat, Req>, done: seq<nat>, n: nat, h: nat) {
    n <= |done| && (h in before && h in after ==>
      after[h] == if h in done[..n] then before[h].(phase := Seen) else before[h])
  }

  /** The first n completions have been handled, all without error. */
  ghost predicate Handled(before: map<nat, Req>, after: map<nat, Req>, done0: seq<nat>, done: seq<nat>,
                          status: seq<nat>, n: nat) {
    && n <= |done0| && done == done0[n..] && (forall i :: 0 <= i < |done0| ==> done0[i] < |status|)
    && (forall i :: 0 <= i < n ==> status[done0[i]] == 0)
    && before.Keys == after.Keys && forall h :: SeenUpTo(before, after, done0, n, h)
  }

  lemma OneMoreSeen(before: map<nat, Req>, mid: map<nat, Req>, after: map<nat, Req>, done0: seq<nat>, done: seq<nat>,
                    status: seq<nat>, n: nat, m: nat)
    requires Handled(before, mid, done0, done, status, n) && m == n + 1 && done != [] && done[0] in mid
             && status[done[0]] == 0
    requires (forall i, j :: 0 <= i < j < |done0| ==> done0[i] != done0[j])
             && after == mid[done[0] := mid[done[0]].(phase := Seen)]
    ensures Handled(before, after, done0, done[1..], status, m)
  {
    assert done0[..m] == done0[..n] + [done0[n]];
    forall h: nat
      ensures SeenUpTo(before, after, done0, m, h)
    {
      assert SeenUpTo(before, mid, done0, n, h);
    }
  }

  lemma AllSeen(before: map<nat, Req>, after: map<nat, Req>, done: seq<nat>)
    requires InPhase(done, before, Completed) && before.Keys == after.Keys
    requires forall h :: SeenUpTo(before, after, done, |done|, h)
    ensures forall h :: h in after ==>
              after[h] == if before[h].phase.Completed? then before[h].(phase := Seen) else before[h]
  {
    assert done[..|done|] == done;
    forall h | h in after
      ensures after[h] == if before[h].phase.Completed? then before[h].(phase := Seen) else before[h]
    {
      assert SeenUpTo(before, after, done, |done|, h);
    }
  }

  lemma DoneInRange(r: Regs, k: Book, done: seq<nat>)
    requires Chains(r, k) && InPhase(done, k.reqs, Completed)
    ensures forall i :: 0 <= i < |done| ==> done[i] < NUM
  {
    forall i | 0 <= i < |done|
      ensures done[i] < NUM
    {
      assert ReqOk(r, k, done[i]);
    }
  }

  class Disk {
    var r: Regs
    var availRing: seq<nat>
    var availIdx: nat
    var usedRing: seq<nat>
    var usedIdx: nat
    // disk.used_idx, and the device's own place in the avail ring.
    var seenIdx: nat
    var devIdx: nat
    ghost var k: Book
    ghost var pend: seq<nat>
    ghost var done: seq<nat>

    ghost predicate Rings()
      reads this
    {
      && InPhase(pend, k.reqs, Published) && RingOk(availRing, devIdx, availIdx, pend)
      && InPhase(done, k.reqs, Completed) && RingOk(usedRing, seenIdx, usedIdx, done)
    }

    ghost predicate Valid()
      reads this
    {
      Chains(r, k) && Rings()
    }

    /** As virtio_disk_init leaves it: every descriptor free, both rings empty. */
    constructor ()
      ensures Valid() && k.reqs == map[] && pend == done == [] && forall i :: 0 <= i < NUM ==> r.free[i]
    {
      r := Regs(seq(NUM, _ => NO_DESC), seq(NUM, _ => true), seq(NUM, _ => BlkReq(false, 0)), seq(NUM, _ => NONE),
                seq(NUM, _ => 0), {});
      availRing, availIdx, usedRing, usedIdx, seenIdx, devIdx := seq(NUM, _ => 0), 0, seq(NUM, _ => 0), 0, 0, 0;
      k, pend, done := Book(map[], seq(NUM, _ => NONE), map[]), [], [];
      new;
      AllFree(r.free);
    }

    /** Mark the first free descriptor as used; -1 if there is none. */
    method AllocDesc() returns (i: int)
      requires Sized(r)
      modifies this`r
      ensures Sized(r)
      ensures i == -1 ==> r == old(r) && forall j :: 0 <= j < NUM ==> !r.free[j]
      ensures i != -1 ==> 0 <= i < NUM && old(r).free[i] && r == old(r).(free := old(r).free[i := false])
      ensures i != -1 ==> forall j :: 0 <= j < i ==> !old(r).free[j]
    {
      i := 0;
      while i < NUM
        invariant 0 <= i <= NUM && r == old(r) && forall j :: 0 <= j < i ==> !r.free[j]
      {
        if r.free[i] {
          r := r.(free := r.free[i := false]);
          return;
        }
        i := i + 1;
      }
      return -1;
    }

    /** Give a descriptor back; out of range or already free is a panic. */
    method FreeDesc(i: nat) returns (panic: bool)
      requires Sized(r)
      modifies this`r
      ensures panic <==> i >= NUM || old(r).free[i]
      ensures panic ==> r == old(r)
      ensures Sized(r)
      ensures !panic ==> r == old(r).(free := old(r).free[i := true], desc := old(r).desc[i := NO_DESC])
    {
      if i >= NUM {
        return true;
      }
      if r.free[i] {
        return true;
      }
      r := r.(desc := r.desc[i := NO_DESC]);
      r := r.(free := r.free[i := true]);
      return false;
    }

    /** Three descriptors, or none. */
    method Alloc3() returns (ok: bool, d0: nat, d1: nat, d2: nat)
      requires Sized(r)
      modifies this`r
      ensures Sized(r)
      ensures ok <==> CountFree(old(r).free) >= 3
      ensures ok ==> d0 < NUM && d1 < NUM && d2 < NUM && d0 != d1 && d0 != d2 && d1 != d2
                     && old(r).free[d0] && old(r).free[d1] && old(r).free[d2]
                     && r == old(r).(free := old(r).free[d0 := false][d1 := false][d2 := false])
      ensures !ok ==> r == old(r).(desc := r.desc) && forall i :: 0 <= i < NUM && !r.free[i] ==>
                r.desc[i] == old(r).desc[i]
    {
      d0, d1, d2 := 0, 0, 0;
      var i := AllocDesc();
      if i < 0 {
        NoneFree(r.free);
        return false, 0, 0, 0;
      }
      d0 := i;
      CountSet(old(r).free, d0, false);
      ghost var f1 := r.free;
      i := AllocDesc();
      if i < 0 {
        NoneFree(r.free);
        var panic := FreeDesc(d0);
        return false, 0, 0, 0;
      }
      d1 := i;
      CountSet(f1, d1, false);
      ghost var f2 := r.free;
      i := AllocDesc();
      if i < 0 {
        NoneFree(r.free);
        var panic := FreeDesc(d0);
        panic := FreeDesc(d1);
        return false, 0, 0, 0;
      }
      d2 := i;
      CountSet(f2, d2, false);
      ok := true;
    }

    /** virtio_disk_rw up to the wait: publish a request for an idle buffer. False: there
        are not three free descriptors, and the caller sleeps. */
    method Submit(b: nat, write: bool, blockno: nat) returns (ok: bool, h: nat)
      requires Valid() && b !in r.busy && b !in k.carrier
      modifies this
      ensures Valid() && (ok <==> 3 * |old(k).reqs| + 3 <= NUM)
      ensures !ok ==> k == old(k) && pend == old(pend) && done == old(done)
      ensures ok ==> h !in old(k).reqs && h in k.reqs && k.reqs == old(k).reqs[h := k.reqs[h]] && b in r.busy
                     && k.reqs[h].buf == b && k.reqs[h].write == write
                         && k.reqs[h].sector == Sector(blockno)
                     && k.reqs[h].phase.Published? && pend == old(pend) + [h] && done == old(done)
    {
      ghost var r0 := r;
      var d1, d2;
      ok, h, d1, d2 := Alloc3();
      if !ok {
        StillChained(r0, k, r);
        return;
      }
      ghost var q := Req(d1, d2, b, write, Sector(blockno), Published);
      NewChain(r0, k, h, q);
      Format(h, d1, d2, b, write, Sector(blockno));
      assert r == Formatted(r0, h, q);
      Publish(h, q);
      k := Opened(k, h, q);
    }

    /** Fill in the three descriptors, the operation, the status byte and the buffer. */
    method Format(h: nat, d1: nat, d2: nat, b: nat, write: bool, sector: nat)
      requires Sized(r) && h < NUM && d1 < NUM && d2 < NUM
      modifies this`r
      ensures Sized(r) && r.free == old(r).free && r.ops == old(r).ops[h := BlkReq(write, sector)]
      ensures r.desc == old(r).desc[h := Desc(Op(h), true, false, d1)]
                        [d1 := Desc(Data(b), true, !write, d2)][d2 := Desc(Status(h), false, true, 0)]
      ensures r.status == old(r).status[h := 0xff] && r.busy == old(r).busy + {b} && r.info == old(r).info[h := b]
    {
      r := r.(ops := r.ops[h := BlkReq(write, sector)]);
      r := r.(desc := r.desc[h := Desc(Op(h), true, false, d1)]);
      r := r.(desc := r.desc[d1 := Desc(Data(b), true, !write, d2)]);
      r := r.(status := r.status[h := 0xff]);
      r := r.(desc := r.desc[d2 := Desc(Status(h), false, true, 0)]);
      r := r.(busy := r.busy + {b});
      r := r.(info := r.info[h := b]);
    }

    /** Put the head on the avail ring; no entry the device has not taken is overwritten. */
    method Publish(h: nat, ghost q: Req)
      requires Rings() && h !in k.reqs && q.phase.Published? && 3 * |k.reqs| <= NUM
      modifies this`availRing, this`availIdx, this`pend
      ensures pend == old(pend) + [h] && RingOk(availRing, devIdx, availIdx, pend)
      ensures InPhase(pend, k.reqs[h := q], Published) && InPhase(done, k.reqs[h := q], Completed)
    {
      FewerThanNum(k.reqs, pend, Published);
      RingPush(availRing, devIdx, availIdx, pend, h);
      PhaseAdd(pend, k.reqs, h, q);
      PhaseOther(done, k.reqs, h, q, Completed);
      availRing := availRing[availIdx % NUM := h];
      availIdx := (availIdx + 1) % IDX;
      pend := pend + [h];
    }

    // The device.

    /** The device takes the next published chain and reads the request from it. */
    method Take() returns (h: nat, write: bool, sector: nat, buf: nat)
      requires Valid() && devIdx != availIdx
      modifies this`devIdx, this`pend, this`k
      ensures Valid() && h in old(k).reqs && old(pend) == [h] + pend && done == old(done)
      ensures old(k).reqs[h].phase.Published? && k.reqs == old(k).reqs[h := old(k).reqs[h].(phase := Taken)]
      ensures write == k.reqs[h].write && sector == k.reqs[h].sector && buf == k.reqs[h].buf
    {
      h := NextAvail();
      assert ReqOk(r, k, h);
      write, sector := r.ops[h].write, r.ops[h].sector;
      buf := r.desc[r.desc[h].next].target.buf;
      ghost var q := k.reqs[h].(phase := Taken);
      Advance(r, k, h, q);
      k := k.(reqs := k.reqs[h := q]);
    }

    /** The device's read of the avail ring. */
    method NextAvail() returns (h: nat)
      requires Rings() && devIdx != availIdx && 3 * |k.reqs| <= NUM
      modifies this`devIdx, this`pend
      ensures old(pend) == [h] + pend && h in k.reqs && k.reqs[h].phase.Published?
      ensures RingOk(availRing, devIdx, availIdx, pend)
      ensures InPhase(pend, k.reqs[h := k.reqs[h].(phase := Taken)], Published)
      ensures InPhase(done, k.reqs[h := k.reqs[h].(phase := Taken)], Completed)
    {
      RingPop(availRing, devIdx, availIdx, pend);
      h := availRing[devIdx % NUM];
      ghost var q := k.reqs[h].(phase := Taken);
      PhaseDrop(pend, k.reqs, q, Published);
      PhaseOther(done, k.reqs, h, q, Completed);
      devIdx := (devIdx + 1) % IDX;
      pend := pend[1..];
    }

    /** The device finishes a chain that it has taken, in any order, with a status of its
        choice; 0 is success. */
    method Complete(h: nat, status: nat)
      requires Valid() && h in k.reqs && k.reqs[h].phase.Taken?
      modifies this
      ensures Valid() && k.reqs == old(k).reqs[h := old(k).reqs[h].(phase := Completed)] && done == old(done) + [h]
              && pend == old(pend)
      ensures h < NUM && r == old(r).(status := old(r).status[h := status])
    {
      assert ReqOk(r, k, h);
      ghost var q := k.reqs[h].(phase := Completed);
      Advance(r, k, h, q);
      AnyStatus(r, k.(reqs := k.reqs[h := q]), h, status);
      r := r.(status := r.status[h := status]);
      AddUsed(h);
      k := k.(reqs := k.reqs[h := q]);
    }

    /** The device's write to the used ring. */
    method AddUsed(h: nat)
      requires Rings() && h in k.reqs && k.reqs[h].phase.Taken? && 3 * |k.reqs| <= NUM
      modifies this`usedRing, this`usedIdx, this`done
      ensures done == old(done) + [h] && RingOk(usedRing, seenIdx, usedIdx, done)
      ensures InPhase(done, k.reqs[h := k.reqs[h].(phase := Completed)], Completed)
      ensures InPhase(pend, k.reqs[h := k.reqs[h].(phase := Completed)], Published)
    {
      ghost var q := k.reqs[h].(phase := Completed);
      FewerThanNum(k.reqs, done, Completed);
      RingPush(usedRing, seenIdx, usedIdx, done, h);
      PhaseAdd(done, k.reqs, h, q);
      PhaseOther(pend, k.reqs, h, q, Published);
      usedRing := usedRing[usedIdx % NUM := h];
      usedIdx := (usedIdx + 1) % IDX;
      done := done + [h];
    }

    // Interrupts and the end of a request.

    /** One round of virtio_disk_intr: the oldest completion, for its own buffer. It panics
        exactly when the device reported an error. */
    method IntrOne() returns (panic: bool)
      requires Valid() && seenIdx != usedIdx
      modifies this
      ensures Valid() && pend == old(pend) && r.status == old(r).status && old(done) != []
      ensures old(done)[0] in old(k).reqs && old(done)[0] < NUM && old(k).reqs[old(done)[0]].phase == Completed
      ensures panic <==> old(r).status[old(done)[0]] != 0
      ensures panic ==> r == old(r) && k == old(k) && done == old(done)
      ensures !panic ==> done == old(done)[1..] && r.busy == old(r).busy - {old(k).reqs[old(done)[0]].buf}
      ensures !panic ==> k.reqs == old(k).reqs[old(done)[0] := old(k).reqs[old(done)[0]].(phase := Seen)]
    {
      RingPop(usedRing, seenIdx, usedIdx, done);
      var id := usedRing[seenIdx % NUM];
      assert ReqOk(r, k, id);
      if r.status[id] != 0 {
        return true;
      }
      ghost var q := k.reqs[id].(phase := Seen);
      Advance(r, k, id, q);
      var b := r.info[id];
      r := r.(busy := r.busy - {b});
      NextUsed();
      k := k.(reqs := k.reqs[id := q]);
      return false;
    }

    /** The end of a round: on to the next entry of the used ring. */
    method NextUsed()
      requires Rings() && seenIdx != usedIdx && done != [] && done[0] in k.reqs
      modifies this`seenIdx, this`done
      ensures done == old(done)[1..] && RingOk(usedRing, seenIdx, usedIdx, done)
      ensures InPhase(done, k.reqs[old(done)[0] := k.reqs[old(done)[0]].(phase := Seen)], Completed)
      ensures InPhase(pend, k.reqs[old(done)[0] := k.reqs[old(done)[0]].(phase := Seen)], Published)
    {
      RingPop(usedRing, seenIdx, usedIdx, done);
      ghost var q := k.reqs[done[0]].(phase := Seen);
      PhaseDrop(done, k.reqs, q, Completed);
      PhaseOther(pend, k.reqs, done[0], q, Published);
      seenIdx := (seenIdx + 1) % IDX;
      done := done[1..];
    }

    /** virtio_disk_intr: completions are handled once each, in order, up to the first one
        that reports an error; there is a panic exactly if there is one. */
    method Intr() returns (panic: bool, ghost n: nat)
      requires Valid()
      modifies this
      ensures Valid() && pend == old(pend) && r.status == old(r).status && |r.status| == NUM
      ensures Handled(old(k).reqs, k.reqs, old(done), done, r.status, n)
      ensures if panic then n < |old(done)| && r.status[old(done)[n]] != 0 else n == |old(done)|
      ensures !panic ==> forall h :: h in k.reqs ==>
                k.reqs[h] == if old(k).reqs[h].phase.Completed? then old(k).reqs[h].(phase := Seen) else old(k).reqs[h]
    {
      panic, n := false, 0;
      DoneInRange(r, k, done);
      RingPop(usedRing, seenIdx, usedIdx, done);
      while seenIdx != usedIdx
        invariant Valid() && pend == old(pend) && r.status == old(r).status
        invariant done == [] <==> seenIdx == usedIdx
        invariant Handled(old(k).reqs, k.reqs, old(done), done, r.status, n)
        decreases |done|
      {
        ghost var before, queue := k.reqs, done;
        panic := IntrOne();
        if panic {
          return;
        }
        OneMoreSeen(old(k).reqs, before, k.reqs, old(done), queue, r.status, n, n + 1);
        n := n + 1;
        RingPop(usedRing, seenIdx, usedIdx, done);
      }
      AllSeen(old(k).reqs, k.reqs, old(done));
    }

    /** Follow a chain and free its descriptors. */
    method FreeChain(h: nat, ghost q: Req) returns (panic: bool)
      requires Sized(r) && h < NUM && q.d1 < NUM && q.d2 < NUM && h != q.d1 && h != q.d2 && q.d1 != q.d2
      requires !r.free[h] && !r.free[q.d1] && !r.free[q.d2]
      requires r.desc[h].hasNext && r.desc[h].next == q.d1 && r.desc[q.d1].hasNext && r.desc[q.d1].next == q.d2
               && !r.desc[q.d2].hasNext
      modifies this`r
      ensures !panic && r == Released(old(r), h, q)
    {
      var i := h;
      ghost var n := 0;
      while true
        invariant 0 <= n <= 2 && i == (if n == 0 then h else if n == 1 then q.d1 else q.d2)
        invariant r == (if n == 0 then old(r)
                        else if n == 1 then old(r).(desc := old(r).desc[h := NO_DESC], free := old(r).free[h := true])
                        else old(r).(desc := old(r).desc[h := NO_DESC][q.d1 := NO_DESC],
                                     free := old(r).free[h := true][q.d1 := true]))
        decreases 3 - n
      {
        var flag, nxt := r.desc[i].hasNext, r.desc[i].next;
        panic := FreeDesc(i);
        if flag {
          i, n := nxt, n + 1;
        } else {
          return;
        }
      }
    }

    /** The end of virtio_disk_rw, once the interrupt has cleared b->disk. */
    method Finish(h: nat) returns (panic: bool)
      requires Valid() && h in k.reqs && k.reqs[h].buf !in r.busy
      modifies this
      ensures !panic && Valid() && k.reqs == old(k).reqs - {h} && pend == old(pend) && done == old(done)
      ensures old(k).reqs[h].phase.Seen? && CountFree(r.free) == CountFree(old(r).free) + 3
    {
      assert ReqOk(r, k, h);
      ghost var q := k.reqs[h];
      CloseChain(r, k, h);
      PhaseRemove(pend, k.reqs, h, Published);
      PhaseRemove(done, k.reqs, h, Completed);
      ghost var r0 := r;
      r := r.(info := r.info[h := 0]);
      panic := FreeChain(h, q);
      assert r == Released(r0, h, q).(info := r0.info[h := 0]);
      k := Closed(k, h);
    }
  }

  lemma IndexNext(idx: nat, n: nat)
    requires n > 0
    ensures (idx + n) % IDX == ((idx + 1) % IDX + (n - 1)) % IDX
  {
  }

  /** The registers once request h has come to the phase of q. */
  function AtPhase(r: Regs, h: nat, q: Req): Regs
    requires Sized(r) && h < NUM
  {
    if q.phase.Seen? then r.(busy := r.busy - {q.buf}) else r
  }

  lemma AnyStatus(r: Regs, k: Book, h: nat, status: nat)
    requires Chains(r, k) && h < NUM
    ensures Chains(r.(status := r.status[h := status]), k)
  {
    var r' := r.(status := r.status[h := status]);
    forall x
      ensures ReqOk(r', k, x)
    {
      assert ReqOk(r, k, x);
    }
  }

  /** A request moves on; the others are as they were. */
  lemma Advance(r: Regs, k: Book, h: nat, q: Req)
    requires Chains(r, k) && h in k.reqs && h < NUM && q == k.reqs[h].(phase := q.phase) && !k.reqs[h].phase.Seen?
    ensures Chains(AtPhase(r, h, q), k.(reqs := k.reqs[h := q]))
  {
    assert k.reqs[h := q].Keys == k.reqs.Keys;
    assert |k.reqs[h := q]| == |k.reqs|;
    assert ReqOk(r, k, h);
    var r', k' := AtPhase(r, h, q), k.(reqs := k.reqs[h := q]);
    forall x
      ensures ReqOk(r', k', x)
    {
      assert ReqOk(r, k, x);
    }
  }

  /** The first request of a queue leaves the phase. */
  lemma PhaseDrop(queue: seq<nat>, reqs: map<nat, Req>, q: Req, phase: Phase)
    requires queue != [] && InPhase(queue, reqs, phase) && q.phase != phase
    ensures InPhase(queue[1..], reqs[queue[0] := q], phase)
  {
    var reqs', rest := reqs[queue[0] := q], queue[1..];
    forall h | h in reqs' && reqs'[h].phase == phase
      ensures h in rest
    {
      assert h in queue;
    }
  }

  lemma StillChained(r: Regs, k: Book, r': Regs)
    requires Chains(r, k) && r' == r.(desc := r'.desc) && Sized(r') && forall i :: 0 <= i < NUM && !r.free[i] ==>
               r'.desc[i] == r.desc[i]
    ensures Chains(r', k)
  {
    forall h
      ensures ReqOk(r', k, h)
    {
      assert ReqOk(r, k, h);
    }
  }

  function Formatted(r: Regs, h: nat, q: Req): Regs
    requires Sized(r) && h < NUM && q.d1 < NUM && q.d2 < NUM
  {
    Regs(r.desc[h := Desc(Op(h), true, false, q.d1)]
         [q.d1 := Desc(Data(q.buf), true, !q.write, q.d2)][q.d2 := Desc(Status(h), false, true, 0)],
         r.free[h := false][q.d1 := false][q.d2 := false], r.ops[h := BlkReq(q.write, q.sector)], r.info[h := q.buf],
         r.status[h := 0xff], r.busy + {q.buf})
  }

  ghost function Opened(k: Book, h: nat, q: Req): Book
    requires |k.owner| == NUM && h < NUM && q.d1 < NUM && q.d2 < NUM
  {
    Book(k.reqs[h := q], k.owner[h := h][q.d1 := h][q.d2 := h], k.carrier[q.buf := h])
  }

  lemma NewReq(r: Regs, k: Book, h: nat, q: Req, x: nat)
    requires Chains(r, k) && q.buf !in k.carrier && q.phase.Published?
    requires h < NUM && q.d1 < NUM && q.d2 < NUM && h != q.d1 && h != q.d2 && q.d1 != q.d2 && r.free[h] && r.free[q.d1]
             && r.free[q.d2]
    ensures ReqOk(Formatted(r, h, q), Opened(k, h, q), x)
  {
    assert ReqOk(r, k, x);
  }

  lemma NewCount(free: seq<bool>, h: nat, d1: nat, d2: nat)
    requires h < |free| && d1 < |free| && d2 < |free| && h != d1 && h != d2 && d1 != d2 && free[h] && free[d1]
             && free[d2]
    ensures CountFree(free[h := false][d1 := false][d2 := false]) + 3 == CountFree(free)
  {
    CountSet(free, h, false);
    CountSet(free[h := false], d1, false);
    CountSet(free[h := false][d1 := false], d2, false);
  }

  /** A chain made of free descriptors, for a buffer in no request. */
  lemma NewChain(r: Regs, k: Book, h: nat, q: Req)
    requires Chains(r, k) && q.buf !in k.carrier && q.phase.Published?
    requires h < NUM && q.d1 < NUM && q.d2 < NUM && h != q.d1 && h != q.d2 && q.d1 != q.d2 && r.free[h] && r.free[q.d1]
             && r.free[q.d2]
    ensures h !in k.reqs && Chains(Formatted(r, h, q), Opened(k, h, q))
  {
    NewCount(r.free, h, q.d1, q.d2);
    assert ReqOk(r, k, h);
    assert |k.reqs[h := q]| == |k.reqs| + 1;
    forall x
      ensures ReqOk(Formatted(r, h, q), Opened(k, h, q), x)
    {
      NewReq(r, k, h, q, x);
    }
  }

  lemma FewerThanNum(reqs: map<nat, Req>, queue: seq<nat>, phase: Phase)
    requires InPhase(queue, reqs, phase) && 3 * |reqs| <= NUM
    ensures |queue| < NUM && |queue| <= |reqs|
  {
    DistinctSize(queue, reqs.Keys);
    assert |reqs.Keys| == |reqs|;
  }

  lemma PhaseAdd(queue: seq<nat>, reqs: map<nat, Req>, h: nat, q: Req)
    requires InPhase(queue, reqs, q.phase) && (h in reqs ==> reqs[h].phase != q.phase)
    ensures InPhase(queue + [h], reqs[h := q], q.phase)
  {
  }

  lemma PhaseOther(queue: seq<nat>, reqs: map<nat, Req>, h: nat, q: Req, phase: Phase)
    requires InPhase(queue, reqs, phase) && q.phase != phase && (h in reqs ==> reqs[h].phase != phase)
    ensures InPhase(queue, reqs[h := q], phase)
  {
  }

  lemma {:induction false} AllFree(free: seq<bool>)
    requires forall k :: 0 <= k < |free| ==> free[k]
    ensures CountFree(free) == |free|
    decreases free
  {
    if free != [] {
      AllFree(free[..|free| - 1]);
    }
  }

  lemma {:induction false} NoneFree(free: seq<bool>)
    requires forall k :: 0 <= k < |free| ==> !free[k]
    ensures CountFree(free) == 0
    decreases free
  {
    if free != [] {
      NoneFree(free[..|free| - 1]);
    }
  }

  function Released(r: Regs, h: nat, q: Req): Regs
    requires Sized(r) && h < NUM && q.d1 < NUM && q.d2 < NUM
  {
    r.(desc := r.desc[h := NO_DESC][q.d1 := NO_DESC][q.d2 := NO_DESC],
       free := r.free[h := true][q.d1 := true][q.d2 := true])
  }

  ghost function Closed(k: Book, h: nat): Book
    requires |k.owner| == NUM && h in k.reqs && h < NUM && k.reqs[h].d1 < NUM && k.reqs[h].d2 < NUM
  {
    Book(k.reqs - {h}, k.owner[h := NONE][k.reqs[h].d1 := NONE][k.reqs[h].d2 := NONE], k.carrier - {k.reqs[h].buf})
  }

  /** Freeing a chain gives back three descriptors and leaves the others alone. */
  lemma CloseChain(r: Regs, k: Book, h: nat)
    requires Chains(r, k) && h in k.reqs
    ensures ReqOk(r, k, h) && Chains(Released(r, h, k.reqs[h]).(info := r.info[h := 0]), Closed(k, h))
    ensures CountFree(Released(r, h, k.reqs[h]).free) == CountFree(r.free) + 3
  {
    assert ReqOk(r, k, h);
    var q := k.reqs[h];
    FreedCount(r.free, h, q.d1, q.d2);
    assert (k.reqs - {h}).Keys == k.reqs.Keys - {h};
    assert |k.reqs - {h}| == |k.reqs| - 1;
    var r', k' := Released(r, h, q).(info := r.info[h := 0]), Closed(k, h);
    forall x
      ensures ReqOk(r', k', x)
    {
      StillReq(r, k, h, x);
    }
  }

  lemma FreedCount(free: seq<bool>, h: nat, d1: nat, d2: nat)
    requires h < |free| && d1 < |free| && d2 < |free| && h != d1 && h != d2 && d1 != d2 && !free[h] && !free[d1]
             && !free[d2]
    ensures CountFree(free[h := true][d1 := true][d2 := true]) == CountFree(free) + 3
  {
    CountSet(free, h, true);
    CountSet(free[h := true], d1, true);
    CountSet(free[h := true][d1 := true], d2, true);
  }

  lemma StillReq(r: Regs, k: Book, h: nat, x: nat)
    requires Sized(r) && |k.owner| == NUM && h in k.reqs && ReqOk(r, k, h) && ReqOk(r, k, x)
    ensures ReqOk(Released(r, h, k.reqs[h]).(info := r.info[h := 0]), Closed(k, h), x)
  {
  }

  lemma PhaseRemove(queue: seq<nat>, reqs: map<nat, Req>, h: nat, phase: Phase)
    requires InPhase(queue, reqs, phase) && h in reqs && reqs[h].phase != phase
    ensures InPhase(queue, reqs - {h}, phase)
  {
  }
}
