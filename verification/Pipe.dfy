/** pipe.c: a ring of PIPESIZE bytes with two counters that wrap at 2^32. */
module Pipe {
  import opened Blocks

  const PIPESIZE := 512
  const WRAP := 0x1_0000_0000

  type Ring = s: seq<Byte> | |s| == PIPESIZE witness seq(PIPESIZE, _ => 0)

  datatype State = State(data: Ring, nread: nat, nwrite: nat, readopen: bool, writeopen: bool)

  predicate CanWrite(p: State) {
    p.nwrite != (p.nread + PIPESIZE) % WRAP
  }

  predicate IsEmpty(p: State) {
    p.nread == p.nwrite
  }

  // The steps that the loops of pipewrite and piperead take under the lock, and closing.

  datatype Step = Put(ch: Byte) | Get | Close(writable: bool)

  /** A writer holds the write end open and a reader the read end. */
  predicate Enabled(p: State, s: Step) {
    match s
    case Put(_) => p.writeopen && p.readopen && CanWrite(p)
    case Get => p.readopen && !IsEmpty(p)
    case Close(writable) => if writable then p.writeopen else p.readopen
  }

  function Next(p: State, s: Step): State {
    match s
    case Put(ch) => p.(data := p.data[p.nwrite % PIPESIZE := ch], nwrite := (p.nwrite + 1) % WRAP)
    case Get => p.(nread := (p.nread + 1) % WRAP)
    case Close(writable) => if writable then p.(writeopen := false) else p.(readopen := false)
  }

  function Put1(s: Step): seq<Byte> {
    if s.Put? then [s.ch] else []
  }

  /** The byte that a step delivers to the reader. */
  function Got1(p: State, s: Step): seq<Byte> {
    if s.Get? then [p.data[p.nread % PIPESIZE]] else []
  }

  ghost predicate IsRun(p: State, steps: seq<Step>)
    decreases steps
  {
    if steps == [] then true else Enabled(p, steps[0]) && IsRun(Next(p, steps[0]), steps[1..])
  }

  function Run(p: State, steps: seq<Step>): State
    decreases steps
  {
    if steps == [] then p else Run(Next(p, steps[0]), steps[1..])
  }

  /** The bytes put in, and the bytes taken out, in order. */
  function Written(steps: seq<Step>): seq<Byte>
    decreases steps
  {
    if steps == [] then [] else Put1(steps[0]) + Written(steps[1..])
  }

  function Consumed(p: State, steps: seq<Step>): seq<Byte>
    decreases steps
  {
    if steps == [] then [] else Got1(p, steps[0]) + Consumed(Next(p, steps[0]), steps[1..])
  }

  /** The ring holds the bytes of w from position r on, w having been written so far. */
  ghost predicate Holds(p: State, w: seq<Byte>, r: nat) {
    && r <= |w| <= r + PIPESIZE && p.nread == r % WRAP && p.nwrite == |w| % WRAP
    && forall k :: r <= k < |w| ==> InSlot(p, w, k)
  }

  predicate InSlot(p: State, w: seq<Byte>, k: nat)
    requires k < |w|
  {
    p.data[k % PIPESIZE] == w[k]
  }

  /** Wrapping is harmless because PIPESIZE divides 2^32. */
  lemma Wraps(r: nat, n: nat)
    requires r <= n <= r + PIPESIZE
    ensures (r % WRAP == n % WRAP <==> r == n) && (n % WRAP == (r % WRAP + PIPESIZE) % WRAP <==> n == r + PIPESIZE)
    ensures r % WRAP % PIPESIZE == r % PIPESIZE && n % WRAP % PIPESIZE == n % PIPESIZE
    ensures (n % WRAP + 1) % WRAP == (n + 1) % WRAP && (r % WRAP + 1) % WRAP == (r + 1) % WRAP
  {
    WrapIndex(r);
    WrapIndex(n);
    WrapAdd(r, 1);
    WrapAdd(n, 1);
    WrapAdd(r, PIPESIZE);
    WrapApart(r, n);
    WrapApart(n, r + PIPESIZE);
  }

  lemma WrapAdd(k: nat, d: nat)
    ensures (k % WRAP + d) % WRAP == (k + d) % WRAP
  {
    var q, r := k / WRAP, k % WRAP + d;
    RestOfWrap(k + d, q + r / WRAP, r % WRAP);
  }

  lemma WrapApart(a: nat, b: nat)
    requires a <= b < a + WRAP
    ensures a % WRAP == b % WRAP <==> a == b
  {
    var p, q := a / WRAP, b / WRAP;
    assert a == WRAP * p + a % WRAP && b == WRAP * q + b % WRAP;
  }

  lemma WrapIndex(k: nat)
    ensures k % WRAP % PIPESIZE == k % PIPESIZE
  {
    var q, r := k / WRAP, k % WRAP;
    RestOfRing(k, 8388608 * q + r / PIPESIZE, r % PIPESIZE);
  }

  lemma RestOfWrap(k: nat, q: nat, r: nat)
    requires k == WRAP * q + r && r < WRAP
    ensures k % WRAP == r
  {
  }

  lemma RestOfRing(k: nat, q: nat, r: nat)
    requires k == PIPESIZE * q + r && r < PIPESIZE
    ensures k % PIPESIZE == r
  {
  }

  lemma DistinctSlots(r: nat, j: nat, k: nat)
    requires r <= j < k <= r + PIPESIZE
    ensures k < r + PIPESIZE ==> j % PIPESIZE != k % PIPESIZE
  {
  }

  /** Every step keeps the ring in line with the bytes written and read. */
  lemma StepHolds(p: State, s: Step, w: seq<Byte>, r: nat)
    requires Holds(p, w, r) && Enabled(p, s)
    ensures Holds(Next(p, s), w + Put1(s), r + |Got1(p, s)|)
    ensures s.Get? ==> r < |w| && Got1(p, s) == [w[r]]
  {
    Wraps(r, |w|);
    if s.Get? {
      assert InSlot(p, w, r);
    }
    forall k | r + |Got1(p, s)| <= k < |w + Put1(s)|
      ensures InSlot(Next(p, s), w + Put1(s), k)
    {
      if k < |w| {
        assert InSlot(p, w, k);
        DistinctSlots(r, k, |w|);
      }
    }
  }

  /** In every interleaving: the bytes written are the bytes read followed by the bytes in
      the ring. */
  lemma {:induction false} RunHolds(p: State, steps: seq<Step>, w: seq<Byte>, r: nat)
    requires Holds(p, w, r) && IsRun(p, steps)
    ensures var w' := w + Written(steps);
            var r' := r + |Consumed(p, steps)|;
            Holds(Run(p, steps), w', r') && w'[r..r'] == Consumed(p, steps)
    decreases steps
  {
    if steps == [] {
      assert w + Written(steps) == w;
    } else {
      var s, rest := steps[0], steps[1..];
      StepHolds(p, s, w, r);
      var put, got := Put1(s), Got1(p, s);
      RunHolds(Next(p, s), rest, w + put, r + |got|);
      Joined(Run(p, steps), w, r, put, got, Written(rest), Consumed(Next(p, s), rest));
    }
  }

  /** A step that put and got these, before steps that put ps and got gs. */
  lemma Joined(p: State, w: seq<Byte>, r: nat, put: seq<Byte>, got: seq<Byte>, ps: seq<Byte>, gs: seq<Byte>)
    requires Holds(p, w + put + ps, r + |got| + |gs|) && (w + put + ps)[r + |got|..r + |got| + |gs|] == gs
    requires got == [] || (r < |w| && got == [w[r]])
    ensures Holds(p, w + (put + ps), r + |got + gs|) && (w + (put + ps))[r..r + |got + gs|] == got + gs
  {
    var v := w + (put + ps);
    assert v == w + put + ps;
    assert v[r..r + |got|] == got;
  }

  function NewPipe(data: Ring): State {
    State(data, 0, 0, true, true)
  }

  /** The pipe is a FIFO of at most PIPESIZE bytes. */
  lemma Fifo(data: Ring, steps: seq<Step>)
    requires IsRun(NewPipe(data), steps)
    ensures var w, c := Written(steps), Consumed(NewPipe(data), steps);
            |c| <= |w| <= |c| + PIPESIZE && c == w[..|c|]
    ensures var p, w, c := Run(NewPipe(data), steps), Written(steps), Consumed(NewPipe(data), steps);
            (IsEmpty(p) <==> |w| == |c|) && (CanWrite(p) <==> |w| < |c| + PIPESIZE)
  {
    RunHolds(NewPipe(data), steps, [], 0);
    var w, c := Written(steps), Consumed(NewPipe(data), steps);
    assert [] + w == w;
    Wraps(|c|, |w|);
  }

  // Freeing the page.

  /** The close that finds the other end closed frees the page. */
  function Frees(p: State, steps: seq<Step>): nat
    decreases steps
  {
    if steps == [] then 0
    else
      var n := Next(p, steps[0]);
      (if steps[0].Close? && !n.readopen && !n.writeopen then 1 else 0) + Frees(n, steps[1..])
  }

  lemma {:induction false} ClosedStays(p: State, steps: seq<Step>)
    requires IsRun(p, steps) && !p.readopen && !p.writeopen
    ensures steps == []
  {
  }

  /** The page is freed exactly once, when both ends are closed, and not used after. */
  lemma {:induction false} FreedOnce(p: State, steps: seq<Step>)
    requires IsRun(p, steps) && (p.readopen || p.writeopen)
    ensures var n := Run(p, steps); Frees(p, steps) == if n.readopen || n.writeopen then 0 else 1
    decreases steps
  {
    if steps != [] {
      var n := Next(p, steps[0]);
      if n.readopen || n.writeopen {
        FreedOnce(n, steps[1..]);
      } else {
        ClosedStays(n, steps[1..]);
      }
    }
  }

  // The loops.

  lemma {:induction false} RunMore(p: State, steps: seq<Step>, s: Step)
    ensures Run(p, steps + [s]) == Next(Run(p, steps), s)
    ensures IsRun(p, steps + [s]) <==> IsRun(p, steps) && Enabled(Run(p, steps), s)
    ensures Consumed(p, steps + [s]) == Consumed(p, steps) + Got1(Run(p, steps), s)
    decreases steps
  {
    if steps == [] {
      assert steps + [s] == [s];
    } else {
      assert (steps + [s])[1..] == steps[1..] + [s];
      RunMore(Next(p, steps[0]), steps[1..], s);
    }
  }

  function Puts(bytes: seq<Byte>): seq<Step> {
    seq(|bytes|, k requires 0 <= k < |bytes| => Put(bytes[k]))
  }

  lemma PutsMore(src: seq<Byte>, i: nat, j: nat)
    requires i <= j < |src|
    ensures Puts(src[i..j + 1]) == Puts(src[i..j]) + [Put(src[j])]
  {
    assert src[i..j + 1] == src[i..j] + [src[j]];
  }

  function Gets(n: nat): seq<Step> {
    seq(n, _ => Get)
  }

  datatype Outcome = Done | Failed | Sleeps

  class Pipe {
    const data: array<Byte>
    var nread: nat
    var nwrite: nat
    var readopen: bool
    var writeopen: bool

    ghost predicate Valid()
      reads this
    {
      data.Length == PIPESIZE && nread < WRAP && nwrite < WRAP
    }

    ghost function View(): State
      requires Valid()
      reads this, data
    {
      State(data[..], nread, nwrite, readopen, writeopen)
    }

    /** pipealloc's initialization. */
    constructor ()
      ensures Valid() && View().data == data[..] && View() == NewPipe(data[..])
    {
      data := new Byte[PIPESIZE](_ => 0);
      nread, nwrite, readopen, writeopen := 0, 0, true, true;
    }

    /** pipewrite from byte i of src until it returns or sleeps; `readable` bytes of src can
        be copied in. Done: returns i'; Failed: returns -1. */
    method Write(src: seq<Byte>, i: nat, readable: nat, killed: bool) returns (i': nat, r: Outcome)
      requires Valid() && i <= |src| && writeopen
      modifies this, data
      ensures Valid() && i <= i' <= |src|
      ensures IsRun(old(View()), Puts(src[i..i'])) && View() == Run(old(View()), Puts(src[i..i']))
      ensures i < i' ==> i' <= readable
      ensures match r
              case Done => i' == |src| || (i' >= readable && readopen && !killed && CanWrite(View()))
              case Failed => i' < |src| && (!readopen || killed)
              case Sleeps => i' < |src| && !CanWrite(View())
    {
      i', r := i, Done;
      assert Puts(src[i..i]) == [];
      while i' < |src|
        invariant i <= i' <= |src| && Valid() && r == Done && writeopen && (i < i' ==> i' <= readable)
        invariant IsRun(old(View()), Puts(src[i..i'])) && View() == Run(old(View()), Puts(src[i..i']))
      {
        if !readopen || killed {
          return i', Failed;
        }
        if nwrite == (nread + PIPESIZE) % WRAP {
          return i', Sleeps;
        }
        if i' >= readable {
          return;
        }
        ghost var v := View();
        RunMore(old(View()), Puts(src[i..i']), Put(src[i']));
        PutsMore(src, i, i');
        data[nwrite % PIPESIZE] := src[i'];
        nwrite := (nwrite + 1) % WRAP;
        assert View() == Next(v, Put(src[i']));
        i' := i' + 1;
      }
    }

    /** piperead until it returns or sleeps; `writable` bytes can be copied out. The result
        is the number of bytes, -1 for none because of a fault or a kill. */
    method Read(n: nat, writable: nat, killed: bool) returns (i: int, out: seq<Byte>, r: Outcome)
      requires Valid() && readopen
      modifies this
      ensures Valid()
      ensures IsRun(old(View()), Gets(|out|)) && View() == Run(old(View()), Gets(|out|))
              && out == Consumed(old(View()), Gets(|out|))
      ensures match r
              case Sleeps => out == [] && IsEmpty(View()) && writeopen && !killed
              case Failed => out == [] && IsEmpty(View()) && writeopen && killed && i == -1
              case Done => && !(IsEmpty(old(View())) && writeopen)
                           && i == (if n > 0 && writable == 0 && !IsEmpty(old(View())) then -1 else |out|)
                           && |out| <= n && |out| <= writable && (|out| == n || IsEmpty(View()) || |out| == writable)
    {
      i, out, r := 0, [], Done;
      if nread == nwrite && writeopen {
        if killed {
          return -1, out, Failed;
        }
        return 0, out, Sleeps;
      }
      assert Gets(0) == [];
      while i < n
        invariant 0 <= i == |out| <= n && |out| <= writable && Valid() && r == Done && readopen
                  && data[..] == old(data[..])
        invariant IsRun(old(View()), Gets(|out|)) && View() == Run(old(View()), Gets(|out|))
                  && out == Consumed(old(View()), Gets(|out|))
      {
        if nread == nwrite {
          break;
        }
        var ch := data[nread % PIPESIZE];
        if i >= writable {
          if i == 0 {
            i := -1;
          }
          break;
        }
        RunMore(old(View()), Gets(|out|), Get);
        assert Gets(|out| + 1) == Gets(|out|) + [Get];
        nread := (nread + 1) % WRAP;
        out := out + [ch];
        i := i + 1;
      }
    }

    /** pipeclose; the result says whether the page is freed. */
    method Close(writable: bool) returns (freed: bool)
      requires Valid() && (if writable then writeopen else readopen)
      modifies this
      ensures Valid() && View() == Next(old(View()), Step.Close(writable)) && Enabled(old(View()), Step.Close(writable))
      ensures freed <==> Frees(old(View()), [Step.Close(writable)]) == 1
    {
      if writable {
        writeopen := false;
      } else {
        readopen := false;
      }
      freed := !readopen && !writeopen;
    }
  }
}
