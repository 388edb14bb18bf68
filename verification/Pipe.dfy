/** A pipe shared by any number of threads.

    A thread inside pipewrite or piperead holds the pipe's lock except while it
    sleeps, so each method below is one stretch of such a call: from entry, or
    from waking up, to the next sleep or the return. */
module Pipe {
  import opened Sector

  const PIPESIZE: nat := 512
  const WORD: nat := 0x1_0000_0000

  /** The rest of a call: the bytes to write and how many are in the pipe
      already, or the number of bytes wanted. */
  datatype Job = Write(addr: seq<byte>, i: nat) | Read(n: int)

  datatype Thread = Ready(job: Job) | Asleep(job: Job)

  datatype Result = Slept | Failed | Wrote(n: nat) | Got(bytes: seq<byte>)

  // ---- the counters ------------------------------------------------------------

  lemma Wraps(a: nat, b: nat)
    requires a <= b < a + WORD
    ensures a % WORD == b % WORD <==> a == b
  {
    assert a == a / WORD * WORD + a % WORD && b == b / WORD * WORD + b % WORD;
  }

  lemma SlotOf(n: nat)
    ensures n % WORD % PIPESIZE == n % PIPESIZE
  {
    var m := n / WORD * 8388608;
    assert n == m * PIPESIZE + n % WORD;
  }

  /** The counters wrap at 32 bits, yet equality and distance PIPESIZE still tell an
      empty and a full pipe from every other, and slots keep their order. */
  lemma Counters(nread: nat, nwrite: nat, r: nat, w: nat)
    requires r <= w <= r + PIPESIZE && nread == r % WORD && nwrite == w % WORD
    ensures nread == nwrite <==> r == w
    ensures nwrite == (nread + PIPESIZE) % WORD <==> w == r + PIPESIZE
    ensures nread % PIPESIZE == r % PIPESIZE && nwrite % PIPESIZE == w % PIPESIZE
  {
    Wraps(r, w);
    Wraps(w, r + PIPESIZE);
    SlotOf(r);
    SlotOf(w);
  }

  lemma Advance(n: nat, count: nat)
    requires n == count % WORD
    ensures (n + 1) % WORD == (count + 1) % WORD
  {
  }

  // ---- sleeping threads ------------------------------------------------------------

  /** Every thread asleep in piperead, or in pipewrite, becomes ready and goes on with
      its call where it was; all others stay as they are. */
  function Wake(threads: map<nat, Thread>, readers: bool): (r: map<nat, Thread>)
    ensures r.Keys == threads.Keys && forall t | t in threads ::
      && r[t].job == threads[t].job
      && (r[t].Asleep? <==> threads[t].Asleep? && threads[t].job.Read? != readers)
  {
    map t | t in threads ::
      if threads[t].Asleep? && threads[t].job.Read? == readers then Ready(threads[t].job) else threads[t]
  }

  /** No reader sleeps on a pipe with bytes or without writers; no writer sleeps
      on a pipe with room or without readers. */
  ghost predicate SleepSafe(threads: map<nat, Thread>, pending: nat, readopen: bool, writeopen: bool) {
    forall t | t in threads && threads[t].Asleep? ::
      if threads[t].job.Read? then pending == 0 && writeopen else pending == PIPESIZE && readopen
  }

  /** A thread inside a call keeps its end of the pipe open, and has put at most
      its whole buffer into the pipe. */
  ghost predicate JobsOpen(threads: map<nat, Thread>, readopen: bool, writeopen: bool) {
    forall t | t in threads ::
      if threads[t].job.Read? then readopen else writeopen && threads[t].job.i <= |threads[t].job.addr|
  }

  // ---- whose bytes -----------------------------------------------------------

  /** The bytes that one call of pipewrite put into the pipe, in order; `writer` has the
      number of the call for each byte. */
  ghost function PutBy(written: seq<byte>, writer: seq<nat>, c: nat): seq<byte>
    requires |writer| == |written|
  {
    if written == [] then []
    else
      var n := |written| - 1;
      PutBy(written[..n], writer[..n], c) + if writer[n] == c then [written[n]] else []
  }

  lemma PutMore(written: seq<byte>, writer: seq<nat>, b: byte, me: nat, c: nat)
    requires |writer| == |written|
    ensures PutBy(written + [b], writer + [me], c) == PutBy(written, writer, c) + if c == me then [b] else []
  {
    assert (written + [b])[..|written|] == written && (writer + [me])[..|written|] == writer;
  }

  lemma {:induction false} PutNone(written: seq<byte>, writer: seq<nat>, c: nat)
    requires |writer| == |written| && c !in writer
    ensures PutBy(written, writer, c) == []
  {
    if written != [] { PutNone(written[..|written| - 1], writer[..|written| - 1], c); }
  }

  /** Every call of pipewrite has its own number, and has put exactly the first bytes of
      its buffer into the pipe, each once. */
  ghost predicate Sends(threads: map<nat, Thread>, call: map<nat, nat>, calls: nat, written: seq<byte>,
                        writer: seq<nat>)
  {
    && |writer| == |written| && (forall k | 0 <= k < |writer| :: writer[k] < calls)
    && (forall t | t in threads && threads[t].job.Write? ::
          t in call && call[t] < calls && threads[t].job.i <= |threads[t].job.addr|
          && PutBy(written, writer, call[t]) == threads[t].job.addr[..threads[t].job.i])
    && (forall t, u | t in threads && u in threads && threads[t].job.Write? && threads[u].job.Write? && t != u ::
          t in call && u in call && call[t] != call[u])
  }

  /** One call has put more into the pipe. */
  lemma SendsMore(threads: map<nat, Thread>, call: map<nat, nat>, calls: nat, written: seq<byte>, writer: seq<nat>,
                  written': seq<byte>, writer': seq<nat>, t: nat, i: nat)
    requires Sends(threads, call, calls, written, writer) && t in threads && threads[t].job.Write?
    requires |writer'| == |written'| && (forall k | 0 <= k < |writer'| :: writer'[k] < calls)
    requires i <= |threads[t].job.addr| && PutBy(written', writer', call[t]) == threads[t].job.addr[..i]
    requires forall c | c != call[t] :: PutBy(written', writer', c) == PutBy(written, writer, c)
    ensures Sends(threads - {t}, call, calls, written', writer')
    ensures forall p: Thread | p.job == Write(threads[t].job.addr, i) ::
      Sends(threads[t := p], call, calls, written', writer')
  {
    hide PutBy;
  }

  lemma SendsAt(threads: map<nat, Thread>, call: map<nat, nat>, calls: nat, written: seq<byte>, writer: seq<nat>,
                t: nat)
    requires Sends(threads, call, calls, written, writer) && t in threads && threads[t].job.Write?
    ensures |writer| == |written| && (forall k | 0 <= k < |writer| :: writer[k] < calls)
    ensures t in call && call[t] < calls && threads[t].job.i <= |threads[t].job.addr|
    ensures PutBy(written, writer, call[t]) == threads[t].job.addr[..threads[t].job.i]
  {
    hide PutBy;
  }

  /** Waking does not change what the calls have put. */
  lemma SendsWoken(threads: map<nat, Thread>, call: map<nat, nat>, calls: nat, written: seq<byte>, writer: seq<nat>,
                   readers: bool)
    requires Sends(threads, call, calls, written, writer)
    ensures Sends(Wake(threads, readers), call, calls, written, writer)
  {
    hide PutBy, Wake;
  }

  class Pipe {
    const data: array<byte>
    var nread: nat
    var nwrite: nat
    var readopen: bool
    var writeopen: bool
    var threads: map<nat, Thread>
    /** All bytes ever put into the pipe, and all ever taken out. */
    ghost var written: seq<byte>
    ghost var taken: seq<byte>
    /** The calls of pipewrite so far, the call each thread is in, and the call that put
        each byte into the pipe. */
    ghost var calls: nat
    ghost var call: map<nat, nat>
    ghost var writer: seq<nat>

    /** The buffer holds what was written and not taken; the counters count both. */
    ghost predicate Counted()
      reads this`nread, this`nwrite, this`written, this`taken, data
    {
      && data.Length == PIPESIZE && Queue(data[..], written, taken)
      && nread == |taken| % WORD && nwrite == |written| % WORD
    }

    /** First in, first out; never more than PIPESIZE bytes pending; no thread
        sleeps that could go on. */
    ghost predicate Valid()
      reads this, data
    {
      && Counted()
      && SleepSafe(threads, |written| - |taken|, readopen, writeopen)
      && JobsOpen(threads, readopen, writeopen)
      && Sends(threads, call, calls, written, writer)
    }

    /** What the call with this number has put into the pipe. */
    ghost function Sent(c: nat): seq<byte>
      requires |writer| == |written|
      reads this`written, this`writer
    {
      PutBy(written, writer, c)
    }

    constructor ()
      ensures Valid() && fresh(data) && readopen && writeopen && threads == map[] && written == [] && taken == []
    {
      data := new byte[PIPESIZE];
      nread, nwrite, readopen, writeopen, threads := 0, 0, true, true, map[];
      written, taken, calls, call, writer := [], [], 0, map[], [];
    }

    /** A process with the read end calls piperead. */
    method EnterRead(t: nat, n: int)
      requires Valid() && t !in threads && readopen
      modifies this`threads
      ensures Valid() && threads == old(threads)[t := Ready(Read(n))]
    {
      threads := threads[t := Ready(Read(n))];
    }

    method EnterWrite(t: nat, addr: seq<byte>)
      requires Valid() && t !in threads && writeopen
      modifies this`threads, this`calls, this`call
      ensures Valid() && threads == old(threads)[t := Ready(Write(addr, 0))]
      ensures calls == old(calls) + 1 && call == old(call)[t := old(calls)] && Sent(old(calls)) == []
    {
      PutNone(written, writer, calls);
      threads := threads[t := Ready(Write(addr, 0))];
      call, calls := call[t := calls], calls + 1;
      assert addr[..0] == [];
    }

    /** A stretch of pipewrite.  Over all its stretches the call has put the first `j` bytes
        of its buffer into the pipe, each once, and all of them when it is done. */
    method RunWriter(t: nat) returns (r: Result, ghost j: nat)
      requires Valid() && t in threads && threads[t].Ready? && threads[t].job.Write?
      modifies this, data
      ensures Valid() && taken == old(taken) && readopen == old(readopen) && writeopen == old(writeopen)
      ensures var addr, i0 := old(threads[t].job.addr), old(threads[t].job.i);
        && i0 <= j <= |addr| && written == old(written) + addr[i0..j]
        && match r
           case Slept => j < |addr| && threads == Wake(old(threads), true)[t := Asleep(Write(addr, j))]
           case Wrote(n) => n == j == |addr| && threads == Wake(old(threads), true) - {t}
           case _ =>
             && r == Failed && j < |addr| && threads == old(threads) - {t}
             && !readopen && |written| == |taken| + PIPESIZE
      ensures call == old(call) && calls == old(calls) && t in call
      ensures Sent(call[t]) == old(threads[t].job.addr)[..j] && forall c | c != call[t] :: Sent(c) == old(Sent(c))
    {
      hide Counted, PutBy, Sends, Wake;
      var addr, i := threads[t].job.addr, threads[t].job.i;
      SendsWoken(threads, call, calls, written, writer, true);
      SendsAt(threads, call, calls, written, writer, t);
      ghost var me, woken := call[t], Wake(threads, true);
      i := PutIn(addr, i, me);
      forall c | c != me ensures PutBy(written, writer, c) == PutBy(old(written), old(writer), c) {
        assert Sent(c) == old(Sent(c));
      }
      if i < |addr| {
        if !readopen {
          SendsMore(threads, call, calls, old(written), old(writer), written, writer, t, i);
          threads := threads - {t};
          return Failed, i;
        }
        SendsMore(woken, call, calls, old(written), old(writer), written, writer, t, i);
        threads := Wake(threads, true);
        threads := threads[t := Asleep(Write(addr, i))];
        return Slept, i;
      }
      SendsMore(woken, call, calls, old(written), old(writer), written, writer, t, i);
      threads := Wake(threads, true) - {t};
      return Wrote(|addr|), i;
    }

    /** The loop of pipewrite, as far as there is room. */
    method PutIn(addr: seq<byte>, i0: nat, ghost me: nat) returns (i: nat)
      requires Counted() && i0 <= |addr| && me < calls && |writer| == |written|
      requires (forall k | 0 <= k < |writer| :: writer[k] < calls) && Sent(me) == addr[..i0]
      modifies this`nwrite, this`written, this`writer, data
      ensures Counted() && i0 <= i <= |addr| && written == old(written) + addr[i0..i]
      ensures |taken| <= |written| <= |taken| + PIPESIZE && (i < |addr| ==> |written| == |taken| + PIPESIZE)
      ensures |writer| == |written| && forall k | 0 <= k < |writer| :: writer[k] < calls
      ensures Sent(me) == addr[..i] && forall c | c != me :: Sent(c) == old(Sent(c))
    {
      hide PutBy;
      i := i0;
      while i < |addr|
        invariant i0 <= i <= |addr| && written == old(written) + addr[i0..i] && Counted()
        invariant |writer| == |written| && forall k | 0 <= k < |writer| :: writer[k] < calls
        invariant Sent(me) == addr[..i] && forall c | c != me :: Sent(c) == old(Sent(c))
      {
        Counters(nread, nwrite, |taken|, |written|);
        if nwrite == (nread + PIPESIZE) % WORD { return; }
        PutKeeps(data[..], written, taken, addr[i]);
        Advance(nwrite, |written|);
        forall c { PutMore(written, writer, addr[i], me, c); }
        data[nwrite % PIPESIZE] := addr[i];
        nwrite := (nwrite + 1) % WORD;
        written, writer := written + [addr[i]], writer + [me];
        assert addr[i0..i + 1] == addr[i0..i] + [addr[i]] && addr[..i + 1] == addr[..i] + [addr[i]];
        i := i + 1;
      }
    }

    /** The loop of piperead: as many bytes as there are, up to `n`. */
    method TakeOut(n: int) returns (bytes: seq<byte>)
      requires Counted()
      modifies this`nread, this`taken
      ensures Counted() && taken == old(taken) + bytes
      ensures var pending := |written| - |old(taken)|; |bytes| == if n < 0 then 0 else if n < pending then n
        else pending
    {
      bytes := [];
      while |bytes| < n
        invariant |bytes| <= (if n < 0 then 0 else n) && taken == old(taken) + bytes && Counted()
      {
        Counters(nread, nwrite, |taken|, |written|);
        if nread == nwrite { break; }
        TakeKeeps(data[..], written, taken);
        Advance(nread, |taken|);
        bytes := bytes + [data[nread % PIPESIZE]];
        taken := taken + [data[nread % PIPESIZE]];
        nread := (nread + 1) % WORD;
      }
    }

    /** A stretch of piperead; `killed` is the caller's flag. */
    method RunReader(t: nat, killed: bool) returns (r: Result)
      requires Valid() && t in threads && threads[t].Ready? && threads[t].job.Read?
      modifies this, data
      ensures Valid() && written == old(written) && readopen == old(readopen) && writeopen == old(writeopen)
      ensures writer == old(writer) && call == old(call) && calls == old(calls)
      ensures var n, pending := old(threads[t].job.n), |old(written)| - |old(taken)|;
        match r
        case Slept => pending == 0 && writeopen && !killed && taken == old(taken) &&
          threads == old(threads)[t := Asleep(Read(n))]
        case Failed => pending == 0 && writeopen && killed && taken == old(taken) && threads == old(threads) - {t}
        case Got(bytes) => threads == Wake(old(threads), false) - {t} && taken == old(taken) + bytes
                           && |bytes| == (if n < 0 then 0 else if n < pending then n else pending)
                           && (pending == 0 ==> !writeopen)
        case _ => false
    {
      var n := threads[t].job.n;
      Counters(nread, nwrite, |taken|, |written|);
      if nread == nwrite && writeopen {
        if killed {
          threads := threads - {t};
          return Failed;
        }
        threads := threads[t := Asleep(Read(n))];
        return Slept;
      }
      var bytes := TakeOut(n);
      threads := Wake(threads, false) - {t};
      return Got(bytes);
    }

    /** kill makes a sleeping thread ready; it will test its condition again. */
    method Kill(t: nat)
      requires Valid() && t in threads
      modifies this`threads
      ensures Valid() && threads == old(threads)[t := Ready(old(threads)[t].job)]
    {
      threads := threads[t := Ready(threads[t].job)];
    }

    /** The last descriptor of one end is closed; nobody can be in a call on that end. */
    method Close(writable: bool) returns (freed: bool)
      requires Valid() && (if writable then writeopen else readopen)
      requires forall t | t in threads :: threads[t].job.Write? != writable
      modifies this
      ensures Valid() && written == old(written) && taken == old(taken)
      ensures writer == old(writer) && call == old(call) && calls == old(calls)
      ensures readopen == (old(readopen) && writable) && writeopen == (old(writeopen) && !writable)
      ensures freed <==> !readopen && !writeopen
      ensures threads == Wake(old(threads), writable) && (freed ==> threads == map[])
    {
      if writable { writeopen := false; } else { readopen := false; }
      threads := Wake(threads, writable);
      freed := !readopen && !writeopen;
    }
  }

  // ---- the ring buffer ---------------------------------------------------------------

  /** `data` holds the bytes written and not yet taken, each at its position. */
  ghost predicate Queue(data: seq<byte>, written: seq<byte>, taken: seq<byte>) {
    && |data| == PIPESIZE && taken <= written && |written| - |taken| <= PIPESIZE
    && forall k | |taken| <= k < |written| :: data[k % PIPESIZE] == written[k]
  }

  lemma SlotsDiffer(k: nat, w: nat)
    requires k < w < k + PIPESIZE
    ensures k % PIPESIZE != w % PIPESIZE
  {
  }

  lemma PutKeeps(data: seq<byte>, written: seq<byte>, taken: seq<byte>, b: byte)
    requires Queue(data, written, taken) && |written| - |taken| < PIPESIZE
    ensures Queue(data[|written| % PIPESIZE := b], written + [b], taken)
  {
    var data' := data[|written| % PIPESIZE := b];
    forall k | |taken| <= k < |written| ensures data'[k % PIPESIZE] == written[k] {
      SlotsDiffer(k, |written|);
    }
  }

  lemma TakeKeeps(data: seq<byte>, written: seq<byte>, taken: seq<byte>)
    requires Queue(data, written, taken) && |taken| < |written|
    ensures Queue(data, written, taken + [data[|taken| % PIPESIZE]])
  {
  }
}
