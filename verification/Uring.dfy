// The io_uring rings (src/runtime/uring.cpp:178-282): the process stages and publishes
// submissions and consumes completions while the kernel, at any moment, takes the ones and posts
// the others. Both rings are queues: nothing is overwritten before it is taken, and every
// completion is delivered once, in order.

module Uring {
  import opened Powers
  import opened RingIndex

  const POLL_ADD := 6

  // What an operation asks for; off stands for the event mask when it polls.
  datatype Request = Request(op: int, fd: int, addr: int, len: int, off: int, user: int)

  datatype Sqe = Sqe(op: int, fd: int, addr: int, len: int, off: int, poll: int, user: int)

  datatype Cqe = Cqe(user: int, res: int, flags: int)

  const EMPTY := Sqe(0, 0, 0, 0, 0, 0, 0)

  // The entry the kernel should see.
  function Entry(r: Request): Sqe {
    if r.op == POLL_ADD then Sqe(r.op, r.fd, r.addr, r.len, 0, Wrap(r.off), r.user)
    else Sqe(r.op, r.fd, r.addr, r.len, r.off, 0, r.user)
  }

  // Field by field: an event mask stands in the poll field, cut to 32 bits, with the offset
  // cleared; any other operation has its offset.
  lemma EntryIs(r: Request)
    ensures var e := Entry(r);
      && e.op == r.op && e.fd == r.fd && e.addr == r.addr && e.len == r.len && e.user == r.user
      && (r.op == 6 ==> e.off == 0 && e.poll == r.off % 0x1_0000_0000)
      && (r.op != 6 ==> e.off == r.off && e.poll == 0)
  {}

  class Ring {
    // shared with the kernel
    var sqHead: u32
    var sqTail: u32
    const sqArray: array<nat>
    const sqes: array<Sqe>
    var cqHead: u32
    var cqTail: u32
    const cqes: array<Cqe>
    // the process's own
    var sqLocalTail: u32
    const sqBits: nat
    const cqBits: nat

    // What has happened: entries staged, how many of them were published, what the kernel took
    // of them, the completions it posted, and how many were consumed.
    ghost var staged: seq<Sqe>
    ghost var published: nat
    ghost var taken: seq<Sqe>
    ghost var posted: seq<Cqe>
    ghost var consumed: nat

    // The counters may start anywhere.
    ghost const sqBase: nat
    ghost const cqBase: nat

    ghost function SqEntries(): (r: nat) { Pow2(sqBits) }

    ghost function CqEntries(): (r: nat) { Pow2(cqBits) }

    // The slots of the i-th submission and of the i-th completion.
    ghost function SqSlot(i: nat): (r: nat)
      ensures r < SqEntries()
    {
      (sqBase + i) % SqEntries()
    }

    ghost function CqSlot(i: nat): (r: nat)
      ensures r < CqEntries()
    {
      (cqBase + i) % CqEntries()
    }

    ghost predicate Shape() {
      && sqBits < 32 && cqBits < 32
      && sqArray.Length == sqes.Length == SqEntries()
      && cqes.Length == CqEntries()
    }

    ghost predicate SqCounters()
      reads `sqHead, `sqTail, `sqLocalTail, `staged, `published, `taken
    {
      && |taken| <= published <= |staged| <= |taken| + SqEntries()
      && sqHead == Wrap(sqBase + |taken|)
      && sqTail == Wrap(sqBase + published)
      && sqLocalTail == Wrap(sqBase + |staged|)
    }

    // Every entry staged and not yet taken still stands in its slot.
    ghost predicate SqSlots()
      requires Shape()
      reads sqArray, sqes, `staged, `taken
    {
      forall i :: |taken| <= i < |staged| ==>
        sqArray[SqSlot(i)] == SqSlot(i) && sqes[SqSlot(i)] == staged[i]
    }

    // The kernel has taken the first entries staged, as they were staged.
    ghost predicate SqTaken()
      reads `staged, `taken
    {
      taken <= staged
    }

    ghost predicate CqCounters()
      reads `cqHead, `cqTail, `posted, `consumed
    {
      && consumed <= |posted| <= consumed + CqEntries()
      && cqHead == Wrap(cqBase + consumed)
      && cqTail == Wrap(cqBase + |posted|)
    }

    // Every completion posted and not yet consumed still stands in its slot.
    ghost predicate CqSlots()
      requires Shape()
      reads cqes, `posted, `consumed
    {
      forall i :: consumed <= i < |posted| ==> cqes[CqSlot(i)] == posted[i]
    }

    ghost predicate Valid()
      reads this, sqArray, sqes, cqes
    {
      Shape() && SqCounters() && SqSlots() && SqTaken() && CqCounters() && CqSlots()
    }

    constructor (sqBits: nat, cqBits: nat, sqStart: u32, cqStart: u32)
      requires sqBits < 32 && cqBits < 32
      ensures Valid() && fresh(sqArray) && fresh(sqes) && fresh(cqes)
      ensures staged == [] && published == 0 && taken == [] && posted == [] && consumed == 0
    {
      this.sqBits, this.cqBits := sqBits, cqBits;
      sqArray := new nat[Pow2(sqBits)](_ => 0);
      sqes := new Sqe[Pow2(sqBits)](_ => EMPTY);
      cqes := new Cqe[Pow2(cqBits)](_ => Cqe(0, 0, 0));
      sqHead, sqTail, sqLocalTail := sqStart, sqStart, sqStart;
      cqHead, cqTail := cqStart, cqStart;
      sqBase, cqBase := sqStart, cqStart;
      staged, published, taken, posted, consumed := [], 0, [], [], 0;
    }

    // ---------------------------------------------------------- the kernel

    lemma SqIndex(i: nat, x: u32)
      requires Shape() && x == Wrap(sqBase + i)
      ensures And(x, Pow2(sqBits) - 1) == SqSlot(i)
    {
      hide Pow2, And, Wrap;
      AndMask(x, sqBits);
      WrapSlot(sqBase + i, sqBits);
    }

    lemma CqIndex(i: nat, x: u32)
      requires Shape() && x == Wrap(cqBase + i)
      ensures And(x, Pow2(cqBits) - 1) == CqSlot(i)
    {
      hide Pow2, And, Wrap;
      AndMask(x, cqBits);
      WrapSlot(cqBase + i, cqBits);
    }

    lemma SqApart(i: nat, j: nat)
      requires i < j < i + SqEntries()
      ensures SqSlot(i) != SqSlot(j)
    {
      hide Pow2;
      SlotsDiffer(sqBase + i, sqBase + j, SqEntries());
    }

    lemma CqApart(i: nat, j: nat)
      requires i < j < i + CqEntries()
      ensures CqSlot(i) != CqSlot(j)
    {
      hide Pow2;
      SlotsDiffer(cqBase + i, cqBase + j, CqEntries());
    }

    // It takes the next published entry.
    method KernelTake()
      requires Valid()
      modifies `sqHead, `taken
      ensures Valid()
      ensures old(taken) <= taken
    {
      hide Pow2, And, Wrap, SqSlot, CqSlot, CqSlots, CqCounters;
      if sqHead == sqTail { return; }
      SqIndex(|taken|, sqHead);
      var slot := sqArray[And(sqHead, Pow2(sqBits) - 1)];
      var e := sqes[slot];
      WrapNext(sqBase + |taken|, 1);
      sqHead := Wrap(sqHead + 1);
      taken := taken + [e];
    }

    // It posts a completion when the ring has room.
    method KernelPost(c: Cqe)
      requires Valid()
      modifies `cqTail, `posted, cqes
      ensures Valid()
      ensures old(posted) <= posted
    {
      hide Pow2, And, Wrap, SqSlot, CqSlot, SqCounters;
      CqRoom();
      if Wrap(cqTail - cqHead) == Pow2(cqBits) { return; }
      ghost var t := |posted|;
      CqIndex(t, cqTail);
      forall i | consumed <= i < t ensures CqSlot(i) != CqSlot(t) {
        CqApart(i, t);
      }
      cqes[And(cqTail, Pow2(cqBits) - 1)] := c;
      WrapNext(cqBase + t, 1);
      cqTail := Wrap(cqTail + 1);
      posted := posted + [c];
    }

    lemma CqRoom()
      requires Valid()
      ensures Wrap(cqTail - cqHead) == |posted| - consumed
    {
      hide Pow2, Wrap;
      BelowTwo32(cqBits);
      Distance(cqBase + consumed, cqBase + |posted|);
    }

    // Any number of steps of the kernel, in any order.
    method Kernel()
      requires Valid()
      modifies `sqHead, `taken, `cqTail, `posted, cqes
      ensures Valid()
      ensures old(taken) <= taken && old(posted) <= posted
    {
      hide Valid;
      var steps: nat := *;
      while steps > 0
        invariant Valid()
        invariant old(taken) <= taken && old(posted) <= posted
      {
        if * {
          KernelTake();
        } else {
          var c: Cqe := *;
          KernelPost(c);
        }
        steps := steps - 1;
      }
    }

    // ---------------------------------------------------------- submissions

    lemma SqRoom(h: nat)
      requires Valid() && h <= |taken| && |staged| <= h + SqEntries()
      ensures Wrap(sqLocalTail - Wrap(sqBase + h)) == |staged| - h
    {
      hide Pow2, Wrap;
      BelowTwo32(sqBits);
      Distance(sqBase + h, sqBase + |staged|);
    }

    // The entry the next one staged would have is free to write, whatever the kernel does.
    ghost predicate Free()
      reads `staged, `taken
    {
      |staged| < |taken| + SqEntries()
    }

    lemma NextSlot()
      requires Valid() && Free()
      ensures And(sqLocalTail, Pow2(sqBits) - 1) == SqSlot(|staged|)
      ensures forall i :: |taken| <= i < |staged| ==> SqSlot(i) != SqSlot(|staged|)
    {
      hide Pow2, And, Wrap, SqSlot, CqSlot;
      SqIndex(|staged|, sqLocalTail);
      forall i | |taken| <= i < |staged| ensures SqSlot(i) != SqSlot(|staged|) {
        SqApart(i, |staged|);
      }
    }

    method WriteSqe(e: Sqe)
      requires Valid() && Free()
      modifies sqes
      ensures Valid()
      ensures sqes[SqSlot(|staged|)] == e
    {
      hide Pow2, And, Wrap, SqSlot, CqSlot, CqCounters, SqCounters, CqSlots;
      NextSlot();
      sqes[And(sqLocalTail, Pow2(sqBits) - 1)] := e;
    }

    method WriteIndex()
      requires Valid() && Free()
      modifies sqArray
      ensures Valid()
      ensures sqArray[SqSlot(|staged|)] == SqSlot(|staged|)
    {
      hide Pow2, And, Wrap, SqSlot, CqSlot, CqCounters, SqCounters, CqSlots;
      NextSlot();
      var index := And(sqLocalTail, Pow2(sqBits) - 1);
      sqArray[index] := index;
    }

    method BumpLocal(ghost e: Sqe)
      requires Valid() && Free()
      requires sqes[SqSlot(|staged|)] == e && sqArray[SqSlot(|staged|)] == SqSlot(|staged|)
      modifies `sqLocalTail, `staged
      ensures Valid()
      ensures staged == old(staged) + [e]
    {
      hide Pow2, And, Wrap, SqSlot, CqSlot, CqCounters, CqSlots;
      WrapNext(sqBase + |staged|, 1);
      sqLocalTail := Wrap(sqLocalTail + 1);
      staged := staged + [e];
    }

    // kyte_uring_prep: -1 when the queue is full. The kernel may step in between any two accesses.
    method Prep(r: Request) returns (ok: int)
      requires Valid()
      modifies this, sqes, sqArray, cqes
      ensures Valid()
      ensures old(taken) <= taken && old(posted) <= posted
      ensures ok == 0 ==> staged == old(staged) + [Entry(r)]
      ensures ok != 0 ==> ok == -1 && staged == old(staged) && |staged| == old(|taken|) + SqEntries()
      ensures published == old(published) && consumed == old(consumed)
    {
      hide Valid, Pow2, Wrap, SqSlot;
      HeadIs();
      Kernel();
      var head := sqHead;
      ghost var h := |taken|;
      HeadIs();
      Kernel();
      SqRoom(h);
      if Wrap(sqLocalTail - head) >= Pow2(sqBits) { return -1; }
      var e := EMPTY.(op := r.op, fd := r.fd, addr := r.addr, len := r.len, off := r.off);
      if r.op == POLL_ADD {
        e := e.(off := 0, poll := Wrap(r.off));
      }
      e := e.(user := r.user);
      WriteSqe(e);
      Kernel();
      WriteIndex();
      Kernel();
      BumpLocal(e);
      Kernel();
      ok := 0;
    }

    lemma HeadIs()
      requires Valid()
      ensures Shape()
      ensures sqHead == Wrap(sqBase + |taken|)
      ensures |staged| <= |taken| + SqEntries()
    {}

    // The number of entries staged since the last publication.
    lemma ToSubmit(p: nat, prev: u32)
      requires Valid() && p == published && prev == sqTail
      ensures Wrap(sqLocalTail - prev) == |staged| - p
    {
      hide Pow2, Wrap;
      BelowTwo32(sqBits);
      Distance(sqBase + p, sqBase + |staged|);
    }

    method Publish()
      requires Valid()
      modifies `sqTail, `published
      ensures Valid()
      ensures published == |staged|
    {
      hide Pow2, And, Wrap, SqSlot, CqSlot, CqCounters, CqSlots;
      sqTail := sqLocalTail;
      published := |staged|;
    }

    // kyte_uring_submit_and_wait: everything staged is published, and the kernel is told how much
    // is new; what its call returns is passed on.
    method SubmitAndWait(wait: int, outcome: int) returns (n: int, submitted: nat)
      requires Valid()
      modifies this, cqes
      ensures Valid()
      ensures old(taken) <= taken && old(posted) <= posted
      ensures staged == old(staged) && published == |staged| && consumed == old(consumed)
      ensures submitted == |staged| - old(published)
      ensures n == if submitted == 0 && wait == 0 then 0 else outcome
    {
      hide Valid, Wrap;
      Kernel();
      var prev := sqTail;
      ghost var p := published;
      Kernel();
      ToSubmit(p, prev);
      Publish();
      var toSubmit := Wrap(sqLocalTail - prev);
      submitted := toSubmit;
      if toSubmit == 0 && wait == 0 { return 0, submitted; }
      Kernel();
      n := outcome;
    }

    // ---------------------------------------------------------- completions

    lemma CqRoomAt(t: nat, tail: u32)
      requires Valid() && consumed <= t <= |posted| && tail == Wrap(cqBase + t)
      ensures Wrap(tail - cqHead) == t - consumed <= CqEntries()
    {
      hide Pow2, Wrap;
      BelowTwo32(cqBits);
      Distance(cqBase + consumed, cqBase + t);
    }

    lemma CqTailIs()
      requires Valid()
      ensures cqTail == Wrap(cqBase + |posted|) && consumed <= |posted|
    {}

    // kyte_uring_cq_ready: what was posted when the tail was read.
    method CqReady() returns (n: nat)
      requires Valid()
      modifies `sqHead, `taken, `cqTail, `posted, cqes
      ensures Valid()
      ensures old(taken) <= taken && old(posted) <= posted
      ensures old(|posted|) <= consumed + n <= |posted|
    {
      hide Valid, Wrap, Pow2;
      Kernel();
      var tail := cqTail;
      ghost var t := |posted|;
      CqTailIs();
      Kernel();
      CqRoomAt(t, tail);
      n := ReadyCount(tail, cqHead, Pow2(cqBits));
      Kernel();
    }

    // The slot of a completion that is ready, reached from the head: it holds that completion.
    lemma ReadySlot(i: nat, head: u32)
      requires Valid() && consumed + i < |posted| && head == Wrap(cqHead + i)
      ensures And(head, Pow2(cqBits) - 1) < cqes.Length
      ensures cqes[And(head, Pow2(cqBits) - 1)] == posted[consumed + i]
    {
      hide Pow2, And, SqSlot, SqCounters, SqSlots, CqSlot, Wrap;
      WrapNext(cqBase + consumed, i);
      CqIndex(consumed + i, head);
    }

    // kyte_uring_peek and kyte_uring_peek_flags: the i-th completion ready. What the kernel posts
    // after the head is read leaves the slot as it is.
    method Peek(i: nat) returns (c: Cqe)
      requires Valid() && consumed + i < |posted|
      modifies `sqHead, `taken, `cqTail, `posted, cqes
      ensures Valid()
      ensures old(taken) <= taken && old(posted) <= posted
      ensures c == old(posted[consumed + i])
    {
      hide Valid, Pow2, And, Wrap;
      Kernel();
      var head := Wrap(cqHead + i);
      Kernel();
      ReadySlot(i, head);
      c := cqes[And(head, Pow2(cqBits) - 1)];
      Kernel();
    }

    // kyte_uring_advance.
    method Advance(n: int)
      requires Valid() && consumed + n <= |posted|
      modifies `cqHead, `consumed
      ensures Valid()
      ensures consumed == if n <= 0 then old(consumed) else old(consumed) + n
    {
      hide Pow2, And, SqSlot, SqCounters, SqSlots, CqSlot, Wrap;
      if n <= 0 { return; }
      WrapNext(cqBase + consumed, n);
      cqHead := Wrap(cqHead + n);
      consumed := consumed + n;
    }

    // Peeking at all that is ready and then advancing delivers the completions that follow those
    // delivered before, each once and in order.
    method Drain() returns (out: seq<Cqe>)
      requires Valid()
      modifies `sqHead, `taken, `cqTail, `posted, `cqHead, `consumed, cqes
      ensures Valid()
      ensures old(taken) <= taken && old(posted) <= posted
      ensures old(consumed) <= consumed <= |posted| && out == posted[old(consumed)..consumed]
      ensures old(|posted|) <= consumed
    {
      hide Valid;
      var n := CqReady();
      out := [];
      for i := 0 to n
        invariant Valid()
        invariant old(taken) <= taken && old(posted) <= posted
        invariant consumed == old(consumed) && old(|posted|) <= consumed + n <= |posted|
        invariant out == posted[consumed..consumed + i]
      {
        var c := Peek(i);
        out := out + [c];
      }
      Advance(n);
      Kernel();
    }
  }

  // The completions between the head and the tail; none when the head has run past the tail.
  method ReadyCount(tail: u32, head: u32, entries: nat) returns (n: nat)
    ensures n == if Wrap(tail - head) <= entries then Wrap(tail - head) else 0
  {
    n := Wrap(tail - head);
    if n > entries { return 0; }
  }

  // A head up to 2^32 - entries - 1 past the tail is told from one that is not.
  lemma OverConsumed(tail: nat, past: nat, entries: nat)
    requires entries < TWO32 && 0 < past < TWO32 - entries
    ensures Wrap(Wrap(tail) - Wrap(tail + past)) > entries
  {
    Distance(tail, tail + past);
    Opposite(Wrap(tail + past), Wrap(tail));
  }

  lemma Opposite(x: u32, y: u32)
    requires x != y
    ensures Wrap(y - x) == TWO32 - Wrap(x - y)
  {}

  // The deliveries of one call follow those of the call before.
  lemma DrainsCompose(first: seq<Cqe>, posted1: seq<Cqe>, second: seq<Cqe>, posted2: seq<Cqe>, a: nat, b: nat, c: nat)
    requires a <= b <= |posted1| && b <= c <= |posted2| && posted1 <= posted2
    requires first == posted1[a..b] && second == posted2[b..c]
    ensures first + second == posted2[a..c]
  {
    assert posted1[a..b] == posted2[a..b];
  }

  lemma BelowTwo32(k: nat)
    requires k < 32
    ensures Pow2(k) < TWO32
  {
    Pow2Is32();
    Pow2Mono(k, 32);
  }
}
