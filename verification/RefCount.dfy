// Reference counting (src/runtime/alloc.cpp:507-555): retains and releases by any number of
// threads, each access to the count a step of its own, plain while there is one thread and
// atomic from then on.

module RefCount {

  // Where a thread stands inside kyte_retain or kyte_release.
  datatype Pc =
    | Idle
    | Retaining              // past the sign check, before the atomic addition
    | Releasing              // past the sign check, before the atomic subtraction
    | PlainRetain(v: int)    // the count read, not yet written back
    | PlainRelease(v: int)
    | Marking                // the count came to zero: about to store -999
    | Destroying             // about to run the destructor
    | Freeing                // about to free the object

  // The references a thread holds, and where it stands.
  datatype Thread = Thread(owned: nat, pc: Pc)

  datatype State = State(
    rc: int,
    multi: bool,
    threads: seq<Thread>,
    destroyed: nat,
    freed: nat)

  datatype Action =
    | StartRetain(t: nat)
    | AddOne(t: nat)
    | StartRelease(t: nat)
    | SubOne(t: nat)
    | Mark(t: nat)
    | Destroy(t: nat)
    | Free(t: nat)
    | Give(t: nat, u: nat)   // a reference handed from one thread to another
    | GoMulti                // before the second thread is created

  const DEAD := -999

  predicate Idles(s: State, t: nat) {
    t < |s.threads| && s.threads[t].pc == Idle
  }

  // A thread starts only what it holds a reference for; there is no second thread before GoMulti.
  predicate Enabled(s: State, a: Action) {
    match a
    case StartRetain(t) => Idles(s, t) && s.threads[t].owned > 0
    case AddOne(t) => t < |s.threads| && (s.threads[t].pc.Retaining? || s.threads[t].pc.PlainRetain?)
    case StartRelease(t) => Idles(s, t) && s.threads[t].owned > 0
    case SubOne(t) => t < |s.threads| && (s.threads[t].pc.Releasing? || s.threads[t].pc.PlainRelease?)
    case Mark(t) => t < |s.threads| && s.threads[t].pc.Marking?
    case Destroy(t) => t < |s.threads| && s.threads[t].pc.Destroying?
    case Free(t) => t < |s.threads| && s.threads[t].pc.Freeing?
    case Give(t, u) => s.multi && Idles(s, t) && s.threads[t].owned > 0 && u < |s.threads| && u != t
    case GoMulti => Idles(s, 0)
  }

  function Set(s: State, t: nat, owned: nat, pc: Pc): State
    requires t < |s.threads|
  {
    s.(threads := s.threads[t := Thread(owned, pc)])
  }

  function Next(s: State, a: Action): State
    requires Enabled(s, a)
  {
    match a
    case StartRetain(t) =>
      var n := s.threads[t].owned;
      if s.rc < 0 then Set(s, t, n + 1, Idle)
      else Set(s, t, n, if s.multi then Retaining else PlainRetain(s.rc))
    case AddOne(t) =>
      var th := s.threads[t];
      Set(s.(rc := (if th.pc.PlainRetain? then th.pc.v else s.rc) + 1), t, th.owned + 1, Idle)
    case StartRelease(t) =>
      var n := s.threads[t].owned;
      if s.rc < 0 then Set(s, t, n - 1, Idle)
      else Set(s, t, n, if s.multi then Releasing else PlainRelease(s.rc))
    case SubOne(t) =>
      var th := s.threads[t];
      var was := if th.pc.PlainRelease? then th.pc.v else s.rc;
      Set(s.(rc := was - 1), t, if th.owned > 0 then th.owned - 1 else 0, if was == 1 then Marking else Idle)
    case Mark(t) => Set(s.(rc := DEAD), t, s.threads[t].owned, Destroying)
    case Destroy(t) => Set(s.(destroyed := s.destroyed + 1), t, s.threads[t].owned, Freeing)
    case Free(t) => Set(s.(freed := s.freed + 1), t, s.threads[t].owned, Idle)
    case Give(t, u) =>
      Set(Set(s, t, s.threads[t].owned - 1, Idle), u, s.threads[u].owned + 1, s.threads[u].pc)
    case GoMulti => s.(multi := true)
  }

  // Whether a step reads or writes the object.
  predicate Touches(a: Action) { !a.Give? && !a.GoMulti? }

  // ------------------------------------------------------------ outstanding references

  function Total(ts: seq<Thread>): nat {
    if ts == [] then 0 else Total(ts[..|ts| - 1]) + ts[|ts| - 1].owned
  }

  lemma {:induction false} TotalSet(ts: seq<Thread>, t: nat, th: Thread)
    requires t < |ts|
    ensures Total(ts[t := th]) == Total(ts) - ts[t].owned + th.owned
    ensures ts[t].owned <= Total(ts)
  {
    var n := |ts| - 1;
    if t == n {
      assert ts[t := th][..n] == ts[..n];
    } else {
      assert ts[t := th][..n] == ts[..n][t := th];
      TotalSet(ts[..n], t, th);
    }
  }

  // Two threads that hold references account for both.
  lemma TotalTwo(ts: seq<Thread>, t: nat, u: nat)
    requires t < |ts| && u < |ts| && t != u
    ensures ts[t].owned + ts[u].owned <= Total(ts)
  {
    TotalSet(ts, t, Thread(0, Idle));
    TotalSet(ts[t := Thread(0, Idle)], u, Thread(0, Idle));
  }

  // ------------------------------------------------------------ the invariant

  predicate Holding(th: Thread) {
    th.pc.Retaining? || th.pc.Releasing? || th.pc.PlainRetain? || th.pc.PlainRelease? ==> th.owned > 0
  }

  predicate Ending(pc: Pc) { pc.Marking? || pc.Destroying? || pc.Freeing? }

  // A plain access is only by the first thread, alone.
  predicate Alone(s: State) {
    !s.multi ==> forall u :: 0 < u < |s.threads| ==> s.threads[u] == Thread(0, Idle)
  }

  // In the middle of a plain access the count is as it was read; after GoMulti there is none.
  predicate PlainFresh(s: State) {
    forall u :: 0 <= u < |s.threads| ==>
      var pc := s.threads[u].pc;
      && (pc.PlainRetain? ==> !s.multi && pc.v == s.rc)
      && (pc.PlainRelease? ==> !s.multi && pc.v == s.rc)
      && (pc.Retaining? || pc.Releasing? ==> s.multi)
  }

  predicate AllHolding(s: State) {
    forall u :: 0 <= u < |s.threads| ==> Holding(s.threads[u])
  }

  // In use: the count is the number of references held, and nobody is ending the object.
  predicate InUse(s: State) {
    && s.rc == Total(s.threads) > 0
    && s.destroyed == 0 && s.freed == 0
    && AllHolding(s) && PlainFresh(s)
    && forall u :: 0 <= u < |s.threads| ==> !Ending(s.threads[u].pc)
  }

  // The last reference is gone and one thread is ending the object; nobody else is near it.
  predicate EndedBy(s: State, t: nat) {
    && t < |s.threads| && Total(s.threads) == 0
    && (forall u :: 0 <= u < |s.threads| && u != t ==> s.threads[u].pc == Idle)
    && match s.threads[t].pc
       case Marking => s.rc == 0 && s.destroyed == 0 && s.freed == 0
       case Destroying => s.rc == DEAD && s.destroyed == 0 && s.freed == 0
       case Freeing => s.rc == DEAD && s.destroyed == 1 && s.freed == 0
       case _ => false
  }

  ghost predicate BeingEnded(s: State) { exists t: nat :: EndedBy(s, t) }

  predicate Gone(s: State) {
    && Total(s.threads) == 0 && s.destroyed == 1 && s.freed == 1
    && forall u :: 0 <= u < |s.threads| ==> s.threads[u].pc == Idle
  }

  // An immortal object: its count was negative from the first and stays what it was.
  predicate Immortal(s: State, rc: int) {
    && rc < 0 && s.rc == rc && s.destroyed == 0 && s.freed == 0
    && forall u :: 0 <= u < |s.threads| ==> s.threads[u].pc == Idle
  }

  ghost predicate Inv(s: State) {
    Alone(s) && (InUse(s) || BeingEnded(s) || Gone(s))
  }

  lemma NoneOwned(s: State, t: nat)
    requires t < |s.threads| && Total(s.threads) == 0
    ensures s.threads[t].owned == 0
  {
    TotalSet(s.threads, t, Thread(0, Idle));
  }

  lemma RetainStep(s: State, t: nat)
    requires Alone(s) && InUse(s) && Enabled(s, StartRetain(t))
    ensures Inv(Next(s, StartRetain(t)))
  {
    TotalSet(s.threads, t, Next(s, StartRetain(t)).threads[t]);
  }

  lemma AddStep(s: State, t: nat)
    requires Alone(s) && InUse(s) && Enabled(s, AddOne(t))
    ensures Inv(Next(s, AddOne(t)))
  {
    TotalSet(s.threads, t, Next(s, AddOne(t)).threads[t]);
  }

  lemma ReleaseStep(s: State, t: nat)
    requires Alone(s) && InUse(s) && Enabled(s, StartRelease(t))
    ensures Inv(Next(s, StartRelease(t)))
  {
    TotalSet(s.threads, t, Next(s, StartRelease(t)).threads[t]);
  }

  lemma GiveStep(s: State, t: nat, u: nat)
    requires Alone(s) && InUse(s) && Enabled(s, Give(t, u))
    ensures Inv(Next(s, Give(t, u)))
  {
    var m := s.threads[t := Thread(s.threads[t].owned - 1, Idle)];
    TotalSet(s.threads, t, m[t]);
    TotalSet(m, u, Next(s, Give(t, u)).threads[u]);
  }

  lemma SubStep(s: State, t: nat)
    requires Alone(s) && InUse(s) && Enabled(s, SubOne(t))
    ensures Inv(Next(s, SubOne(t)))
  {
    var s' := Next(s, SubOne(t));
    TotalSet(s.threads, t, s'.threads[t]);
    if s.rc == 1 {
      forall u | 0 <= u < |s.threads| && u != t ensures s'.threads[u].pc == Idle {
        TotalTwo(s.threads, t, u);
      }
      assert EndedBy(s', t);
    }
  }

  // While the object is in use every step leaves it in use, or ends it by exactly one thread.
  lemma InUseStep(s: State, a: Action)
    requires Alone(s) && InUse(s) && Enabled(s, a)
    ensures Inv(Next(s, a))
  {
    if a.StartRetain? {
      RetainStep(s, a.t);
    } else if a.AddOne? {
      AddStep(s, a.t);
    } else if a.StartRelease? {
      ReleaseStep(s, a.t);
    } else if a.SubOne? {
      SubStep(s, a.t);
    } else if a.Give? {
      GiveStep(s, a.t, a.u);
    }
  }

  lemma EndingStep(s: State, t: nat, a: Action)
    requires Alone(s) && EndedBy(s, t) && Enabled(s, a)
    ensures Inv(Next(s, a))
    ensures Touches(a) ==> a.t == t
  {
    var s' := Next(s, a);
    if a.StartRetain? || a.StartRelease? || a.Give? {
      NoneOwned(s, a.t);
      assert false;
    } else if a.GoMulti? {
      assert EndedBy(s', t);
    } else {
      TotalSet(s.threads, t, s'.threads[t]);
      if !a.Free? { assert EndedBy(s', t); }
    }
  }

  // Nothing but giving what is not there, or becoming many, can happen after the end.
  lemma GoneStep(s: State, a: Action)
    requires Alone(s) && Gone(s) && Enabled(s, a)
    ensures Inv(Next(s, a)) && a.GoMulti?
  {
    if a.StartRetain? || a.StartRelease? || a.Give? {
      NoneOwned(s, a.t);
      assert false;
    }
  }

  lemma StepKeeps(s: State, a: Action)
    requires Inv(s) && Enabled(s, a)
    ensures Inv(Next(s, a))
  {
    if InUse(s) {
      InUseStep(s, a);
    } else if BeingEnded(s) {
      var t: nat :| EndedBy(s, t);
      EndingStep(s, t, a);
    } else {
      GoneStep(s, a);
    }
  }

  lemma ImmortalStep(s: State, rc: int, a: Action)
    requires Immortal(s, rc) && Enabled(s, a)
    ensures Immortal(Next(s, a), rc)
  {}

  // ------------------------------------------------------------ runs

  // A new object: one reference, held by the first thread; n threads in all, some time or other.
  function Fresh(rc: int, n: nat): State {
    State(rc, false, [Thread(1, Idle)] + seq(n, i => Thread(0, Idle)), 0, 0)
  }

  ghost predicate Run(rc: int, n: nat, ss: seq<State>, actions: seq<Action>) {
    && |ss| == |actions| + 1
    && ss[0] == Fresh(rc, n)
    && forall i :: 0 <= i < |actions| ==> Enabled(ss[i], actions[i]) && ss[i + 1] == Next(ss[i], actions[i])
  }

  lemma {:induction false} FreshTotal(n: nat)
    ensures Total(Fresh(1, n).threads) == 1
  {
    var ts := Fresh(1, n).threads;
    if n == 0 {
      assert ts == [Thread(1, Idle)];
      assert Total(ts[..0]) == 0;
    } else {
      FreshTotal(n - 1);
      assert ts[..n] == Fresh(1, n - 1).threads;
    }
  }

  lemma {:induction false} RunKeeps(n: nat, ss: seq<State>, actions: seq<Action>, k: nat)
    requires Run(1, n, ss, actions) && k < |ss|
    ensures Inv(ss[k])
  {
    if k == 0 {
      FreshTotal(n);
    } else {
      RunKeeps(n, ss, actions, k - 1);
      StepKeeps(ss[k - 1], actions[k - 1]);
    }
  }

  lemma {:induction false} ImmortalRun(rc: int, n: nat, ss: seq<State>, actions: seq<Action>, k: nat)
    requires rc < 0 && Run(rc, n, ss, actions) && k < |ss|
    ensures Immortal(ss[k], rc)
  {
    if k > 0 {
      ImmortalRun(rc, n, ss, actions, k - 1);
      ImmortalStep(ss[k - 1], rc, actions[k - 1]);
    }
  }

  // In every run the destructor runs at most once and before the one free, only when no
  // reference is left, and no step touches the object once it is freed.
  lemma Safe(n: nat, ss: seq<State>, actions: seq<Action>, k: nat)
    requires Run(1, n, ss, actions) && k < |actions|
    ensures ss[k].freed <= ss[k].destroyed <= 1
    ensures ss[k].freed > 0 ==> !Touches(actions[k])
    ensures actions[k].Destroy? ==> ss[k].destroyed == 0 && Total(ss[k].threads) == 0
    ensures actions[k].Free? ==> ss[k].freed == 0 && ss[k].destroyed == 1 && Total(ss[k].threads) == 0
  {
    var s, a := ss[k], actions[k];
    RunKeeps(n, ss, actions, k);
    if Gone(s) {
      GoneStep(s, a);
    } else if BeingEnded(s) {
      var t: nat :| EndedBy(s, t);
      EndingStep(s, t, a);
    }
  }

  // The count is the number of references out while any is.
  lemma Counts(n: nat, ss: seq<State>, actions: seq<Action>, k: nat)
    requires Run(1, n, ss, actions) && k < |ss|
    ensures Total(ss[k].threads) > 0 ==> ss[k].rc == Total(ss[k].threads) && ss[k].destroyed == 0 && ss[k].freed == 0
  {
    RunKeeps(n, ss, actions, k);
  }

  // When the last reference is gone and every thread has finished what it was doing, the object
  // has been destroyed and freed, exactly once.
  lemma NoLeak(n: nat, ss: seq<State>, actions: seq<Action>, k: nat)
    requires Run(1, n, ss, actions) && k < |ss|
    requires Total(ss[k].threads) == 0 && forall u :: 0 <= u < |ss[k].threads| ==> ss[k].threads[u].pc == Idle
    ensures ss[k].destroyed == 1 && ss[k].freed == 1
  {
    RunKeeps(n, ss, actions, k);
  }

  // ------------------------------------------------------------ the code

  // The thread that takes a step.
  function Actor(a: Action): nat { if a.GoMulti? then 0 else a.t }

  lemma OthersStep(s: State, a: Action, t: nat)
    requires Enabled(s, a) && Actor(a) != t && t < |s.threads|
    ensures var s' := Next(s, a);
      |s'.threads| == |s.threads| && s'.threads[t].pc == s.threads[t].pc
      && s'.threads[t].owned == s.threads[t].owned + Gift(a, t) && (s.multi ==> s'.multi)
  {}

  // Where a list of steps leads, when each can be made.
  datatype Option<T> = None | Some(value: T)

  function After(s: State, steps: seq<Action>): Option<State> {
    if steps == [] then Some(s)
    else
      match After(s, steps[..|steps| - 1])
      case None => None
      case Some(m) => if Enabled(m, steps[|steps| - 1]) then Some(Next(m, steps[|steps| - 1])) else None
  }

  // The steps among them that t takes, and the references it is handed by the others.
  function Own(steps: seq<Action>, t: nat): seq<Action> {
    if steps == [] then []
    else Own(steps[..|steps| - 1], t) + (if Actor(steps[|steps| - 1]) == t then [steps[|steps| - 1]] else [])
  }

  function Gift(a: Action, t: nat): nat { if a.Give? && a.u == t then 1 else 0 }

  function Gifts(steps: seq<Action>, t: nat): nat {
    if steps == [] then 0 else Gifts(steps[..|steps| - 1], t) + Gift(steps[|steps| - 1], t)
  }

  lemma OneMore(s: State, steps: seq<Action>, m: State, a: Action, t: nat)
    requires After(s, steps) == Some(m) && Enabled(m, a)
    ensures After(s, steps + [a]) == Some(Next(m, a))
    ensures Own(steps + [a], t) == Own(steps, t) + (if Actor(a) == t then [a] else [])
    ensures Gifts(steps + [a], t) == Gifts(steps, t) + Gift(a, t)
  {
    assert (steps + [a])[..|steps|] == steps;
  }

  ghost predicate Good(s: State, initial: int) {
    if initial < 0 then Immortal(s, initial) else Inv(s)
  }

  lemma GoodStep(s: State, initial: int, a: Action)
    requires Good(s, initial) && Enabled(s, a)
    ensures Good(Next(s, a), initial)
  {
    if initial < 0 { ImmortalStep(s, initial, a); } else { StepKeeps(s, a); }
  }

  // A thread that holds a reference finds the object there, and counted.
  lemma HolderFinds(s: State, initial: int, t: nat)
    requires Good(s, initial) && t < |s.threads| && s.threads[t].owned > 0
    ensures s.freed == 0 && s.destroyed == 0
    ensures s.rc < 0 <==> initial < 0
    ensures initial >= 0 ==> InUse(s)
  {
    TotalSet(s.threads, t, Thread(0, Idle));
  }

  // So does one between its two accesses, and no other thread has moved a plain count meanwhile.
  lemma AccessFinds(s: State, initial: int, t: nat)
    requires Good(s, initial) && t < |s.threads|
    requires !s.threads[t].pc.Idle? && !Ending(s.threads[t].pc)
    ensures s.freed == 0 && s.threads[t].owned > 0 && s.rc > 0
    ensures var pc := s.threads[t].pc;
      (pc.PlainRetain? || pc.PlainRelease? ==> pc.v == s.rc)
  {}

  // The header of an object, with the threads around it.
  class Object {
    var rc: int
    var multi: bool
    var threads: seq<Thread>
    var destroyed: nat
    var freed: nat
    ghost const initial: int

    constructor (n: nat)
      ensures Abs() == Fresh(1, n) && initial == 1 && Good(Abs(), initial)
    {
      FreshTotal(n);
      rc, multi, destroyed, freed, initial := 1, false, 0, 0, 1;
      threads := [Thread(1, Idle)] + seq(n, i => Thread(0, Idle));
    }

    function Abs(): State
      reads this
    {
      State(rc, multi, threads, destroyed, freed)
    }

    // Any number of steps of the other threads, on top of those made since s.
    method Others(t: nat, ghost s: State, ghost steps: seq<Action>) returns (ghost more: seq<Action>)
      requires Good(Abs(), initial) && t < |threads| && After(s, steps) == Some(Abs())
      modifies this
      ensures Good(Abs(), initial) && |threads| == old(|threads|) && After(s, more) == Some(Abs())
      ensures threads[t].pc == old(threads[t].pc) && (old(multi) ==> multi)
      ensures Own(more, t) == Own(steps, t)
      ensures threads[t].owned - Gifts(more, t) == old(threads[t].owned) - Gifts(steps, t) && Gifts(more, t) >= Gifts(steps, t)
    {
      hide Good, Next, Enabled, After, Own, Gifts;
      var turns: nat := *;
      more := steps;
      while turns > 0
        invariant Good(Abs(), initial) && |threads| == old(|threads|) && After(s, more) == Some(Abs())
        invariant threads[t].pc == old(threads[t].pc) && (old(multi) ==> multi)
        invariant Own(more, t) == Own(steps, t)
        invariant threads[t].owned - Gifts(more, t) == old(threads[t].owned) - Gifts(steps, t) && Gifts(more, t) >= Gifts(steps, t)
      {
        var a: Action := *;
        if Enabled(Abs(), a) && Actor(a) != t {
          OthersStep(Abs(), a, t);
          GoodStep(Abs(), initial, a);
          OneMore(s, more, Abs(), a, t);
          var next := Next(Abs(), a);
          rc, multi, threads, destroyed, freed := next.rc, next.multi, next.threads, next.destroyed, next.freed;
          more := more + [a];
        }
        turns := turns - 1;
      }
    }

    // kyte_retain by a thread that holds a reference: its accesses are those of the machine, with
    // any steps of the others in between, and it holds one reference more besides those it was given.
    method Retain(t: nat) returns (ghost steps: seq<Action>)
      requires Good(Abs(), initial) && Idles(Abs(), t) && threads[t].owned > 0
      modifies this
      ensures Good(Abs(), initial) && Idles(Abs(), t) && After(old(Abs()), steps) == Some(Abs())
      ensures Own(steps, t) == if initial < 0 then [StartRetain(t)] else [StartRetain(t), AddOne(t)]
      ensures threads[t].owned == old(threads[t].owned) + 1 + Gifts(steps, t)
      ensures freed == 0
    {
      hide Good, InUse, Fresh, After, Own, Gifts;
      ghost var s := Abs();
      NoSteps(s, t);
      steps := Others(t, s, []);
      HolderFinds(Abs(), initial, t);
      GoodStep(Abs(), initial, StartRetain(t));
      OneMore(s, steps, Abs(), StartRetain(t), t);
      steps := steps + [StartRetain(t)];
      var owned := threads[t].owned;
      if rc < 0 {
        threads := threads[t := Thread(owned + 1, Idle)];
        steps := Others(t, s, steps);
        HolderFinds(Abs(), initial, t);
        return;
      }
      var v := rc;
      threads := threads[t := Thread(owned, if multi then Retaining else PlainRetain(v))];
      steps := Others(t, s, steps);
      AccessFinds(Abs(), initial, t);
      GoodStep(Abs(), initial, AddOne(t));
      OneMore(s, steps, Abs(), AddOne(t), t);
      steps := steps + [AddOne(t)];
      owned := threads[t].owned;
      // an addition to what the count is now; a plain one stores what was read, plus one
      rc := (if threads[t].pc.PlainRetain? then v else rc) + 1;
      threads := threads[t := Thread(owned + 1, Idle)];
      steps := Others(t, s, steps);
      HolderFinds(Abs(), initial, t);
    }

    // kyte_release by a thread that holds a reference: it gives up one reference, and the thread
    // that takes the count to zero, and no other, ends the object.
    method Release(t: nat) returns (ghost steps: seq<Action>, ghost last: bool)
      requires Good(Abs(), initial) && Idles(Abs(), t) && threads[t].owned > 0
      modifies this
      ensures Good(Abs(), initial) && Idles(Abs(), t) && After(old(Abs()), steps) == Some(Abs())
      ensures Own(steps, t) == [StartRelease(t)] + (if initial < 0 then [] else [SubOne(t)])
                               + (if last then [Mark(t), Destroy(t), Free(t)] else [])
      ensures threads[t].owned == old(threads[t].owned) - 1 + Gifts(steps, t)
      ensures last ==> initial >= 0 && destroyed == freed == 1
    {
      hide Good, InUse, Fresh, After, Own, Gifts;
      ghost var s := Abs();
      NoSteps(s, t);
      last := false;
      steps := Others(t, s, []);
      HolderFinds(Abs(), initial, t);
      GoodStep(Abs(), initial, StartRelease(t));
      OneMore(s, steps, Abs(), StartRelease(t), t);
      steps := steps + [StartRelease(t)];
      var owned := threads[t].owned;
      if rc < 0 {
        threads := threads[t := Thread(owned - 1, Idle)];
        return;
      }
      var v := rc;
      threads := threads[t := Thread(owned, if multi then Releasing else PlainRelease(v))];
      steps := Others(t, s, steps);
      AccessFinds(Abs(), initial, t);
      GoodStep(Abs(), initial, SubOne(t));
      OneMore(s, steps, Abs(), SubOne(t), t);
      steps := steps + [SubOne(t)];
      var was := if threads[t].pc.PlainRelease? then v else rc;
      rc := was - 1;
      threads := threads[t := Thread(threads[t].owned - 1, if was == 1 then Marking else Idle)];
      if was == 1 {
        steps := End(t, s, steps);
        last := true;
      }
    }

    // The count is marked dead, the destructor runs, and the object is freed.
    method End(t: nat, ghost s: State, ghost steps: seq<Action>) returns (ghost more: seq<Action>)
      requires Good(Abs(), initial) && t < |threads| && threads[t].pc == Marking && After(s, steps) == Some(Abs())
      modifies this
      ensures Good(Abs(), initial) && Idles(Abs(), t) && After(s, more) == Some(Abs())
      ensures Own(more, t) == Own(steps, t) + [Mark(t), Destroy(t), Free(t)]
      ensures threads[t].owned - Gifts(more, t) == old(threads[t].owned) - Gifts(steps, t)
      ensures freed == destroyed == 1 && rc == -999
    {
      hide Good, InUse, Fresh, After, Own, Gifts;
      more := Others(t, s, steps);
      GoodStep(Abs(), initial, Mark(t));
      OneMore(s, more, Abs(), Mark(t), t);
      more := more + [Mark(t)];
      rc := DEAD;
      threads := threads[t := Thread(threads[t].owned, Destroying)];
      more := Drop(t, s, more);
    }

    // The destructor runs, and the memory is freed.
    method Drop(t: nat, ghost s: State, ghost steps: seq<Action>) returns (ghost more: seq<Action>)
      requires Good(Abs(), initial) && t < |threads| && threads[t].pc == Destroying && After(s, steps) == Some(Abs())
      modifies this
      ensures Good(Abs(), initial) && Idles(Abs(), t) && After(s, more) == Some(Abs())
      ensures Own(more, t) == Own(steps, t) + [Destroy(t), Free(t)]
      ensures threads[t].owned - Gifts(more, t) == old(threads[t].owned) - Gifts(steps, t)
      ensures freed == destroyed == 1 && rc == -999
    {
      hide Good, InUse, Fresh, After, Own, Gifts;
      more := Others(t, s, steps);
      GoodStep(Abs(), initial, Destroy(t));
      OneMore(s, more, Abs(), Destroy(t), t);
      more := more + [Destroy(t)];
      destroyed := destroyed + 1;
      threads := threads[t := Thread(threads[t].owned, Freeing)];
      more := Others(t, s, more);
      FreeingFinds(Abs(), initial, t);
      GoodStep(Abs(), initial, Free(t));
      OneMore(s, more, Abs(), Free(t), t);
      more := more + [Free(t)];
      freed := freed + 1;
      threads := threads[t := Thread(threads[t].owned, Idle)];
    }

    lemma FreeingFinds(s: State, initial: int, t: nat)
      requires Good(s, initial) && t < |s.threads| && s.threads[t].pc == Freeing
      ensures s.destroyed == 1 && s.freed == 0 && s.rc == DEAD
    {}

    lemma NoSteps(s: State, t: nat)
      ensures After(s, []) == Some(s) && Own([], t) == [] && Gifts([], t) == 0
    {}
  }
}
