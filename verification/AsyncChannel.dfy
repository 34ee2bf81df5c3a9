// The channel between coroutines (src/runtime/concurrency.cpp:1261-1300, 915-921): senders and
// receivers on any threads, receivers that park when there is nothing to take, and the run queue
// that wakes them.

module AsyncChannel {

  type handle = int

  // The two queues under the lock.
  datatype Chan = Chan(values: seq<int>, waiters: seq<handle>)

  datatype Option<T> = None | Some(value: T)

  // What a send leaves, and whom it wakes: 0 for nobody.
  function SendTo(c: Chan, v: int): (Chan, handle) {
    if c.waiters == [] then (Chan(c.values + [v], []), 0)
    else (Chan(c.values + [v], c.waiters[1..]), c.waiters[0])
  }

  // What a receive leaves, and what it gets; a receiver that gets nothing parks itself.
  function RecvFrom(c: Chan, self: handle): (Chan, Option<int>) {
    if c.values != [] then (Chan(c.values[1..], c.waiters), Some(c.values[0]))
    else (Chan([], if self != 0 then c.waiters + [self] else c.waiters), None)
  }

  // The critical sections of kyte_chan_send and kyte_chan_recv.
  class KyteChan {
    var values: seq<int>
    var recvWaiters: seq<handle>

    constructor ()
      ensures Abs() == Chan([], [])
    {
      values, recvWaiters := [], [];
    }

    function Abs(): Chan
      reads this
    {
      Chan(values, recvWaiters)
    }

    method SendLocked(val: int) returns (waiter: handle)
      modifies this
      ensures (Abs(), waiter) == SendTo(old(Abs()), val)
    {
      waiter := 0;
      values := values + [val];
      if recvWaiters != [] {
        waiter := recvWaiters[0];
        recvWaiters := recvWaiters[1..];
      }
    }

    method Recv(self: handle) returns (got: bool, out: int)
      modifies this
      ensures var r := RecvFrom(old(Abs()), self);
        Abs() == r.0 && got == r.1.Some? && (got ==> out == r.1.value)
    {
      out := 0;
      if values != [] {
        out := values[0];
        values := values[1..];
        return true, out;
      }
      if self != 0 { recvWaiters := recvWaiters + [self]; }
      got := false;
    }
  }

  // ------------------------------------------------------------ everybody together

  // The channel; receivers taken off it by sends that have not scheduled them yet, in the run
  // queue, and resumed from it but not yet back in recv; and what has happened so far.
  datatype State = State(
    chan: Chan,
    inFlight: multiset<handle>,
    runQueue: seq<handle>,
    resumed: multiset<handle>,
    sent: seq<int>,
    received: seq<int>,
    parked: seq<handle>,
    woken: seq<handle>)

  datatype Action =
    | Send(v: int)           // the critical section of a send
    | Schedule(h: handle)    // the same send, putting the receiver it took on the run queue
    | Resume                 // the reactor takes the next coroutine off the run queue
    | Retry(h: handle)       // a resumed receiver calls recv again
    | Receive(h: handle)     // a receiver calls recv for the first time, or does not park (0)

  predicate Enabled(s: State, a: Action) {
    match a
    case Send(v) => true
    case Schedule(h) => h in s.inFlight
    case Resume => s.runQueue != []
    case Retry(h) => h in s.resumed && h != 0
    case Receive(h) => true
  }

  function Took(s: State, h: handle): State {
    var (c, r) := RecvFrom(s.chan, h);
    s.(chan := c,
       received := if r.Some? then s.received + [r.value] else s.received,
       parked := if r.None? && h != 0 then s.parked + [h] else s.parked)
  }

  function Next(s: State, a: Action): State
    requires Enabled(s, a)
  {
    match a
    case Send(v) =>
      var (c, w) := SendTo(s.chan, v);
      s.(chan := c, sent := s.sent + [v],
         inFlight := if w != 0 then s.inFlight + multiset{w} else s.inFlight,
         woken := if w != 0 then s.woken + [w] else s.woken)
    case Schedule(h) => s.(inFlight := s.inFlight - multiset{h}, runQueue := s.runQueue + [h])
    case Resume => s.(runQueue := s.runQueue[1..], resumed := s.resumed + multiset{s.runQueue[0]})
    case Retry(h) => Took(s.(resumed := s.resumed - multiset{h}), h)
    case Receive(h) => Took(s, h)
  }

  const START := State(Chan([], []), multiset{}, [], multiset{}, [], [], [], [])

  // Receivers woken and yet to retry.
  function Awake(s: State): nat { |s.inFlight| + |s.runQueue| + |s.resumed| }

  // Values come out in the order they went in, each once.
  predicate InOrder(s: State) { s.sent == s.received + s.chan.values }

  // Receivers are woken in the order they parked, each once.
  predicate WokenInOrder(s: State) { s.parked == s.woken + s.chan.waiters }

  // While any receiver is parked, every queued value has a receiver on its way to it.
  predicate NoneStranded(s: State) { s.chan.waiters != [] ==> |s.chan.values| <= Awake(s) }

  predicate Inv(s: State) {
    InOrder(s) && WokenInOrder(s) && NoneStranded(s) && 0 !in s.chan.waiters
  }

  lemma SendKeeps(s: State, v: int)
    requires Inv(s)
    ensures Inv(Next(s, Send(v)))
  {
    var t := Next(s, Send(v));
    assert t.sent == t.received + t.chan.values;
    if s.chan.waiters != [] {
      assert s.chan.waiters == [s.chan.waiters[0]] + s.chan.waiters[1..];
    }
  }

  lemma TookKeeps(s: State, h: handle, fewer: nat)
    requires InOrder(s) && WokenInOrder(s) && 0 !in s.chan.waiters
    requires fewer <= 1 && (s.chan.waiters != [] ==> |s.chan.values| <= Awake(s) + fewer)
    requires fewer == 0 || h != 0
    ensures Inv(Took(s, h))
  {
    var t := Took(s, h);
    if s.chan.values != [] {
      assert s.chan.values == [s.chan.values[0]] + s.chan.values[1..];
    }
    assert InOrder(t);
  }

  // Every step of anybody keeps the invariant.
  lemma StepKeeps(s: State, a: Action)
    requires Inv(s) && Enabled(s, a)
    ensures Inv(Next(s, a))
  {
    match a
    case Send(v) => SendKeeps(s, v);
    case Schedule(h) =>
    case Resume =>
    case Retry(h) => TookKeeps(s.(resumed := s.resumed - multiset{h}), h, 1);
    case Receive(h) => TookKeeps(s, h, 0);
  }

  // The states of a run from the start, by any actions in any order.
  ghost predicate Run(ss: seq<State>, actions: seq<Action>) {
    && |ss| == |actions| + 1
    && ss[0] == START
    && forall i :: 0 <= i < |actions| ==> Enabled(ss[i], actions[i]) && ss[i + 1] == Next(ss[i], actions[i])
  }

  lemma {:induction false} RunKeeps(ss: seq<State>, actions: seq<Action>, n: nat)
    requires Run(ss, actions) && n < |ss|
    ensures Inv(ss[n])
  {
    if n > 0 {
      RunKeeps(ss, actions, n - 1);
      StepKeeps(ss[n - 1], actions[n - 1]);
    }
  }

  // No wakeup is lost: while a receiver is parked the queued values do not outnumber the receivers
  // awake; once all that were woken have retried, nothing is left for those that are parked.
  lemma NoLostWakeup(ss: seq<State>, actions: seq<Action>, n: nat)
    requires Run(ss, actions) && n < |ss| && ss[n].chan.waiters != []
    ensures |ss[n].chan.values| <= Awake(ss[n])
    ensures Awake(ss[n]) == 0 ==> ss[n].chan.values == [] && ss[n].received == ss[n].sent
  {
    RunKeeps(ss, actions, n);
  }

  // Every value sent is received once or still queued, in order, in every run.
  lemma Delivered(ss: seq<State>, actions: seq<Action>, n: nat)
    requires Run(ss, actions) && n < |ss|
    ensures ss[n].sent == ss[n].received + ss[n].chan.values
    ensures ss[n].parked == ss[n].woken + ss[n].chan.waiters
  {
    RunKeeps(ss, actions, n);
  }
}
