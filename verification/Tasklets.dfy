/**
  * The state of lib_pypy/stackless.py and its steps. Control changes hands only inside `schedule`, so
  * what a tasklet does between two switches is one atomic step. Tasklets and channels are numbered.
  */
module Tasklets {
  import opened SeqOps

  /** What a tasklet sends: any value, or a `bomb` that the receiver raises instead of returning it. */
  datatype Value = PyNone | Message(id: int) | Bomb(id: int)

  datatype Task = Task(blocked: int, tempval: Value)

  datatype Channel = Channel(balance: int, queue: seq<nat>, preference: int, scheduleAll: bool)

  /** The module globals `_squeue` and `_last_task`, the running tasklet, and all the objects. */
  datatype State = State(squeue: seq<nat>, lastTask: nat, current: nat,
                         tasks: map<nat, Task>, channels: map<nat, Channel>)

  /** A call on a channel: the `k`-th send on it or the `k`-th receive, counted from 0. */
  datatype Call = Send(c: nat, k: nat) | Receive(c: nat, k: nat)

  /**
    * What the calls so far were, which no state of the program records: the values sent on each
    * channel, the number of receives, and for each tasklet the call it has not returned from.
    */
  datatype History = History(calls: map<nat, Calls>, pending: map<nat, Call>)

  datatype Calls = Calls(sent: seq<Value>, receives: nat)

  /** `_scheduler_append`. */
  function Appended(q: seq<nat>, t: nat, normal: bool): seq<nat> {
    if normal then q + [t] else Rotated([t] + Rotated(q, -1), 1)
  }

  /** `_scheduler_remove`, which removes the first occurrence, if there is one. */
  function Removed(q: seq<nat>, t: nat): seq<nat> {
    if q == [] then [] else if q[0] == t then q[1..] else [q[0]] + Removed(q[1..], t)
  }

  /** References lead to objects. */
  predicate Closed(s: State) {
    && s.current in s.tasks
    && (forall t :: t in s.squeue ==> t in s.tasks)
    && forall c :: c in s.channels ==> ClosedChannel(s, s.channels[c])
  }

  predicate ClosedChannel(s: State, ch: Channel) {
    |ch.queue| == Size(ch.balance) && forall t :: t in ch.queue ==> t in s.tasks
  }

  /** What `_channel_action` is called with: by `send` with 1, by `receive` with None and -1. */
  predicate IsCall(arg: Value, d: int) {
    d == 1 || (d == -1 && arg == PyNone)
  }

  /** Whether somebody waits for a call in direction `d`: 1 is a send, -1 a receive. */
  predicate CanDo(ch: Channel, d: int) {
    if d > 0 then ch.balance < 0 else ch.balance > 0
  }

  /** Whether the running tasklet gives way after the call. */
  predicate GivesWay(ch: Channel, d: int) {
    !CanDo(ch, d) || ch.scheduleAll || ch.preference == -d
  }

  /** The call meets the first waiting tasklet: they exchange their `tempval`. */
  function Met(s: State, c: nat, arg: Value, d: int): State
    requires Closed(s) && c in s.channels && CanDo(s.channels[c], d)
  {
    var ch, target := s.channels[c], s.channels[c].queue[0];
    s.(squeue := Appended(s.squeue, target, ch.scheduleAll || ch.preference != -d),
       tasks := s.tasks[s.current := s.tasks[s.current].(tempval := s.tasks[target].tempval)]
                       [target := Task(0, arg)],
       channels := s.channels[c := ch.(balance := ch.balance + d, queue := ch.queue[1..])])
  }

  /** The call finds nobody: the running tasklet joins the queue of the channel. */
  function Waiting(s: State, c: nat, arg: Value, d: int): State
    requires s.current in s.tasks && c in s.channels
  {
    var ch := s.channels[c];
    s.(squeue := Removed(s.squeue, s.current),
       tasks := s.tasks[s.current := Task(d, arg)],
       channels := s.channels[c := ch.(balance := ch.balance + d, queue := ch.queue + [s.current])])
  }

  /** `_channel_action` up to its call of `schedule`. */
  function Communicated(s: State, c: nat, arg: Value, d: int): State
    requires Closed(s) && c in s.channels
  {
    if CanDo(s.channels[c], d) then Met(s, c, arg, d) else Waiting(s, c, arg, d)
  }

  /** `schedule`, when some tasklet is runnable. */
  function Scheduled(s: State): State
    requires s.squeue != []
  {
    var q := if s.squeue[0] == s.current then Rotated(s.squeue, -1) else s.squeue;
    s.(squeue := q, lastTask := q[0], current := q[0])
  }

  /** A new tasklet, appended by `setup`. */
  function SetUp(s: State, t: nat): State {
    s.(squeue := Appended(s.squeue, t, true), tasks := s.tasks[t := Task(0, PyNone)])
  }

  function Called(s: State, h: History, c: nat, arg: Value, d: int): History
    requires c in h.calls
  {
    if d > 0 then
      History(h.calls[c := h.calls[c].(sent := h.calls[c].sent + [arg])],
              h.pending[s.current := Send(c, |h.calls[c].sent|)])
    else
      History(h.calls[c := h.calls[c].(receives := h.calls[c].receives + 1)],
              h.pending[s.current := Receive(c, h.calls[c].receives)])
  }

  function Returned(h: History, t: nat): History {
    h.(pending := h.pending - {t})
  }

  /** What the running tasklet does next. */
  datatype Event =
    | Sends(c: nat, value: Value)
    | Receives(c: nat)
    | Schedules
    | SetsUp(t: nat)
    | Opens(c: nat)
    | Prefers(c: nat, preference: int, scheduleAll: bool)

  datatype Return = Return(t: nat, call: Call, value: Value)

  /** `schedule` raises when no tasklet is runnable; otherwise some call may return. */
  datatype Outcome = Deadlock | Continues(s: State, h: History, results: seq<Return>)

  /** The tasklet that now runs returns from the call that it was in, with its `tempval`. */
  function Resumed(s: State, h: History): (r: Outcome)
    requires s.current in s.tasks
    ensures r.Continues? && r.h.calls == h.calls
  {
    if s.current in h.pending then
      Continues(s, Returned(h, s.current), [Return(s.current, h.pending[s.current], s.tasks[s.current].tempval)])
    else
      Continues(s, h, [])
  }

  /** `_channel_action`, up to the next point where a tasklet runs its own code. */
  function Acted(s: State, h: History, c: nat, arg: Value, d: int): (r: Outcome)
    requires Closed(s) && c in s.channels && c in h.calls
    requires forall t :: t in s.squeue ==> t in s.tasks
    ensures r.Continues? ==> r.h.calls == Called(s, h, c, arg, d).calls
  {
    var s', h' := Communicated(s, c, arg, d), Called(s, h, c, arg, d);
    if !GivesWay(s.channels[c], d) then Resumed(s', h')
    else if s'.squeue == [] then Deadlock
    else Resumed(Scheduled(s'), h')
  }
}

/** What every step keeps. */
module TaskletInvariants {
  import opened SeqOps
  import opened Tasklets

  /** The number of calls that have met their partner. */
  ghost function Matched(h: History, c: nat): nat
    requires c in h.calls
  {
    if |h.calls[c].sent| < h.calls[c].receives then |h.calls[c].sent| else h.calls[c].receives
  }

  /** The tasklet at index `i` of the queue waits for the partner of its own call. */
  ghost predicate Waits(s: State, h: History, c: nat, i: nat)
    requires c in s.channels && c in h.calls
  {
    var ch := s.channels[c];
    i < |ch.queue| ==>
      var t, k := ch.queue[i], Matched(h, c) + i;
      && t in s.tasks && t in h.pending
      && if ch.balance > 0 then
           k < |h.calls[c].sent| && s.tasks[t] == Task(1, h.calls[c].sent[k]) && h.pending[t] == Send(c, k)
         else
           s.tasks[t] == Task(-1, PyNone) && h.pending[t] == Receive(c, k)
  }

  ghost predicate ChannelOk(s: State, h: History, c: nat)
    requires c in s.channels
  {
    && c in h.calls
    && s.channels[c].balance == |h.calls[c].sent| - h.calls[c].receives
    && |s.channels[c].queue| == Size(s.channels[c].balance)
    && forall i: nat :: Waits(s, h, c, i)
  }

  /** The value is the one with which the call returns. */
  ghost predicate Right(h: History, call: Call, value: Value) {
    match call
    case Send(c, k) => value == PyNone
    case Receive(c, k) => c in h.calls && k < |h.calls[c].sent| && value == h.calls[c].sent[k]
  }

  ghost predicate InQueue(s: State, h: History, t: nat, call: Call) {
    && call.c in s.channels && call.c in h.calls
    && 0 <= call.k - Matched(h, call.c) < |s.channels[call.c].queue|
    && s.channels[call.c].queue[call.k - Matched(h, call.c)] == t
  }

  /** A tasklet is runnable, with the result of its call at hand, or waits in a queue. */
  ghost predicate TaskOk(s: State, h: History, t: nat)
    requires t in s.tasks
  {
    if s.tasks[t].blocked == 0 then
      t in s.squeue && (t in h.pending ==> Right(h, h.pending[t], s.tasks[t].tempval))
    else
      t !in s.squeue && t in h.pending && InQueue(s, h, t, h.pending[t])
  }

  ghost predicate NoDuplicates(q: seq<nat>) {
    forall i, j :: 0 <= i < j < |q| ==> q[i] != q[j]
  }

  ghost predicate Core(s: State, h: History) {
    && NoDuplicates(s.squeue) && (forall t :: t in s.squeue ==> t in s.tasks)
    && (forall t :: t in h.pending ==> t in s.tasks)
    && (forall c :: c in h.calls ==> c in s.channels)
    && (forall c :: c in s.channels ==> ChannelOk(s, h, c))
    && (forall t :: t in s.tasks ==> TaskOk(s, h, t))
  }

  /** Holds between any two steps. */
  ghost predicate Inv(s: State, h: History) {
    && Core(s, h)
    && s.squeue != [] && s.squeue[0] == s.current == s.lastTask
    && s.current !in h.pending
  }

  lemma InvClosed(s: State, h: History)
    requires Core(s, h) && s.current in s.tasks
    ensures Closed(s)
  {
    forall c | c in s.channels
      ensures ClosedChannel(s, s.channels[c])
    {
      assert ChannelOk(s, h, c);
      forall t | t in s.channels[c].queue
        ensures t in s.tasks
      {
        var i: nat :| i < |s.channels[c].queue| && s.channels[c].queue[i] == t;
        assert Waits(s, h, c, i);
      }
    }
  }

  // A call that finds nobody.

  lemma WaitingChannel(s: State, h: History, c: nat, arg: Value, d: int)
    requires Inv(s, h) && c in s.channels && !CanDo(s.channels[c], d) && IsCall(arg, d)
    ensures ChannelOk(Waiting(s, c, arg, d), Called(s, h, c, arg, d), c)
  {
    assert ChannelOk(s, h, c) && TaskOk(s, h, s.current);
    forall i: nat
      ensures Waits(Waiting(s, c, arg, d), Called(s, h, c, arg, d), c, i)
    {
      WaitsBehind(s, h, c, arg, d, i);
    }
  }

  /** Those who waited before wait as they did, and the running tasklet is the last one. */
  lemma WaitsBehind(s: State, h: History, c: nat, arg: Value, d: int, i: nat)
    requires Inv(s, h) && c in s.channels && !CanDo(s.channels[c], d) && IsCall(arg, d)
    ensures Waits(Waiting(s, c, arg, d), Called(s, h, c, arg, d), c, i)
  {
    assert ChannelOk(s, h, c) && TaskOk(s, h, s.current);
    if i < |s.channels[c].queue| {
      assert Waits(s, h, c, i);
      StillWaits(s, h, Waiting(s, c, arg, d), Called(s, h, c, arg, d), c, i);
    }
  }

  lemma StillWaits(s: State, h: History, s': State, h': History, c: nat, i: nat)
    requires c in s.channels && c in h.calls && Waits(s, h, c, i) && i < |s.channels[c].queue|
    requires c in s'.channels && c in h'.calls && s.channels[c].queue <= s'.channels[c].queue
    requires s'.channels[c].balance > 0 <==> s.channels[c].balance > 0
    requires Matched(h', c) == Matched(h, c) && h.calls[c].sent <= h'.calls[c].sent
    requires var t := s.channels[c].queue[i];
      t in s'.tasks && s'.tasks[t] == s.tasks[t] && t in h'.pending && h'.pending[t] == h.pending[t]
    ensures Waits(s', h', c, i)
  {
  }

  lemma OtherChannel(s: State, h: History, s': State, h': History, c: nat)
    requires c in s.channels && ChannelOk(s, h, c) && SameChannel(s, h, s', h', c)
    requires forall t :: t in s.channels[c].queue && t in s.tasks && t in h.pending ==>
               t in s'.tasks && s'.tasks[t] == s.tasks[t] && t in h'.pending && h'.pending[t] == h.pending[t]
    ensures ChannelOk(s', h', c)
  {
    forall i: nat
      ensures Waits(s', h', c, i)
    {
      assert Waits(s, h, c, i);
    }
  }

  ghost predicate SameChannel(s: State, h: History, s': State, h': History, c: nat)
    requires c in s.channels && c in h.calls
  {
    && c in s'.channels && s'.channels[c].queue == s.channels[c].queue
    && s'.channels[c].balance == s.channels[c].balance
    && c in h'.calls && h'.calls[c] == h.calls[c]
  }

  lemma HeadRunnable(s: State, h: History)
    requires Inv(s, h)
    ensures s.current in s.tasks && s.tasks[s.current].blocked == 0
    ensures Removed(s.squeue, s.current) == s.squeue[1..]
    ensures forall t :: t in s.squeue[1..] <==> t in s.squeue && t != s.current
  {
    assert s.squeue[0] in s.squeue;
    assert s.squeue == [s.squeue[0]] + s.squeue[1..];
    assert TaskOk(s, h, s.current);
  }

  /** Every tasklet but the running one has the same queue, value and call as before. */
  lemma WaitingTask(s: State, h: History, c: nat, arg: Value, d: int, t: nat)
    requires Inv(s, h) && c in s.channels && !CanDo(s.channels[c], d) && IsCall(arg, d)
    requires t in s.tasks && t != s.current
    ensures TaskOk(Waiting(s, c, arg, d), Called(s, h, c, arg, d), t)
  {
    HeadRunnable(s, h);
    assert ChannelOk(s, h, c) && TaskOk(s, h, t);
    if s.tasks[t].blocked != 0 {
      StaysInPlace(s, h, Waiting(s, c, arg, d), Called(s, h, c, arg, d), c, t, h.pending[t]);
    } else {
      WaitingRunnable(s, h, c, arg, d, t);
    }
  }

  lemma WaitingRunnable(s: State, h: History, c: nat, arg: Value, d: int, t: nat)
    requires s.current in s.tasks && c in s.channels && c in h.calls
    requires t in s.tasks && t != s.current && s.tasks[t].blocked == 0 && TaskOk(s, h, t)
    requires t in Removed(s.squeue, s.current)
    ensures TaskOk(Waiting(s, c, arg, d), Called(s, h, c, arg, d), t)
  {
    if t in h.pending {
      StaysRight(h, Called(s, h, c, arg, d), h.pending[t], s.tasks[t].tempval);
    }
  }

  /** The tasklets before the new last one of a queue stay where they are. */
  lemma StaysInPlace(s: State, h: History, s': State, h': History, c: nat, t: nat, call: Call)
    requires InQueue(s, h, t, call) && c in s.channels && c in h.calls
    requires c in h'.calls && Matched(h', c) == Matched(h, c)
    requires forall x :: x in h.calls && x != c ==> x in h'.calls && h'.calls[x] == h.calls[x]
    requires c in s'.channels && s'.channels[c].queue == s.channels[c].queue + [s.current]
    requires forall x :: x in s.channels && x != c ==> x in s'.channels && s'.channels[x] == s.channels[x]
    ensures InQueue(s', h', t, call)
  {
  }

  lemma WaitingSelf(s: State, h: History, c: nat, arg: Value, d: int)
    requires Inv(s, h) && c in s.channels && !CanDo(s.channels[c], d) && IsCall(arg, d)
    ensures TaskOk(Waiting(s, c, arg, d), Called(s, h, c, arg, d), s.current)
  {
    HeadRunnable(s, h);
    assert ChannelOk(s, h, c);
  }

  // A call that meets a waiting tasklet.

  lemma Target(s: State, h: History, c: nat, d: int)
    requires Inv(s, h) && c in s.channels && CanDo(s.channels[c], d)
    ensures s.channels[c].queue != [] && ChannelOk(s, h, c) && Waits(s, h, c, 0)
    ensures s.channels[c].queue[0] !in s.squeue && s.channels[c].queue[0] != s.current
  {
    assert ChannelOk(s, h, c) && Waits(s, h, c, 0);
    assert TaskOk(s, h, s.channels[c].queue[0]);
    HeadRunnable(s, h);
  }

  lemma MetChannel(s: State, h: History, c: nat, arg: Value, d: int)
    requires Inv(s, h) && Closed(s) && c in s.channels && CanDo(s.channels[c], d) && IsCall(arg, d)
    ensures ChannelOk(Met(s, c, arg, d), Called(s, h, c, arg, d), c)
  {
    Target(s, h, c, d);
    forall i: nat
      ensures Waits(Met(s, c, arg, d), Called(s, h, c, arg, d), c, i)
    {
      MovesUp(s, h, c, arg, d, i);
    }
  }

  /** Those behind the first one wait as they did, one place nearer. */
  lemma MovesUp(s: State, h: History, c: nat, arg: Value, d: int, i: nat)
    requires Inv(s, h) && Closed(s) && c in s.channels && CanDo(s.channels[c], d) && IsCall(arg, d)
    ensures Waits(Met(s, c, arg, d), Called(s, h, c, arg, d), c, i)
  {
    Target(s, h, c, d);
    HeadRunnable(s, h);
    var q := s.channels[c].queue;
    if i + 1 < |q| {
      assert Waits(s, h, c, i + 1) && Waits(s, h, c, 0);
      assert q[i + 1] != q[0] && q[i + 1] != s.current;
      MovedUp(s, h, Met(s, c, arg, d), Called(s, h, c, arg, d), c, i);
    }
  }

  lemma MovedUp(s: State, h: History, s': State, h': History, c: nat, i: nat)
    requires c in s.channels && c in h.calls && Waits(s, h, c, i + 1) && i + 1 < |s.channels[c].queue|
    requires c in s'.channels && c in h'.calls && s'.channels[c].queue == s.channels[c].queue[1..]
    requires s'.channels[c].balance > 0 <==> s.channels[c].balance > 0
    requires Matched(h', c) == Matched(h, c) + 1 && h.calls[c].sent <= h'.calls[c].sent
    requires var t := s.channels[c].queue[i + 1];
      t in s'.tasks && s'.tasks[t] == s.tasks[t] && t in h'.pending && h'.pending[t] == h.pending[t]
    ensures Waits(s', h', c, i)
  {
    assert s.channels[c].queue[1..][i] == s.channels[c].queue[i + 1];
  }

  lemma MetQueue(s: State, h: History, c: nat, arg: Value, d: int)
    requires Inv(s, h) && Closed(s) && c in s.channels && CanDo(s.channels[c], d)
    ensures var (q, t) := (Met(s, c, arg, d).squeue, s.channels[c].queue[0]);
      && q != [] && q[0] == s.current && NoDuplicates(q) && forall x :: x in q <==> x in s.squeue || x == t
  {
    Target(s, h, c, d);
    AppendedHas(s.squeue, s.channels[c].queue[0], s.channels[c].scheduleAll || s.channels[c].preference != -d);
  }

  /** The two tasklets that meet have the result of their call. */
  lemma MetPair(s: State, h: History, c: nat, arg: Value, d: int)
    requires Inv(s, h) && Closed(s) && c in s.channels && CanDo(s.channels[c], d) && IsCall(arg, d)
    ensures TaskOk(Met(s, c, arg, d), Called(s, h, c, arg, d), s.current)
    ensures TaskOk(Met(s, c, arg, d), Called(s, h, c, arg, d), s.channels[c].queue[0])
  {
    Target(s, h, c, d);
    HeadRunnable(s, h);
    MetQueue(s, h, c, arg, d);
  }

  lemma MetTask(s: State, h: History, c: nat, arg: Value, d: int, t: nat)
    requires Inv(s, h) && Closed(s) && c in s.channels && CanDo(s.channels[c], d) && IsCall(arg, d)
    requires t in s.tasks && t != s.current && t != s.channels[c].queue[0]
    ensures TaskOk(Met(s, c, arg, d), Called(s, h, c, arg, d), t)
  {
    assert TaskOk(s, h, t) && ChannelOk(s, h, c);
    MetQueue(s, h, c, arg, d);
    if s.tasks[t].blocked != 0 {
      StaysQueued(s, h, Met(s, c, arg, d), Called(s, h, c, arg, d), c, t, h.pending[t]);
    } else {
      MetRunnable(s, h, c, arg, d, t);
    }
  }

  lemma MetRunnable(s: State, h: History, c: nat, arg: Value, d: int, t: nat)
    requires Closed(s) && c in s.channels && c in h.calls && CanDo(s.channels[c], d)
    requires t in s.tasks && t != s.current && t != s.channels[c].queue[0]
    requires s.tasks[t].blocked == 0 && TaskOk(s, h, t) && t in Met(s, c, arg, d).squeue
    ensures TaskOk(Met(s, c, arg, d), Called(s, h, c, arg, d), t)
  {
    if t in h.pending {
      StaysRight(h, Called(s, h, c, arg, d), h.pending[t], s.tasks[t].tempval);
    }
  }

  /** The tasklets behind the first one of a queue move up. */
  lemma StaysQueued(s: State, h: History, s': State, h': History, c: nat, t: nat, call: Call)
    requires InQueue(s, h, t, call) && c in s.channels && c in h.calls
    requires s.channels[c].queue != [] && t != s.channels[c].queue[0]
    requires c in h'.calls && Matched(h', c) == Matched(h, c) + 1
    requires forall x :: x in h.calls && x != c ==> x in h'.calls && h'.calls[x] == h.calls[x]
    requires c in s'.channels && s'.channels[c].queue == s.channels[c].queue[1..]
    requires forall x :: x in s.channels && x != c ==> x in s'.channels && s'.channels[x] == s.channels[x]
    ensures InQueue(s', h', t, call)
  {
  }

  lemma StaysRight(h: History, h': History, call: Call, value: Value)
    requires Right(h, call, value)
    requires forall x :: x in h.calls ==> x in h'.calls && h.calls[x].sent <= h'.calls[x].sent
    ensures Right(h', call, value)
  {
  }

  lemma RotatedOnce(q: seq<nat>)
    requires q != []
    ensures Rotated(q, -1) == q[1..] + [q[0]]
    ensures Rotated(q, 1) == [q[|q| - 1]] + q[..|q| - 1]
  {
    RotatedNear(q, -1);
    RotatedNear(q, 1);
  }

  /** `_scheduler_append(t, False)` puts the tasklet behind the running one. */
  lemma AppendedBehindHead(q: seq<nat>, t: nat)
    requires q != []
    ensures Appended(q, t, false) == [q[0], t] + q[1..]
  {
    RotatedOnce(q);
    RotatedOnce([t] + Rotated(q, -1));
  }

  lemma AppendedHas(q: seq<nat>, t: nat, normal: bool)
    requires q != []
    ensures Appended(q, t, normal)[0] == q[0]
    ensures forall x :: x in Appended(q, t, normal) <==> x in q || x == t
    ensures NoDuplicates(q) && t !in q ==> NoDuplicates(Appended(q, t, normal))
  {
    if !normal {
      AppendedBehindHead(q, t);
      assert q == [q[0]] + q[1..];
    }
  }

  // Core is kept by every part of a step.

  lemma Queued(s: State, h: History, c: nat, t: nat)
    requires c in s.channels && ChannelOk(s, h, c) && t in s.channels[c].queue
    ensures t in s.tasks && s.tasks[t].blocked != 0 && t in h.pending && h.pending[t].c == c
  {
    var i: nat :| i < |s.channels[c].queue| && s.channels[c].queue[i] == t;
    assert Waits(s, h, c, i);
  }

  lemma OtherQueues(s: State, h: History, c: nat, c2: nat, t: nat)
    requires Core(s, h) && c in s.channels && c2 in s.channels && c != c2
    requires t in s.channels[c].queue
    ensures t !in s.channels[c2].queue && t !in s.squeue
  {
    Queued(s, h, c, t);
    assert TaskOk(s, h, t);
    if t in s.channels[c2].queue {
      Queued(s, h, c2, t);
    }
  }

  lemma RunnableNotQueued(s: State, h: History, t: nat, c: nat)
    requires Core(s, h) && t in s.squeue && c in s.channels
    ensures t !in s.channels[c].queue
  {
    assert TaskOk(s, h, t);
    if t in s.channels[c].queue {
      Queued(s, h, c, t);
    }
  }

  lemma MetCore(s: State, h: History, c: nat, arg: Value, d: int)
    requires Inv(s, h) && Closed(s) && c in s.channels && CanDo(s.channels[c], d) && IsCall(arg, d)
    ensures Core(Met(s, c, arg, d), Called(s, h, c, arg, d))
  {
    var s', h' := Met(s, c, arg, d), Called(s, h, c, arg, d);
    MetQueue(s, h, c, arg, d);
    Target(s, h, c, d);
    forall c2 | c2 in s'.channels
      ensures ChannelOk(s', h', c2)
    {
      if c2 == c {
        MetChannel(s, h, c, arg, d);
      } else {
        MetOther(s, h, c, arg, d, c2);
      }
    }
    forall t | t in s'.tasks
      ensures TaskOk(s', h', t)
    {
      if t == s.current || t == s.channels[c].queue[0] {
        MetPair(s, h, c, arg, d);
      } else {
        MetTask(s, h, c, arg, d, t);
      }
    }
  }

  lemma MetOther(s: State, h: History, c: nat, arg: Value, d: int, c2: nat)
    requires Inv(s, h) && Closed(s) && c in s.channels && CanDo(s.channels[c], d) && IsCall(arg, d)
    requires c2 in s.channels && c2 != c
    ensures ChannelOk(Met(s, c, arg, d), Called(s, h, c, arg, d), c2)
  {
    Target(s, h, c, d);
    OtherQueues(s, h, c, c2, s.channels[c].queue[0]);
    RunnableNotQueued(s, h, s.current, c2);
    assert ChannelOk(s, h, c2);
    OtherChannel(s, h, Met(s, c, arg, d), Called(s, h, c, arg, d), c2);
  }

  lemma WaitingCore(s: State, h: History, c: nat, arg: Value, d: int)
    requires Inv(s, h) && c in s.channels && !CanDo(s.channels[c], d) && IsCall(arg, d)
    ensures s.current in s.tasks && c in h.calls
    ensures Core(Waiting(s, c, arg, d), Called(s, h, c, arg, d))
  {
    HeadRunnable(s, h);
    assert ChannelOk(s, h, c);
    var s', h' := Waiting(s, c, arg, d), Called(s, h, c, arg, d);
    forall c2 | c2 in s'.channels
      ensures ChannelOk(s', h', c2)
    {
      if c2 == c {
        WaitingChannel(s, h, c, arg, d);
      } else {
        RunnableNotQueued(s, h, s.current, c2);
        assert ChannelOk(s, h, c2);
        OtherChannel(s, h, s', h', c2);
      }
    }
    forall t | t in s'.tasks
      ensures TaskOk(s', h', t)
    {
      if t == s.current {
        WaitingSelf(s, h, c, arg, d);
      } else {
        WaitingTask(s, h, c, arg, d, t);
      }
    }
  }

  /** A call keeps the core, whether or not it finds somebody. */
  lemma CommunicatedCore(s: State, h: History, c: nat, arg: Value, d: int)
    requires Inv(s, h) && c in s.channels && IsCall(arg, d)
    ensures Closed(s) && c in h.calls
    ensures Core(Communicated(s, c, arg, d), Called(s, h, c, arg, d))
  {
    HeadRunnable(s, h);
    InvClosed(s, h);
    if CanDo(s.channels[c], d) {
      MetCore(s, h, c, arg, d);
    } else {
      WaitingCore(s, h, c, arg, d);
    }
  }

  /** The core does not depend on the order of the run queue. */
  lemma ScheduledCore(s: State, h: History)
    requires Core(s, h) && s.squeue != []
    ensures Core(Scheduled(s), h)
  {
    var s' := Scheduled(s);
    RotatedOnce(s.squeue);
    assert s.squeue == [s.squeue[0]] + s.squeue[1..];
    forall c | c in s'.channels
      ensures ChannelOk(s', h, c)
    {
      assert ChannelOk(s, h, c);
      OtherChannel(s, h, s', h, c);
    }
    forall t | t in s'.tasks
      ensures TaskOk(s', h, t)
    {
      assert TaskOk(s, h, t);
    }
  }

  lemma ReturnedCore(s: State, h: History, t: nat)
    requires Core(s, h) && t in s.squeue
    ensures Core(s, Returned(h, t))
  {
    var h' := Returned(h, t);
    forall c | c in s.channels
      ensures ChannelOk(s, h', c)
    {
      assert ChannelOk(s, h, c);
      RunnableNotQueued(s, h, t, c);
      OtherChannel(s, h, s, h', c);
    }
    forall x | x in s.tasks
      ensures TaskOk(s, h', x)
    {
      assert TaskOk(s, h, x) && TaskOk(s, h, t);
    }
  }

  lemma SetUpCore(s: State, h: History, t: nat)
    requires Core(s, h) && t !in s.tasks
    ensures Core(SetUp(s, t), h)
  {
    var s' := SetUp(s, t);
    forall c | c in s'.channels
      ensures ChannelOk(s', h, c)
    {
      assert ChannelOk(s, h, c);
      OtherChannel(s, h, s', h, c);
    }
    forall x | x in s'.tasks
      ensures TaskOk(s', h, x)
    {
      if x != t {
        assert TaskOk(s, h, x);
      }
    }
  }
}
