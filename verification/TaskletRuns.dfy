/** Runs of any length: what they keep, and what each call on a channel returns. */
module TaskletRuns {
  import opened SeqOps
  import opened Tasklets
  import opened TaskletInvariants

  function Unchanged(s: State, h: History): Outcome {
    Continues(s, h, [])
  }

  /** One step of the running tasklet. A name of no channel, or of a tasklet set up before, does nothing. */
  function Stepped(s: State, h: History, e: Event): Outcome
    requires Inv(s, h)
  {
    HeadRunnable(s, h);
    match e
    case Sends(c, value) =>
      if c !in s.channels then Unchanged(s, h)
      else
        CommunicatedCore(s, h, c, value, 1);
        Acted(s, h, c, value, 1)
    case Receives(c) =>
      if c !in s.channels then Unchanged(s, h)
      else
        CommunicatedCore(s, h, c, PyNone, -1);
        Acted(s, h, c, PyNone, -1)
    case Schedules =>
      ScheduledCore(s, h);
      Resumed(Scheduled(s), h)
    case SetsUp(t) =>
      if t in s.tasks then Unchanged(s, h) else Continues(SetUp(s, t), h, [])
    case Opens(c) =>
      if c in s.channels then Unchanged(s, h)
      else
        Continues(s.(channels := s.channels[c := Channel(0, [], -1, false)]),
                  h.(calls := h.calls[c := Calls([], 0)]), [])
    case Prefers(c, preference, scheduleAll) =>
      if c !in s.channels then Unchanged(s, h)
      else
        var ch := s.channels[c].(preference := preference, scheduleAll := scheduleAll);
        Continues(s.(channels := s.channels[c := ch]), h, [])
  }

  ghost predicate AllRight(h: History, results: seq<Return>) {
    forall i :: 0 <= i < |results| ==> Right(h, results[i].call, results[i].value)
  }

  lemma ResumedKeeps(s: State, h: History)
    requires Core(s, h) && s.squeue != [] && s.squeue[0] == s.current == s.lastTask
    ensures s.current in s.tasks
    ensures Resumed(s, h).Continues? && Inv(Resumed(s, h).s, Resumed(s, h).h)
    ensures AllRight(Resumed(s, h).h, Resumed(s, h).results)
  {
    assert s.squeue[0] in s.squeue;
    assert TaskOk(s, h, s.current);
    ReturnedCore(s, h, s.current);
  }

  /** A call keeps the invariant or, exactly if no other tasklet is runnable, ends the run. */
  lemma ActedKeeps(s: State, h: History, c: nat, arg: Value, d: int)
    requires Inv(s, h) && c in s.channels && IsCall(arg, d)
    ensures Closed(s) && c in h.calls
    ensures Acted(s, h, c, arg, d).Deadlock? <==> !CanDo(s.channels[c], d) && |s.squeue| == 1
    ensures Acted(s, h, c, arg, d).Continues? ==>
              && Inv(Acted(s, h, c, arg, d).s, Acted(s, h, c, arg, d).h)
              && AllRight(Acted(s, h, c, arg, d).h, Acted(s, h, c, arg, d).results)
  {
    CommunicatedCore(s, h, c, arg, d);
    HeadRunnable(s, h);
    var s', h' := Communicated(s, c, arg, d), Called(s, h, c, arg, d);
    if CanDo(s.channels[c], d) {
      MetQueue(s, h, c, arg, d);
    }
    if !GivesWay(s.channels[c], d) {
      ResumedKeeps(s', h');
    } else if s'.squeue != [] {
      ScheduledCore(s', h');
      ResumedKeeps(Scheduled(s'), h');
    }
  }

  lemma OpensCore(s: State, h: History, c: nat)
    requires Core(s, h) && c !in s.channels
    ensures Core(s.(channels := s.channels[c := Channel(0, [], -1, false)]),
                 h.(calls := h.calls[c := Calls([], 0)]))
  {
    var s' := s.(channels := s.channels[c := Channel(0, [], -1, false)]);
    var h' := h.(calls := h.calls[c := Calls([], 0)]);
    forall c2 | c2 in s'.channels
      ensures ChannelOk(s', h', c2)
    {
      if c2 != c {
        assert ChannelOk(s, h, c2);
        OtherChannel(s, h, s', h', c2);
      }
    }
    forall t | t in s'.tasks
      ensures TaskOk(s', h', t)
    {
      assert TaskOk(s, h, t);
    }
  }

  lemma PrefersCore(s: State, h: History, c: nat, ch: Channel)
    requires Core(s, h) && c in s.channels
    requires ch.balance == s.channels[c].balance && ch.queue == s.channels[c].queue
    ensures Core(s.(channels := s.channels[c := ch]), h)
  {
    var s' := s.(channels := s.channels[c := ch]);
    forall c2 | c2 in s'.channels
      ensures ChannelOk(s', h, c2)
    {
      assert ChannelOk(s, h, c2);
      OtherChannel(s, h, s', h, c2);
    }
    forall t | t in s'.tasks
      ensures TaskOk(s', h, t)
    {
      assert TaskOk(s, h, t);
    }
  }

  /**
    * Every step keeps the invariant, and what it returns is right. It ends the run exactly if the
    * only runnable tasklet makes a call that finds nobody.
    */
  lemma StepKeeps(s: State, h: History, e: Event)
    requires Inv(s, h)
    ensures Stepped(s, h, e).Deadlock? <==>
              && |s.squeue| == 1
              && ((e.Sends? && e.c in s.channels && s.channels[e.c].balance >= 0)
                  || (e.Receives? && e.c in s.channels && s.channels[e.c].balance <= 0))
    ensures Stepped(s, h, e).Continues? ==>
              && Inv(Stepped(s, h, e).s, Stepped(s, h, e).h)
              && AllRight(Stepped(s, h, e).h, Stepped(s, h, e).results)
  {
    match e
    case Sends(c, value) =>
      if c in s.channels {
        ActedKeeps(s, h, c, value, 1);
      }
    case Receives(c) =>
      if c in s.channels {
        ActedKeeps(s, h, c, PyNone, -1);
      }
    case Schedules =>
      ScheduledCore(s, h);
      ResumedKeeps(Scheduled(s), h);
    case SetsUp(t) =>
      if t !in s.tasks {
        SetUpCore(s, h, t);
      }
    case Opens(c) =>
      if c !in s.channels {
        OpensCore(s, h, c);
      }
    case Prefers(c, preference, scheduleAll) =>
      if c in s.channels {
        PrefersCore(s, h, c, s.channels[c].(preference := preference, scheduleAll := scheduleAll));
      }
  }

  /** The values sent on a channel only become more. */
  ghost predicate Extends(h: History, h': History) {
    forall c :: c in h.calls ==> c in h'.calls && h.calls[c].sent <= h'.calls[c].sent
  }

  lemma StepExtends(s: State, h: History, e: Event)
    requires Inv(s, h) && Stepped(s, h, e).Continues?
    ensures Extends(h, Stepped(s, h, e).h)
  {
    match e
    case Sends(c, value) =>
      if c in s.channels {
        CommunicatedCore(s, h, c, value, 1);
        ActedExtends(s, h, c, value, 1);
      }
    case Receives(c) =>
      if c in s.channels {
        CommunicatedCore(s, h, c, PyNone, -1);
        ActedExtends(s, h, c, PyNone, -1);
      }
    case _ =>
  }

  lemma ActedExtends(s: State, h: History, c: nat, arg: Value, d: int)
    requires Closed(s) && c in s.channels && c in h.calls
    ensures Acted(s, h, c, arg, d).Continues? ==> Extends(h, Acted(s, h, c, arg, d).h)
  {
    assert Extends(h, Called(s, h, c, arg, d));
  }

  // Every call returns at most once, and until then its tasklet is in it.

  ghost predicate Made(h: History, call: Call) {
    && call.c in h.calls
    && match call
       case Send(c, k) => k < |h.calls[c].sent|
       case Receive(c, k) => k < h.calls[c].receives
  }

  ghost predicate Ledger(h: History, done: seq<Return>) {
    && (forall i, j :: 0 <= i < j < |done| ==> done[i].call != done[j].call)
    && (forall i :: 0 <= i < |done| ==> Made(h, done[i].call))
    && (forall t :: t in h.pending ==> Made(h, h.pending[t]) && !Done(done, h.pending[t]))
    && (forall t, u :: t in h.pending && u in h.pending && t != u ==> h.pending[t] != h.pending[u])
    && (forall call :: Made(h, call) ==> Done(done, call) || Open(h, call))
  }

  ghost predicate Done(done: seq<Return>, call: Call) {
    exists i :: 0 <= i < |done| && done[i].call == call
  }

  ghost predicate Open(h: History, call: Call) {
    exists t :: t in h.pending && h.pending[t] == call
  }

  lemma CalledLedger(s: State, h: History, c: nat, arg: Value, d: int, done: seq<Return>)
    requires Ledger(h, done) && s.current !in h.pending && c in h.calls
    ensures Ledger(Called(s, h, c, arg, d), done)
  {
    var h' := Called(s, h, c, arg, d);
    var new_ := h'.pending[s.current];
    assert h'.pending == h.pending[s.current := new_];
    forall call
      ensures Made(h', call) <==> Made(h, call) || call == new_
    {
      CalledMade(s, h, c, arg, d, call);
    }
    assert !Made(h, new_);
    AddedLedger(h, h', s.current, new_, done);
  }

  lemma CalledMade(s: State, h: History, c: nat, arg: Value, d: int, call: Call)
    requires c in h.calls
    ensures var h' := Called(s, h, c, arg, d);
      && (Made(h', call) <==> Made(h, call) || call == h'.pending[s.current])
      && !Made(h, h'.pending[s.current])
  {
  }

  /** One more call, made by a tasklet that is in none. */
  lemma AddedLedger(h: History, h': History, t: nat, call: Call, done: seq<Return>)
    requires Ledger(h, done) && t !in h.pending && h'.pending == h.pending[t := call]
    requires !Made(h, call) && forall x :: Made(h', x) <==> Made(h, x) || x == call
    ensures Ledger(h', done)
  {
    forall x | Made(h', x)
      ensures Done(done, x) || Open(h', x)
    {
      if x == call {
        assert h'.pending[t] == x;
      } else if !Done(done, x) {
        var u :| u in h.pending && h.pending[u] == x;
        assert h'.pending[u] == x;
      }
    }
  }

  lemma ReturnedLedger(h: History, t: nat, value: Value, done: seq<Return>)
    requires Ledger(h, done) && t in h.pending
    ensures Ledger(Returned(h, t), done + [Return(t, h.pending[t], value)])
  {
    var h', done' := Returned(h, t), done + [Return(t, h.pending[t], value)];
    assert !Done(done, h.pending[t]);
    forall call | Made(h', call)
      ensures Done(done', call) || Open(h', call)
    {
      assert Made(h, call);
      if call == h.pending[t] {
        assert done'[|done|].call == call;
      } else if Done(done, call) {
        var i :| 0 <= i < |done| && done[i].call == call;
        assert done'[i].call == call;
      } else {
        var u :| u in h.pending && h.pending[u] == call;
        assert u in h'.pending;
      }
    }
    forall u | u in h'.pending
      ensures Made(h', h'.pending[u]) && !Done(done', h'.pending[u])
    {
      assert Made(h, h.pending[u]) && !Done(done, h.pending[u]);
    }
  }

  lemma ResumedLedger(s: State, h: History, done: seq<Return>)
    requires Ledger(h, done) && s.current in s.tasks
    ensures Ledger(Resumed(s, h).h, done + Resumed(s, h).results)
  {
    if s.current in h.pending {
      ReturnedLedger(h, s.current, s.tasks[s.current].tempval, done);
    } else {
      assert done + [] == done;
    }
  }

  lemma ActedLedger(s: State, h: History, c: nat, arg: Value, d: int, done: seq<Return>)
    requires Inv(s, h) && Ledger(h, done) && c in s.channels && IsCall(arg, d)
    ensures Closed(s) && c in h.calls
    ensures Acted(s, h, c, arg, d).Continues? ==>
              Ledger(Acted(s, h, c, arg, d).h, done + Acted(s, h, c, arg, d).results)
  {
    CommunicatedCore(s, h, c, arg, d);
    var s', h' := Communicated(s, c, arg, d), Called(s, h, c, arg, d);
    CalledLedger(s, h, c, arg, d, done);
    if !GivesWay(s.channels[c], d) {
      ResumedLedger(s', h', done);
    } else if s'.squeue != [] {
      ScheduledCore(s', h');
      assert Scheduled(s').squeue[0] in Scheduled(s').squeue;
      ResumedLedger(Scheduled(s'), h', done);
    }
  }

  lemma OpensLedger(h: History, c: nat, done: seq<Return>)
    requires Ledger(h, done) && c !in h.calls
    ensures Ledger(h.(calls := h.calls[c := Calls([], 0)]), done)
  {
    var h' := h.(calls := h.calls[c := Calls([], 0)]);
    forall call
      ensures Made(h', call) == Made(h, call)
      ensures Open(h', call) == Open(h, call)
    {
    }
  }

  lemma StepLedger(s: State, h: History, e: Event, done: seq<Return>)
    requires Inv(s, h) && Ledger(h, done) && Stepped(s, h, e).Continues?
    ensures Ledger(Stepped(s, h, e).h, done + Stepped(s, h, e).results)
  {
    assert done + [] == done;
    match e
    case Sends(c, value) =>
      if c in s.channels {
        ActedLedger(s, h, c, value, 1, done);
      }
    case Receives(c) =>
      if c in s.channels {
        ActedLedger(s, h, c, PyNone, -1, done);
      }
    case Schedules =>
      ScheduledCore(s, h);
      assert Scheduled(s).squeue[0] in Scheduled(s).squeue;
      ResumedLedger(Scheduled(s), h, done);
    case Opens(c) =>
      if c !in s.channels {
        OpensLedger(h, c, done);
      }
    case _ =>
  }

  // Runs.

  const INIT: State := State([0], 0, 0, map[0 := Task(0, PyNone)], map[])

  const NO_HISTORY: History := History(map[], map[])

  lemma InitInv()
    ensures Inv(INIT, NO_HISTORY)
  {
  }

  /** A run from the state that `_init` leaves, with everything that calls returned in it. */
  function Run(es: seq<Event>): (o: Outcome)
    ensures o.Continues? ==> Inv(o.s, o.h) && AllRight(o.h, o.results) && Ledger(o.h, o.results)
  {
    if es == [] then
      InitInv();
      Unchanged(INIT, NO_HISTORY)
    else
      match Run(es[..|es| - 1])
      case Deadlock => Deadlock
      case Continues(s, h, results) =>
        var e := es[|es| - 1];
        StepKeeps(s, h, e);
        match Stepped(s, h, e)
        case Deadlock => Deadlock
        case Continues(s', h', more) =>
          StepExtends(s, h, e);
          StaysAllRight(h, h', results, more);
          StepLedger(s, h, e, results);
          Continues(s', h', results + more)
  }

  lemma StaysAllRight(h: History, h': History, results: seq<Return>, more: seq<Return>)
    requires AllRight(h, results) && Extends(h, h') && AllRight(h', more)
    ensures AllRight(h', results + more)
  {
    forall i | 0 <= i < |results|
      ensures Right(h', results[i].call, results[i].value)
    {
      StaysRight(h, h', results[i].call, results[i].value);
    }
  }

  /**
    * On every channel the k-th receive returns the k-th value sent, in every run. It returns once at
    * most, and if it was called and has not returned, some tasklet is still in it.
    */
  lemma ReceivesInOrder(es: seq<Event>, c: nat, k: nat)
    ensures var o := Run(es);
      o.Continues? && c in o.h.calls && k < o.h.calls[c].receives ==>
        || Open(o.h, Receive(c, k))
        || exists i :: && 0 <= i < |o.results| && o.results[i].call == Receive(c, k)
                       && k < |o.h.calls[c].sent| && o.results[i].value == o.h.calls[c].sent[k]
                       && forall j :: 0 <= j < |o.results| && o.results[j].call == Receive(c, k) ==> j == i
  {
    var o := Run(es);
    if o.Continues? && c in o.h.calls && k < o.h.calls[c].receives {
      assert Made(o.h, Receive(c, k));
      if !Open(o.h, Receive(c, k)) {
        var i :| 0 <= i < |o.results| && o.results[i].call == Receive(c, k);
        assert Right(o.h, o.results[i].call, o.results[i].value);
      }
    }
  }

  /** A channel's queue is what its balance says, and a tasklet is runnable or in exactly one queue. */
  ghost predicate Accounted(s: State, t: nat, c: nat)
    requires t in s.tasks && c in s.channels
  {
    && |s.channels[c].queue| == Size(s.channels[c].balance)
    && (t in s.squeue <==> s.tasks[t].blocked == 0)
    && (t in s.channels[c].queue ==> s.tasks[t].blocked == if s.channels[c].balance > 0 then 1 else -1)
    && (t !in s.squeue ==> exists c2 :: c2 in s.channels && t in s.channels[c2].queue)
    && (t in s.channels[c].queue ==>
          t !in s.squeue && forall c2 :: c2 in s.channels && c2 != c ==> t !in s.channels[c2].queue)
  }

  lemma QueuesAccountForTasklets(es: seq<Event>, t: nat, c: nat)
    ensures Run(es).Continues? && t in Run(es).s.tasks && c in Run(es).s.channels ==> Accounted(Run(es).s, t, c)
  {
    if Run(es).Continues? && t in Run(es).s.tasks && c in Run(es).s.channels {
      CoreAccounts(Run(es).s, Run(es).h, t, c);
    }
  }

  lemma CoreAccounts(s: State, h: History, t: nat, c: nat)
    requires Core(s, h) && t in s.tasks && c in s.channels
    ensures Accounted(s, t, c)
  {
    assert ChannelOk(s, h, c) && TaskOk(s, h, t);
    if t in s.channels[c].queue {
      var i: nat :| i < |s.channels[c].queue| && s.channels[c].queue[i] == t;
      assert Waits(s, h, c, i);
      forall c2 | c2 in s.channels && c2 != c
        ensures t !in s.channels[c2].queue
      {
        OtherQueues(s, h, c, c2, t);
      }
    }
  }

  // The order in which tasklets run.

  /** The state after `n` calls of `schedule`, each by the tasklet that then runs. */
  function Scheduling(s: State, n: nat): (r: State)
    requires s.squeue != []
    ensures |r.squeue| == |s.squeue|
  {
    if n == 0 then s else Scheduled(Scheduling(s, n - 1))
  }

  /** Round-robin: after n calls the n-th tasklet of the queue runs, and after |squeue| calls all is as before. */
  lemma {:induction false} RoundRobin(s: State, n: nat)
    requires s.squeue != [] && s.squeue[0] == s.current && n <= |s.squeue|
    ensures Scheduling(s, n).squeue == RotL(s.squeue, n)
    ensures Scheduling(s, n).current == if n == |s.squeue| then s.current else s.squeue[n]
    ensures Scheduling(s, n).tasks == s.tasks && Scheduling(s, n).channels == s.channels
  {
    if n > 0 {
      RoundRobin(s, n - 1);
      RotLOn(s.squeue, n - 1);
      RotatedOnce(Scheduling(s, n - 1).squeue);
    }
  }

  /**
    * A call that meets a waiting tasklet: with `schedule_all` both go to the end and the next one runs;
    * with the preference for the other one it runs at once and the caller goes to the end; else the
    * caller goes on and the other one goes to the end. The rest keeps its order in every case.
    */
  lemma OrderAfterMeeting(s: State, c: nat, arg: Value, d: int)
    requires Closed(s) && c in s.channels && CanDo(s.channels[c], d) && s.channels[c].queue != []
    requires s.squeue != [] && s.squeue[0] == s.current && s.channels[c].queue[0] != s.current
    ensures var (s', ch, t) := (Communicated(s, c, arg, d), s.channels[c], s.channels[c].queue[0]);
      && (GivesWay(ch, d) <==> ch.scheduleAll || ch.preference == -d)
      && s'.squeue != [] && s'.current == s.current
      && (ch.scheduleAll ==> Scheduled(s').squeue == s.squeue[1..] + [t] + [s.current])
      && (!ch.scheduleAll && ch.preference == -d ==> Scheduled(s').squeue == [t] + s.squeue[1..] + [s.current])
      && (!GivesWay(ch, d) ==> s'.squeue == s.squeue + [t])
      && Scheduled(s').current == Scheduled(s').squeue[0]
  {
    var (s', ch, t) := (Communicated(s, c, arg, d), s.channels[c], s.channels[c].queue[0]);
    QueueAfterMeeting(s, c, arg, d);
    HeadGoesLast(s');
    TakenFromHead(s.squeue, t);
  }

  lemma HeadGoesLast(s: State)
    requires s.squeue != [] && s.squeue[0] == s.current
    ensures Scheduled(s).squeue == s.squeue[1..] + [s.current] && Scheduled(s).current == Scheduled(s).squeue[0]
  {
    RotatedOnce(s.squeue);
  }

  lemma TakenFromHead(q: seq<nat>, t: nat)
    requires q != []
    ensures (q + [t])[1..] == q[1..] + [t] && ([q[0], t] + q[1..])[1..] == [t] + q[1..]
  {
  }

  lemma QueueAfterMeeting(s: State, c: nat, arg: Value, d: int)
    requires Closed(s) && c in s.channels && CanDo(s.channels[c], d) && s.channels[c].queue != []
    requires s.squeue != [] && s.squeue[0] == s.current
    ensures var (s', ch, t) := (Communicated(s, c, arg, d), s.channels[c], s.channels[c].queue[0]);
      && s'.current == s.current && s'.squeue[0] == s.current
      && s'.squeue == if ch.scheduleAll || ch.preference != -d then s.squeue + [t]
                      else [s.current, t] + s.squeue[1..]
  {
    AppendedBehindHead(s.squeue, s.channels[c].queue[0]);
  }

  /**
    * With the preference that a channel starts with, a send to a waiting receiver runs the receiver at
    * once, which returns with the value; the sender goes to the end and the others keep their order.
    */
  lemma SendRunsReceiver(s: State, h: History, c: nat, value: Value)
    requires Inv(s, h) && c in s.channels && s.channels[c].balance < 0
    requires s.channels[c].preference == -1 && !s.channels[c].scheduleAll
    ensures s.channels[c].queue != [] && c in h.calls
    ensures var (o, t) := (Stepped(s, h, Sends(c, value)), s.channels[c].queue[0]);
      && o.Continues? && o.s.current == t
      && o.s.squeue == [t] + s.squeue[1..] + [s.current]
      && o.results == [Return(t, Receive(c, |h.calls[c].sent|), value)]
  {
    Target(s, h, c, 1);
    HeadRunnable(s, h);
    CommunicatedCore(s, h, c, value, 1);
    ReceiverFirst(s, c, value);
  }

  lemma ReceiverFirst(s: State, c: nat, value: Value)
    requires Closed(s) && c in s.channels && s.channels[c].balance < 0 && s.channels[c].queue != []
    requires s.channels[c].preference == -1 && !s.channels[c].scheduleAll
    requires s.squeue != [] && s.squeue[0] == s.current && s.channels[c].queue[0] != s.current
    ensures var (s', t) := (Communicated(s, c, value, 1), s.channels[c].queue[0]);
      && s'.squeue != [] && Scheduled(s').current == t
      && Scheduled(s').squeue == [t] + s.squeue[1..] + [s.current]
      && Scheduled(s').tasks == s'.tasks && t in s'.tasks && s'.tasks[t].tempval == value
  {
    OrderAfterMeeting(s, c, value, 1);
  }

  /** With that preference, a receive from a waiting sender returns at once; the sender goes to the end. */
  lemma ReceiveKeepsRunning(s: State, h: History, c: nat)
    requires Inv(s, h) && c in s.channels && s.channels[c].balance > 0
    requires s.channels[c].preference == -1 && !s.channels[c].scheduleAll
    ensures s.channels[c].queue != [] && c in h.calls
    ensures var o := Stepped(s, h, Receives(c));
      && o.Continues? && o.s.current == s.current
      && o.s.squeue == s.squeue + [s.channels[c].queue[0]]
      && |o.results| == 1 && o.results[0].t == s.current
      && h.calls[c].receives < |h.calls[c].sent|
      && o.results[0].value == h.calls[c].sent[h.calls[c].receives]
  {
    Target(s, h, c, -1);
    HeadRunnable(s, h);
    CommunicatedCore(s, h, c, PyNone, -1);
  }

  // What each step does, said without the operations on the run queue.

  /** The call on channel `c` in direction `d` as a step. */
  function CallEvent(c: nat, arg: Value, d: int): Event {
    if d > 0 then Sends(c, arg) else Receives(c)
  }

  /** The call that the running tasklet now makes on the channel. */
  function NextCall(h: History, c: nat, d: int): Call
    requires c in h.calls
  {
    if d > 0 then Send(c, |h.calls[c].sent|) else Receive(c, h.calls[c].receives)
  }

  /** The tasklet returns, with this value, from the call that it was in, if it was in one. */
  function ReturnOf(h: History, t: nat, value: Value): seq<Return> {
    if t in h.pending then [Return(t, h.pending[t], value)] else []
  }

  lemma SteppedCall(s: State, h: History, c: nat, arg: Value, d: int)
    requires Inv(s, h) && c in s.channels && IsCall(arg, d)
    ensures Closed(s) && c in h.calls && Stepped(s, h, CallEvent(c, arg, d)) == Acted(s, h, c, arg, d)
    ensures Called(s, h, c, arg, d).pending == h.pending[s.current := NextCall(h, c, d)]
  {
    CommunicatedCore(s, h, c, arg, d);
  }

  /** What `Resumed` does, where the running tasklet has just changed. */
  lemma ResumedReturns(s: State, h: History)
    requires s.current in s.tasks
    ensures var o := Resumed(s, h);
      && o.s == s && o.results == ReturnOf(h, s.current, s.tasks[s.current].tempval)
      && o.h.pending == h.pending - {s.current}
  {
  }

  lemma AfterWaiting(s: State, h: History, c: nat, arg: Value, d: int)
    requires Inv(s, h) && c in s.channels && |s.squeue| > 1
    ensures s.current in s.tasks && Waiting(s, c, arg, d).squeue != []
    ensures s.squeue[1] in s.tasks && s.squeue[1] != s.current
    ensures var (s', ch, next) := (Scheduled(Waiting(s, c, arg, d)), s.channels[c], s.squeue[1]);
      && s'.squeue == s.squeue[1..] && s'.current == s'.lastTask == next
      && s'.channels == s.channels[c := ch.(balance := ch.balance + d, queue := ch.queue + [s.current])]
      && s'.tasks == s.tasks[s.current := Task(d, arg)]
  {
    HeadRunnable(s, h);
    assert s.squeue[1] in s.squeue;
  }

  /**
    * A call that finds nobody: the caller leaves the run queue, joins the queue of the channel as its
    * last one, and the tasklet that was behind it runs and returns from its own call.
    */
  lemma FindsNobody(s: State, h: History, c: nat, arg: Value, d: int)
    requires Inv(s, h) && c in s.channels && IsCall(arg, d) && |s.squeue| > 1
    requires if d > 0 then s.channels[c].balance >= 0 else s.channels[c].balance <= 0
    ensures c in h.calls && s.squeue[1] in s.tasks
    ensures var (o, ch, next) := (Stepped(s, h, CallEvent(c, arg, d)), s.channels[c], s.squeue[1]);
      && o.Continues? && o.s.squeue == s.squeue[1..] && o.s.current == o.s.lastTask == next
      && o.s.channels == s.channels[c := ch.(balance := ch.balance + d, queue := ch.queue + [s.current])]
      && o.s.tasks == s.tasks[s.current := Task(d, arg)]
      && o.results == ReturnOf(h, next, s.tasks[next].tempval)
      && o.h.pending == h.pending[s.current := NextCall(h, c, d)] - {next}
  {
    SteppedCall(s, h, c, arg, d);
    AfterWaiting(s, h, c, arg, d);
    ResumedReturns(Scheduled(Waiting(s, c, arg, d)), Called(s, h, c, arg, d));
  }

  /** The run queue after a call that meets `t`. */
  function QueueWith(s: State, ch: Channel, d: int, t: nat): (q: seq<nat>)
    requires s.squeue != []
    ensures q != []
  {
    if ch.scheduleAll then s.squeue[1..] + [t, s.current]
    else if ch.preference == -d then [t] + s.squeue[1..] + [s.current]
    else s.squeue + [t]
  }

  /** The state in which the next tasklet runs its own code. */
  function AfterMeeting(s: State, c: nat, arg: Value, d: int): State
    requires Closed(s) && c in s.channels && CanDo(s.channels[c], d)
  {
    var s' := Met(s, c, arg, d);
    if GivesWay(s.channels[c], d) && s'.squeue != [] then Scheduled(s') else s'
  }

  lemma AfterMeetingIs(s: State, h: History, c: nat, arg: Value, d: int)
    requires Inv(s, h) && Closed(s) && c in s.channels && CanDo(s.channels[c], d)
    ensures s.channels[c].queue != [] && s.current in s.tasks && Met(s, c, arg, d).squeue != []
    ensures var (s', ch, t) := (AfterMeeting(s, c, arg, d), s.channels[c], s.channels[c].queue[0]);
      && s'.squeue == QueueWith(s, ch, d, t) && s'.current == s'.lastTask == s'.squeue[0]
      && s'.channels == s.channels[c := ch.(balance := ch.balance + d, queue := ch.queue[1..])]
      && t in s.tasks
      && s'.tasks == s.tasks[s.current := s.tasks[s.current].(tempval := s.tasks[t].tempval)][t := Task(0, arg)]
  {
    Target(s, h, c, d);
    QueueAfterMeeting(s, c, arg, d);
    OrderAfterMeeting(s, c, arg, d);
  }

  /**
    * A call that finds somebody: with `schedule_all` both go to the end and the next one runs; with the
    * preference for the other one it runs at once and the caller goes to the end; else the caller goes on
    * and the other one goes to the end. They have exchanged their values, and who runs returns.
    */
  lemma FindsPartner(s: State, h: History, c: nat, arg: Value, d: int)
    requires Inv(s, h) && c in s.channels && IsCall(arg, d)
    requires if d > 0 then s.channels[c].balance < 0 else s.channels[c].balance > 0
    ensures c in h.calls && s.channels[c].queue != [] && s.current in s.tasks && s.channels[c].queue[0] in s.tasks
    ensures var (o, ch, t) := (Stepped(s, h, CallEvent(c, arg, d)), s.channels[c], s.channels[c].queue[0]);
      && o.Continues? && o.s.squeue == QueueWith(s, ch, d, t) && o.s.current == o.s.lastTask == o.s.squeue[0]
      && o.s.channels == s.channels[c := ch.(balance := ch.balance + d, queue := ch.queue[1..])]
      && o.s.tasks == s.tasks[s.current := s.tasks[s.current].(tempval := s.tasks[t].tempval)][t := Task(0, arg)]
      && var pending := h.pending[s.current := NextCall(h, c, d)];
      && o.h.pending == pending - {o.s.current}
      && o.results == if o.s.current !in pending then []
                      else [Return(o.s.current, pending[o.s.current], o.s.tasks[o.s.current].tempval)]
  {
    SteppedCall(s, h, c, arg, d);
    AfterMeetingIs(s, h, c, arg, d);
    QueueWithHead(s, h, c, d);
    ResumedReturns(AfterMeeting(s, c, arg, d), Called(s, h, c, arg, d));
  }

  lemma QueueWithHead(s: State, h: History, c: nat, d: int)
    requires Inv(s, h) && c in s.channels && CanDo(s.channels[c], d) && Closed(s)
    ensures s.channels[c].queue != []
    ensures QueueWith(s, s.channels[c], d, s.channels[c].queue[0])[0] in s.tasks
  {
    Target(s, h, c, d);
    assert s.squeue[0] in s.squeue && (|s.squeue| > 1 ==> s.squeue[1] in s.squeue);
  }

  /** `schedule` on its own: the caller goes to the end, and the next tasklet runs and returns from its call. */
  lemma GivesWayOnly(s: State, h: History)
    requires Inv(s, h)
    ensures var (o, q) := (Stepped(s, h, Schedules), s.squeue[1..] + [s.squeue[0]]);
      && o.Continues? && o.s == s.(squeue := q, lastTask := q[0], current := q[0])
      && q[0] in s.tasks && o.results == ReturnOf(h, q[0], s.tasks[q[0]].tempval)
      && o.h.pending == h.pending - {q[0]}
  {
    RotatedOnce(s.squeue);
    ScheduledCore(s, h);
    assert Scheduled(s).squeue[0] in Scheduled(s).squeue;
    ResumedReturns(Scheduled(s), h);
  }

  /** A new tasklet is the last one of the run queue: all that are runnable run before it, in their order. */
  lemma NewRunsLast(s: State, h: History, t: nat, k: nat)
    requires Inv(s, h) && t !in s.tasks && k <= |s.squeue|
    ensures var o := Stepped(s, h, SetsUp(t));
      && o == Continues(s.(squeue := s.squeue + [t], tasks := s.tasks[t := Task(0, PyNone)]), h, [])
      && Scheduling(o.s, k).current == if k == |s.squeue| then t else s.squeue[k]
  {
    RoundRobin(s.(squeue := s.squeue + [t], tasks := s.tasks[t := Task(0, PyNone)]), k);
  }

  /**
    * On a channel just made, a receiver that had to wait runs as soon as the next tasklet sends, and
    * returns with the value; the sender is the last one of the run queue.
    */
  lemma NewChannelRunsReceiver(s: State, h: History, c: nat, value: Value)
    returns (made: Outcome, waiting: Outcome, sent: Outcome)
    requires Inv(s, h) && c !in s.channels && |s.squeue| > 1
    ensures made == Stepped(s, h, Opens(c)) && made.Continues? && Inv(made.s, made.h)
    ensures waiting == Stepped(made.s, made.h, Receives(c)) && waiting.Continues?
    ensures Inv(waiting.s, waiting.h) && waiting.s.current == s.squeue[1]
    ensures sent == Stepped(waiting.s, waiting.h, Sends(c, value)) && sent.Continues?
    ensures sent.s.current == s.current && sent.results == [Return(s.current, Receive(c, 0), value)]
    ensures sent.s.squeue == [s.current] + s.squeue[2..] + [s.squeue[1]]
  {
    made := Stepped(s, h, Opens(c));
    StepKeeps(s, h, Opens(c));
    waiting := Stepped(made.s, made.h, Receives(c));
    StepKeeps(made.s, made.h, Receives(c));
    FindsNobody(made.s, made.h, c, PyNone, -1);
    CallsAreKept(made.s, made.h, c, PyNone, -1);
    sent := Stepped(waiting.s, waiting.h, Sends(c, value));
    SendRunsReceiver(waiting.s, waiting.h, c, value);
  }

  lemma CallsAreKept(s: State, h: History, c: nat, arg: Value, d: int)
    requires Inv(s, h) && c in s.channels && IsCall(arg, d)
    ensures c in h.calls
    ensures var o := Stepped(s, h, CallEvent(c, arg, d)); o.Continues? ==> o.h.calls == Called(s, h, c, arg, d).calls
  {
    SteppedCall(s, h, c, arg, d);
  }
}
