/** The state that RuntimeError leaves behind, and the next call of a tasklet that catches it. */
module TaskletErrors {
  import opened SeqOps
  import opened Tasklets
  import opened TaskletInvariants
  import opened TaskletRuns

  /** The running tasklet waits in a queue for a call that raised, and nobody is runnable. */
  ghost predicate Adrift(s: State, h: History) {
    && Core(s, h) && s.squeue == [] && s.current == s.lastTask
    && s.current in s.tasks && s.tasks[s.current].blocked != 0
  }

  /** RuntimeError leaves queues, balances and values as they should be, but the caller is not taken out again. */
  lemma ErrorLeaves(s: State, h: History, c: nat, arg: Value, d: int)
    requires Inv(s, h) && c in s.channels && IsCall(arg, d)
    ensures Closed(s) && c in h.calls
    ensures Acted(s, h, c, arg, d).Deadlock? ==>
              var (s', h') := (Communicated(s, c, arg, d), Called(s, h, c, arg, d));
              && Adrift(s', h') && s'.current == s.current
              && s'.channels[c].queue == s.channels[c].queue + [s.current]
              && forall t :: t in s'.tasks ==> s'.tasks[t].blocked != 0
  {
    CommunicatedCore(s, h, c, arg, d);
    ActedKeeps(s, h, c, arg, d);
    if Acted(s, h, c, arg, d).Deadlock? {
      var s', h' := Communicated(s, c, arg, d), Called(s, h, c, arg, d);
      HeadRunnable(s, h);
      forall t | t in s'.tasks
        ensures s'.tasks[t].blocked != 0
      {
        assert TaskOk(s', h', t);
      }
    }
  }

  /** The call that the running tasklet makes. */
  function CallOf(h: History, c: nat, d: int): Call
    requires c in h.calls
  {
    if d > 0 then Send(c, |h.calls[c].sent|) else Receive(c, h.calls[c].receives)
  }

  /** The first one in the queue waits for the partner of this call. */
  lemma FirstWaits(s: State, h: History, c: nat, d: int)
    requires Core(s, h) && c in s.channels && CanDo(s.channels[c], d)
    ensures s.channels[c].queue != [] && c in h.calls
    ensures var t := s.channels[c].queue[0];
      && t in s.tasks && t in h.pending && s.tasks[t].blocked != 0
      && if d > 0 then s.tasks[t].tempval == PyNone && h.pending[t] == Receive(c, |h.calls[c].sent|)
         else && h.calls[c].receives < |h.calls[c].sent|
              && s.tasks[t].tempval == h.calls[c].sent[h.calls[c].receives]
              && h.pending[t] == Send(c, h.calls[c].receives)
  {
    assert ChannelOk(s, h, c) && Waits(s, h, c, 0);
  }

  lemma AdriftClosed(s: State, h: History, c: nat)
    requires Adrift(s, h) && c in s.channels
    ensures Closed(s) && c in h.calls && forall t :: t in s.squeue ==> t in s.tasks
  {
    InvClosed(s, h);
    assert ChannelOk(s, h, c);
  }

  lemma AppendedToNone(t: nat, normal: bool)
    ensures Appended([], t, normal) == [t]
  {
    assert Rotated<nat>([], -1) == [];
    assert [t] + [] == [t];
    RotatedOnce([t]);
    assert [[t][0]] + [t][..0] == [t];
  }

  /** A call that finds nobody raises again. */
  lemma RaisesAgain(s: State, h: History, c: nat, arg: Value, d: int)
    requires Adrift(s, h) && c in s.channels && IsCall(arg, d)
    ensures Closed(s) && c in h.calls
    ensures Acted(s, h, c, arg, d).Deadlock? <==> !CanDo(s.channels[c], d)
  {
    AdriftClosed(s, h, c);
    if CanDo(s.channels[c], d) {
      FirstWaits(s, h, c, d);
      AppendedToNone(s.channels[c].queue[0], s.channels[c].scheduleAll || s.channels[c].preference != -d);
    }
  }

  /**
    * A call that meets another tasklet: whichever of the two goes on returns with the right value. But the
    * caller stays blocked, in the queue of the call that raised and not in the run queue.
    */
  lemma MeetsOther(s: State, h: History, c: nat, arg: Value, d: int)
    requires Adrift(s, h) && c in s.channels && IsCall(arg, d) && CanDo(s.channels[c], d)
    requires s.channels[c].queue != [] && s.channels[c].queue[0] != s.current
    ensures Closed(s) && c in h.calls && Acted(s, h, c, arg, d).Continues?
    ensures var (o, t) := (Acted(s, h, c, arg, d), s.channels[c].queue[0]);
      && |o.results| == 1 && Right(o.h, o.results[0].call, o.results[0].value)
      && o.results[0].t == o.s.current == (if GivesWay(s.channels[c], d) then t else s.current)
      && o.s.squeue == [t] && o.s.tasks[s.current].blocked != 0
  {
    AdriftClosed(s, h, c);
    FirstWaits(s, h, c, d);
    AppendedToNone(s.channels[c].queue[0], s.channels[c].scheduleAll || s.channels[c].preference != -d);
  }

  /** A call that meets its own earlier one returns what it was called with, and the invariant holds again. */
  lemma MeetsItself(s: State, h: History, c: nat, arg: Value, d: int)
    requires Adrift(s, h) && c in s.channels && IsCall(arg, d) && CanDo(s.channels[c], d)
    requires s.channels[c].queue != [] && s.channels[c].queue[0] == s.current
    ensures Closed(s) && c in h.calls && Acted(s, h, c, arg, d).Continues?
    ensures Acted(s, h, c, arg, d).results == [Return(s.current, CallOf(h, c, d), arg)]
    ensures Right(Acted(s, h, c, arg, d).h, CallOf(h, c, d), arg) <==>
              (if d > 0 then arg else s.tasks[s.current].tempval) == PyNone
    ensures Inv(Acted(s, h, c, arg, d).s, Acted(s, h, c, arg, d).h)
  {
    AdriftClosed(s, h, c);
    FirstWaits(s, h, c, d);
    MetItselfTurn(s, c, arg, d);
    MetItselfCore(s, h, c, arg, d);
  }

  /** Being the only runnable tasklet then, it goes on whether or not it gives way. */
  lemma MetItselfTurn(s: State, c: nat, arg: Value, d: int)
    requires Closed(s) && c in s.channels && CanDo(s.channels[c], d) && s.squeue == [] && s.current == s.lastTask
    requires s.channels[c].queue != [] && s.channels[c].queue[0] == s.current
    ensures var s' := Met(s, c, arg, d);
      && s'.squeue == [s.current] && s'.current == s.current == s'.lastTask && Scheduled(s') == s'
      && s'.tasks[s.current] == Task(0, arg)
  {
    AppendedToNone(s.current, s.channels[c].scheduleAll || s.channels[c].preference != -d);
    RotatedOnce([s.current]);
    assert [s.current][1..] + [s.current] == [s.current];
  }

  /**
    * So the next call raises again if it finds nobody, and what returns otherwise is right exactly if the
    * tasklet did not meet itself, or the value in transit was None.
    */
  lemma NextCall(s: State, h: History, c: nat, arg: Value, d: int)
    requires Adrift(s, h) && c in s.channels && IsCall(arg, d)
    ensures Closed(s) && c in h.calls
    ensures Acted(s, h, c, arg, d).Deadlock? <==> !CanDo(s.channels[c], d)
    ensures CanDo(s.channels[c], d) ==>
              && s.channels[c].queue != []
              && (AllRight(Acted(s, h, c, arg, d).h, Acted(s, h, c, arg, d).results) <==>
                  (s.channels[c].queue[0] == s.current ==>
                     (if d > 0 then arg else s.tasks[s.current].tempval) == PyNone))
  {
    RaisesAgain(s, h, c, arg, d);
    if CanDo(s.channels[c], d) {
      FirstWaits(s, h, c, d);
      var o := Acted(s, h, c, arg, d);
      if s.channels[c].queue[0] == s.current {
        MeetsItself(s, h, c, arg, d);
        assert o.results[0] == Return(s.current, CallOf(h, c, d), arg);
      } else {
        MeetsOther(s, h, c, arg, d);
      }
    }
  }

  lemma MetItselfCore(s: State, h: History, c: nat, arg: Value, d: int)
    requires Adrift(s, h) && Closed(s) && c in s.channels && IsCall(arg, d) && CanDo(s.channels[c], d)
    requires c in h.calls && s.channels[c].queue != [] && s.channels[c].queue[0] == s.current
    ensures Core(Met(s, c, arg, d), Returned(Called(s, h, c, arg, d), s.current))
  {
    var s', h' := Met(s, c, arg, d), Returned(Called(s, h, c, arg, d), s.current);
    AppendedToNone(s.current, s.channels[c].scheduleAll || s.channels[c].preference != -d);
    MetItselfChannel(s, h, c, arg, d);
    forall c2 | c2 in s'.channels
      ensures ChannelOk(s', h', c2)
    {
      if c2 != c {
        MetItselfOther(s, h, c, arg, d, c2);
      }
    }
    forall t | t in s'.tasks
      ensures TaskOk(s', h', t)
    {
      MetItselfTurn(s, c, arg, d);
      if t != s.current {
        MetItselfTask(s, h, c, arg, d, t);
      }
    }
  }

  lemma MetItselfChannel(s: State, h: History, c: nat, arg: Value, d: int)
    requires Adrift(s, h) && Closed(s) && c in s.channels && IsCall(arg, d) && CanDo(s.channels[c], d)
    requires c in h.calls && s.channels[c].queue != [] && s.channels[c].queue[0] == s.current
    ensures ChannelOk(Met(s, c, arg, d), Returned(Called(s, h, c, arg, d), s.current), c)
  {
    var s', h' := Met(s, c, arg, d), Returned(Called(s, h, c, arg, d), s.current);
    assert ChannelOk(s, h, c) && Waits(s, h, c, 0);
    forall i: nat
      ensures Waits(s', h', c, i)
    {
      if i + 1 < |s.channels[c].queue| {
        assert Waits(s, h, c, i + 1);
        MovedUp(s, h, s', h', c, i);
      }
    }
  }

  lemma MetItselfOther(s: State, h: History, c: nat, arg: Value, d: int, c2: nat)
    requires Adrift(s, h) && Closed(s) && c in s.channels && IsCall(arg, d) && CanDo(s.channels[c], d)
    requires c in h.calls && s.channels[c].queue != [] && s.channels[c].queue[0] == s.current
    requires c2 in s.channels && c2 != c
    ensures ChannelOk(Met(s, c, arg, d), Returned(Called(s, h, c, arg, d), s.current), c2)
  {
    var s', h' := Met(s, c, arg, d), Returned(Called(s, h, c, arg, d), s.current);
    assert ChannelOk(s, h, c) && Waits(s, h, c, 0) && ChannelOk(s, h, c2);
    forall t | t in s.channels[c2].queue
      ensures t != s.current
    {
      var i: nat :| i < |s.channels[c2].queue| && s.channels[c2].queue[i] == t;
      assert Waits(s, h, c2, i);
    }
    OtherChannel(s, h, s', h', c2);
  }

  lemma MetItselfTask(s: State, h: History, c: nat, arg: Value, d: int, t: nat)
    requires Adrift(s, h) && Closed(s) && c in s.channels && IsCall(arg, d) && CanDo(s.channels[c], d)
    requires c in h.calls && s.channels[c].queue != [] && s.channels[c].queue[0] == s.current
    requires t in s.tasks && t != s.current && Met(s, c, arg, d).squeue == [s.current]
    ensures TaskOk(Met(s, c, arg, d), Returned(Called(s, h, c, arg, d), s.current), t)
  {
    var s', h' := Met(s, c, arg, d), Returned(Called(s, h, c, arg, d), s.current);
    assert ChannelOk(s, h, c) && TaskOk(s, h, t);
    StaysQueued(s, h, s', h', c, t, h.pending[t]);
  }
}
