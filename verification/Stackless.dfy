/** The functions of lib_pypy/stackless.py that change its state. */
module Stackless {
  import opened SeqOps
  import opened Tasklets
  import opened TaskletInvariants

  /** The result of `schedule`: either a tasklet runs or RuntimeError is raised. */
  datatype Status = Running | NoRunnableTasklets

  /**
    * The module globals. Objects are found by number, so a reference never leads to an object that
    * another map entry shares, and an assignment to a field is an update of the map.
    */
  class Scheduler {
    var squeue: seq<nat>
    var lastTask: nat
    var current: nat
    var tasks: map<nat, Task>
    var channels: map<nat, Channel>

    function Value(): State
      reads this
    {
      State(squeue, lastTask, current, tasks, channels)
    }

    /** `_scheduler_remove`. */
    method SchedulerRemove(value: nat)
      modifies `squeue
      ensures squeue == Removed(old(squeue), value)
    {
      var i := 0;
      while i < |squeue| && squeue[i] != value
        invariant i <= |squeue| && value !in squeue[..i]
      {
        i := i + 1;
      }
      RemovedAt(squeue, value, i);
      if i < |squeue| {
        squeue := squeue[..i] + squeue[i + 1..];
      }
    }

    /** `_scheduler_append`. */
    method SchedulerAppend(value: nat, normal: bool)
      modifies `squeue
      ensures squeue == Appended(old(squeue), value, normal)
    {
      if normal {
        squeue := squeue + [value];
      } else {
        squeue := Rotated(squeue, -1);
        squeue := [value] + squeue;
        squeue := Rotated(squeue, 1);
      }
    }

    /** `_scheduler_switch`; its assertion that the next tasklet is not blocked holds. */
    method SchedulerSwitch(next: nat)
      requires next in tasks && tasks[next].blocked == 0
      modifies `lastTask, `current
      ensures lastTask == current == next
    {
      lastTask := next;
      assert tasks[next].blocked == 0;
      current := next;
    }

    /** `schedule`, up to the point where the next tasklet runs. */
    method Schedule() returns (status: Status)
      requires forall t :: t in squeue ==> t in tasks && tasks[t].blocked == 0
      modifies this
      ensures status == if old(squeue) == [] then NoRunnableTasklets else Running
      ensures Value() == if old(squeue) == [] then old(Value()) else Scheduled(old(Value()))
    {
      if squeue == [] {
        return NoRunnableTasklets;
      }
      if squeue[0] == current {
        RotatedOnce(squeue);
        assert squeue == [squeue[0]] + squeue[1..];
        squeue := Rotated(squeue, -1);
      }
      var task := squeue[0];
      SchedulerSwitch(task);
      return Running;
    }

    /** The branch of `_channel_action` for a call that meets a waiting tasklet. */
    method Meet(c: nat, d: int) returns (doSchedule: bool)
      requires current in tasks && c in channels && channels[c].queue != [] && channels[c].queue[0] in tasks
      modifies this
      ensures doSchedule == (old(channels[c].scheduleAll) || old(channels[c].preference) == -d)
      ensures var (ch, target) := (old(channels[c]), old(channels[c].queue[0]));
        && squeue == Appended(old(squeue), target, ch.scheduleAll || ch.preference != -d)
        && channels == old(channels)[c := ch.(queue := ch.queue[1..])]
        && current == old(current) && lastTask == old(lastTask)
        && tasks == old(tasks)[current := old(tasks)[current].(tempval := old(tasks)[target].tempval)]
                              [target := Task(0, old(tasks)[current].tempval)]
    {
      doSchedule := false;
      var target := channels[c].queue[0];
      channels := channels[c := channels[c].(queue := channels[c].queue[1..])];
      var ours, theirs := tasks[current].tempval, tasks[target].tempval;
      tasks := tasks[current := tasks[current].(tempval := theirs)];
      tasks := tasks[target := tasks[target].(tempval := ours)];
      tasks := tasks[target := tasks[target].(blocked := 0)];
      if channels[c].scheduleAll {
        SchedulerAppend(target, true);
        doSchedule := true;
      } else if channels[c].preference == -d {
        SchedulerAppend(target, false);
        doSchedule := true;
      } else {
        SchedulerAppend(target, true);
      }
    }

    /** The other branch: the running tasklet waits. */
    method Wait(c: nat, d: int)
      requires current in tasks && c in channels
      modifies `tasks, `channels, `squeue
      ensures tasks == old(tasks)[current := Task(d, old(tasks)[current].tempval)]
      ensures channels == old(channels)[c := old(channels)[c].(queue := old(channels)[c].queue + [current])]
      ensures squeue == Removed(old(squeue), current)
    {
      tasks := tasks[current := tasks[current].(blocked := d)];
      channels := channels[c := channels[c].(queue := channels[c].queue + [current])];
      SchedulerRemove(current);
    }

    /** `_channel_action`, up to its call of `schedule`. */
    method Communicate(c: nat, arg: Tasklets.Value, d: int) returns (doSchedule: bool)
      requires Closed(Value()) && c in channels
      requires CanDo(channels[c], d) ==> channels[c].queue[0] != current
      modifies this
      ensures c in old(channels) && Closed(old(Value()))
      ensures Value() == Communicated(old(Value()), c, arg, d)
      ensures doSchedule == GivesWay(old(channels[c]), d)
    {
      var source := current;
      tasks := tasks[source := tasks[source].(tempval := arg)];
      var cando := if d > 0 then channels[c].balance < 0 else channels[c].balance > 0;
      channels := channels[c := channels[c].(balance := channels[c].balance + d)];
      ghost var t, ch := old(tasks), old(channels[c]);
      if cando {
        Overwritten(old(channels), c, channels[c], ch.(balance := ch.balance + d, queue := ch.queue[1..]));
        Overwritten(t, source, tasks[source], tasks[source].(tempval := t[ch.queue[0]].tempval));
        doSchedule := Meet(c, d);
      } else {
        Overwritten(old(channels), c, channels[c], ch.(balance := ch.balance + d, queue := ch.queue + [source]));
        Overwritten(t, source, tasks[source], Task(d, arg));
        Wait(c, d);
        doSchedule := true;
      }
    }

    /**
      * `_channel_action`, up to the point where a tasklet runs its own code again: the state is the one
      * that the step of the specification leads to, or the run ends where that ends.
      */
    method ChannelAction(c: nat, arg: Tasklets.Value, d: int, ghost h: History) returns (status: Status)
      requires Inv(Value(), h) && c in channels && IsCall(arg, d)
      modifies this
      ensures c in old(channels) && Closed(old(Value())) && c in h.calls
      ensures status.NoRunnableTasklets? <==> Acted(old(Value()), h, c, arg, d).Deadlock?
      ensures status.Running? ==> Value() == Acted(old(Value()), h, c, arg, d).s
    {
      CommunicatedCore(Value(), h, c, arg, d);
      if CanDo(channels[c], d) {
        Target(Value(), h, c, d);
      }
      RunnableTasks(Communicated(Value(), c, arg, d), Called(Value(), h, c, arg, d));
      var doSchedule := Communicate(c, arg, d);
      status := Running;
      if doSchedule {
        status := Schedule();
      }
    }

    /** The state that `setup` leaves once the new tasklet has run up to its first switch back. */
    method Setup(t: nat)
      requires t !in tasks
      modifies this
      ensures Value() == SetUp(old(Value()), t)
    {
      tasks := tasks[t := Task(0, PyNone)];
      SchedulerAppend(t, true);
    }
  }

  lemma Overwritten<V>(m: map<nat, V>, k: nat, v: V, w: V)
    ensures m[k := v][k := w] == m[k := w]
  {
  }

  lemma RemovedAt(q: seq<nat>, t: nat, i: nat)
    requires i <= |q| && t !in q[..i] && (i < |q| ==> q[i] == t)
    ensures Removed(q, t) == if i < |q| then q[..i] + q[i + 1..] else q
  {
    if i > 0 {
      assert q[..i][0] == q[0] && q[1..][..i - 1] == q[..i][1..];
      RemovedAt(q[1..], t, i - 1);
    }
  }

  lemma RunnableTasks(s: State, h: History)
    requires Core(s, h)
    ensures forall t :: t in s.squeue ==> t in s.tasks && s.tasks[t].blocked == 0
  {
    forall t | t in s.squeue
      ensures t in s.tasks && s.tasks[t].blocked == 0
    {
      assert TaskOk(s, h, t);
    }
  }
}
