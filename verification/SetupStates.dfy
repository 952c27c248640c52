/** The class `SetupState` of _pytest/runner.py and the loop over the items that drives it. */
module SetupStates {
  import opened Wrappers
  import opened SeqOps
  import opened SetupLog

  /** What user code does in a setup or a test: it registers finalizers and may raise an exception. */
  datatype Behaviour = Behaviour(registers: seq<Registration>, raises: Option<nat>)

  /** A finalizer for no node, or for the running node or that one of its parents at a level of the chain. */
  datatype Registration = Registration(level: Option<nat>, fin: nat)

  /** What user code does each time that it is called, in the order of the calls; in the end, nothing. */
  type World = seq<Behaviour>

  function At(w: World, clock: nat): Behaviour {
    if clock < |w| then w[clock] else Behaviour([], None)
  }

  predicate MayRaise(w: World) {
    exists i :: 0 <= i < |w| && w[i].raises.Some?
  }

  function Resolve(stack: seq<Node>, level: Option<nat>): (r: Option<Node>)
    requires stack != []
    ensures r.None? || r.value in stack
  {
    match level
    case None => None
    case Some(i) => Some(if i < |stack| then stack[i] else stack[|stack| - 1])
  }

  /** The events of registering these while the node on top of the stack runs. */
  function Registrations(stack: seq<Node>, rs: seq<Registration>): seq<Event>
    requires stack != []
  {
    seq(|rs|, i requires 0 <= i < |rs| => Registered(Resolve(stack, rs[i].level), rs[i].fin))
  }

  function Fins(rs: seq<Registration>): seq<nat> {
    seq(|rs|, i requires 0 <= i < |rs| => rs[i].fin)
  }

  /** The finalizers that the first `n` calls of user code bring. */
  function Brought(w: World, n: nat): seq<nat> {
    if n == 0 then [] else Brought(w, n - 1) + Fins(At(w, n - 1).registers)
  }

  /** The first exception of the calls of user code from the `from`-th to the one before the `to`-th. */
  function FirstRaised(w: World, from: nat, to: nat): Option<nat>
    decreases to - from
  {
    if from >= to then None
    else if At(w, from).raises.Some? then At(w, from).raises
    else FirstRaised(w, from + 1, to)
  }

  predicate Ahead(w: World, from: nat, to: nat, first: Option<nat>) {
    FirstRaised(w, from, to) == first
  }

  lemma ShorterStill<T>(s: seq<T>, k: nat)
    requires 0 < k <= |s|
    ensures s[..k][..k - 1] == s[..k - 1]
  {
  }

  lemma OneMore<T>(a: seq<T>, s: seq<T>, i: nat)
    requires i < |s|
    ensures a + s[..i + 1] == a + s[..i] + [s[i]]
  {
    assert s[..i + 1] == s[..i] + [s[i]];
  }

  /** The log after the setup of a node. */
  function SetUpLog(log: seq<Event>, n: Node, registered: seq<Event>, exc: Option<nat>): seq<Event> {
    Ending(log + [Started(n)] + registered, n, exc)
  }

  function Ending(log: seq<Event>, n: Node, exc: Option<nat>): seq<Event> {
    if exc.Some? then log + [Failed(n)] else log
  }

  /** The finalizers of a node as they run: the last one registered first. */
  function LastFirst(at: Option<Node>, fins: seq<nat>): seq<Event> {
    if fins == [] then [] else [Finalized(at, fins[|fins| - 1])] + LastFirst(at, fins[..|fins| - 1])
  }

  lemma LastRuns(log: seq<Event>, at: Option<Node>, fins: seq<nat>)
    requires fins != []
    ensures log + LastFirst(at, fins) == log + [Finalized(at, fins[|fins| - 1])] + LastFirst(at, fins[..|fins| - 1])
  {
  }

  function Get(finalizers: Finalizers, at: Option<Node>): seq<nat> {
    if at in finalizers then finalizers[at] else []
  }

  type Finalizers = map<Option<Node>, seq<nat>>

  /** A frame of the machine has the same node with the same finalizers, and its failure is recorded. */
  predicate FrameOk(f: Frame, n: Node, fz: Finalizers, pe: map<Node, nat>) {
    f.node == n && f.fins == Get(fz, Some(n)) && (f.failed ==> n in pe)
  }

  ghost predicate Matches(m: Machine, stack: seq<Node>, fz: Finalizers, pe: map<Node, nat>) {
    && IsChain(stack) && |m.frames| == |stack|
    && (forall i :: 0 <= i < |stack| ==> FrameOk(m.frames[i], stack[i], fz, pe))
    && m.base == Get(fz, None)
    && (forall at :: at in fz ==> at.None? || at.value in stack)
  }

  /** The nodes that are still up while the node just popped is torn down. */
  function Held(stack: seq<Node>, at: Option<Node>): seq<Node> {
    if at.Some? then stack + [at.value] else stack
  }

  // What an event does to the machine, when the same is done to the fields.

  lemma RegisteredMatches(m: Machine, stack: seq<Node>, fz: Finalizers, pe: map<Node, nat>,
                          at: Option<Node>, fin: nat)
    requires Matches(m, stack, fz, pe) && (at.None? || at.value in stack)
    ensures Advance(m, Registered(at, fin)).Some?
    ensures Matches(Advance(m, Registered(at, fin)).value, stack, fz[at := Get(fz, at) + [fin]], pe)
  {
    if at.Some? {
      var i :| 0 <= i < |stack| && stack[i] == at.value;
      AttachedTo(m, stack, fz, pe, i, fin);
      AttachedMatches(m, stack, fz, pe, i, fin);
    } else {
      BaseMatches(m, stack, fz, pe, fin);
    }
  }

  lemma BaseMatches(m: Machine, stack: seq<Node>, fz: Finalizers, pe: map<Node, nat>, fin: nat)
    requires Matches(m, stack, fz, pe)
    ensures Matches(m.(base := m.base + [fin]), stack, fz[None := Get(fz, None) + [fin]], pe)
  {
    forall i | 0 <= i < |stack|
      ensures FrameOk(m.frames[i], stack[i], fz[None := Get(fz, None) + [fin]], pe)
    {
      assert FrameOk(m.frames[i], stack[i], fz, pe);
    }
  }

  lemma AttachedTo(m: Machine, stack: seq<Node>, fz: Finalizers, pe: map<Node, nat>, i: nat, fin: nat)
    requires Matches(m, stack, fz, pe) && i < |stack|
    ensures Advance(m, Registered(Some(stack[i]), fin))
         == Some(m.(frames := m.frames[i := m.frames[i].(fins := m.frames[i].fins + [fin])]))
  {
    assert FrameOk(m.frames[i], stack[i], fz, pe);
    OnlyFrame(m, stack, fz, pe, i);
    AttachAt(m.frames, i, fin);
  }

  lemma AttachedMatches(m: Machine, stack: seq<Node>, fz: Finalizers, pe: map<Node, nat>, i: nat, fin: nat)
    requires Matches(m, stack, fz, pe) && i < |stack|
    ensures Matches(m.(frames := m.frames[i := m.frames[i].(fins := m.frames[i].fins + [fin])]), stack,
                    fz[Some(stack[i]) := Get(fz, Some(stack[i])) + [fin]], pe)
  {
    var frames := m.frames[i := m.frames[i].(fins := m.frames[i].fins + [fin])];
    var fz' := fz[Some(stack[i]) := Get(fz, Some(stack[i])) + [fin]];
    ChainDistinct(stack);
    forall j | 0 <= j < |stack|
      ensures FrameOk(frames[j], stack[j], fz', pe)
    {
      assert FrameOk(m.frames[j], stack[j], fz, pe);
      assert j != i ==> stack[j] != stack[i];
    }
  }

  lemma OnlyFrame(m: Machine, stack: seq<Node>, fz: Finalizers, pe: map<Node, nat>, i: nat)
    requires Matches(m, stack, fz, pe) && i < |stack|
    ensures forall j :: i < j < |stack| ==> m.frames[j].node != m.frames[i].node
  {
    ChainDistinct(stack);
    forall j | i < j < |stack|
      ensures m.frames[j].node != m.frames[i].node
    {
      assert FrameOk(m.frames[j], stack[j], fz, pe) && FrameOk(m.frames[i], stack[i], fz, pe);
    }
  }

  lemma FinalizedMatches(m: Machine, held: seq<Node>, fz: Finalizers, pe: map<Node, nat>,
                         at: Option<Node>, fins: seq<nat>)
    requires Matches(m, held, fz[at := fins], pe) && at == Top(m) && fins != []
    ensures Advance(m, Finalized(at, fins[|fins| - 1])).Some?
    ensures Top(Advance(m, Finalized(at, fins[|fins| - 1])).value) == at
    ensures Matches(Advance(m, Finalized(at, fins[|fins| - 1])).value, held, fz[at := fins[..|fins| - 1]], pe)
  {
    TopMatches(m, held, fz[at := fins], pe);
    match at
    case None =>
    case Some(n) =>
      var k, last := |m.frames|, m.frames[|m.frames| - 1];
      TopFrame(m, held, fz, pe, n, fins);
      assert Advance(m, Finalized(at, fins[|fins| - 1]))
          == Some(m.(frames := m.frames[k - 1 := last.(fins := fins[..|fins| - 1])]));
  }

  lemma TopFrame(m: Machine, held: seq<Node>, fz: Finalizers, pe: map<Node, nat>, n: Node, fins: seq<nat>)
    requires Matches(m, held, fz[Some(n) := fins], pe) && held != [] && n == held[|held| - 1] && fins != []
    ensures var (k, fins') := (|held|, fins[..|fins| - 1]);
      Matches(m.(frames := m.frames[k - 1 := m.frames[k - 1].(fins := fins')]), held, fz[Some(n) := fins'], pe)
  {
    var k, fz' := |held|, fz[Some(n) := fins[..|fins| - 1]];
    var frames := m.frames[k - 1 := m.frames[k - 1].(fins := fins[..|fins| - 1])];
    ChainDistinct(held);
    forall i | 0 <= i < k
      ensures FrameOk(frames[i], held[i], fz', pe)
    {
      assert FrameOk(m.frames[i], held[i], fz[Some(n) := fins], pe);
      assert i < k - 1 ==> held[i] != held[k - 1];
    }
  }

  lemma TopMatches(m: Machine, held: seq<Node>, fz: Finalizers, pe: map<Node, nat>)
    requires Matches(m, held, fz, pe)
    ensures Top(m) == if held == [] then None else Some(held[|held| - 1])
    ensures (if held == [] then m.base else m.frames[|held| - 1].fins) == Get(fz, Top(m))
  {
    if held != [] {
      assert FrameOk(m.frames[|held| - 1], held[|held| - 1], fz, pe);
    }
  }

  lemma SameGet(m: Machine, held: seq<Node>, fz: Finalizers, fz': Finalizers, pe: map<Node, nat>)
    requires Matches(m, held, fz, pe)
    requires forall at :: Get(fz, at) == Get(fz', at)
    requires forall at :: at in fz' ==> at.None? || at.value in held
    ensures Matches(m, held, fz', pe)
  {
    forall i | 0 <= i < |held|
      ensures FrameOk(m.frames[i], held[i], fz', pe)
    {
      assert FrameOk(m.frames[i], held[i], fz, pe);
    }
  }

  lemma TornDownMatches(m: Machine, rest: seq<Node>, fz: Finalizers, pe: map<Node, nat>, n: Node)
    requires Matches(m, rest + [n], fz, pe) && Some(n) !in fz
    ensures Advance(m, TornDown(n)).Some?
    ensures Matches(Advance(m, TornDown(n)).value, rest, fz, pe)
  {
    var held := rest + [n];
    TopMatches(m, held, fz, pe);
    FramesBelow(m, rest, n, fz, pe);
    ChainPrefix(held, |rest|);
    assert held[..|rest|] == rest;
  }

  lemma FramesBelow(m: Machine, rest: seq<Node>, n: Node, fz: Finalizers, pe: map<Node, nat>)
    requires Matches(m, rest + [n], fz, pe)
    ensures |m.frames[..|rest|]| == |rest|
    ensures forall i :: 0 <= i < |rest| ==> FrameOk(m.frames[..|rest|][i], rest[i], fz, pe)
  {
    var held := rest + [n];
    forall i | 0 <= i < |rest|
      ensures FrameOk(m.frames[..|rest|][i], rest[i], fz, pe)
    {
      assert FrameOk(m.frames[i], held[i], fz, pe);
    }
  }

  lemma ChainPrefix(s: seq<Node>, k: nat)
    requires IsChain(s) && k <= |s|
    ensures IsChain(s[..k])
  {
    forall i | 0 <= i < k
      ensures s[..k][i].parent == Before(s[..k], i)
    {
      assert s[i].parent == Before(s, i);
    }
  }

  lemma StartedMatches(m: Machine, stack: seq<Node>, fz: Finalizers, pe: map<Node, nat>, n: Node)
    requires Matches(m, stack, fz, pe) && NoneFailed(m) && n.parent == Before(stack, |stack|) && n !in stack
    ensures Advance(m, Started(n)).Some?
    ensures Matches(Advance(m, Started(n)).value, stack + [n], fz, pe)
  {
    TopMatches(m, stack, fz, pe);
    var m', s' := Advance(m, Started(n)).value, stack + [n];
    forall i | 0 <= i < |s'|
      ensures s'[i].parent == Before(s', i)
    {
      assert i < |stack| ==> s'[i].parent == Before(stack, i);
    }
    forall i | 0 <= i < |s'|
      ensures FrameOk(m'.frames[i], s'[i], fz, pe)
    {
      assert i < |stack| ==> FrameOk(m.frames[i], stack[i], fz, pe);
    }
  }

  lemma FailedMatches(m: Machine, stack: seq<Node>, fz: Finalizers, pe: map<Node, nat>, n: Node, exc: nat)
    requires Matches(m, stack, fz, pe) && stack != [] && n == stack[|stack| - 1]
    ensures Advance(m, Failed(n)).Some?
    ensures Matches(Advance(m, Failed(n)).value, stack, fz, pe[n := exc])
  {
    TopMatches(m, stack, fz, pe);
    var m' := Advance(m, Failed(n)).value;
    forall i | 0 <= i < |stack|
      ensures FrameOk(m'.frames[i], stack[i], fz, pe[n := exc])
    {
      assert FrameOk(m.frames[i], stack[i], fz, pe);
    }
  }

  class SetupState {
    var stack: seq<Node>
    var finalizers: Finalizers
    /** The attribute `_prepare_exc` of the nodes that have it. */
    var prepareExc: map<Node, nat>
    /** The number of calls of user code so far. */
    var clock: nat

    /** All that has happened, and the machine that has read it. */
    ghost var log: seq<Event>
    ghost var machine: Machine
    ghost var seen: Seen

    ghost predicate Logged()
      reads `log, `seen, `machine
    {
      Replay(log) == Some(machine) && Sees(log) == seen
    }

    ghost predicate Valid()
      reads this
    {
      Logged() && Matches(machine, stack, finalizers, prepareExc) && prepareExc.Keys == seen.failures
    }

    /** Each call of user code so far was a setup or a call, and all that it brings is registered. */
    ghost predicate Accounted(w: World)
      reads `seen, `clock
    {
      seen.fins == Brought(w, clock) && clock == |seen.starts| + |seen.calls|
    }

    constructor ()
      ensures Valid() && stack == [] && finalizers == map[] && prepareExc == map[] && clock == 0 && log == []
    {
      stack := [];
      finalizers := map[];
      prepareExc := map[];
      clock := 0;
      log := [];
      machine := EMPTY;
      seen := Seen([], {}, [], []);
    }

    ghost method Note(e: Event)
      requires Logged() && Advance(machine, e).Some?
      modifies `log, `seen, `machine
      ensures Logged() && log == old(log) + [e] && Some(machine) == Advance(old(machine), e)
      ensures seen == See(old(seen), e)
    {
      ReplayNext(log, e);
      SeesNext(log, e);
      seen := See(seen, e);
      machine := Advance(machine, e).value;
      log := log + [e];
    }

    method AddFinalizer(fin: nat, at: Option<Node>)
      requires Valid() && (at.None? || at.value in stack)
      modifies `finalizers, `log, `seen, `machine
      ensures Valid() && log == old(log) + [Registered(at, fin)]
      ensures seen == old(seen).(fins := old(seen).fins + [fin])
      ensures NoneFailed(old(machine)) ==> NoneFailed(machine)
    {
      RegisteredMatches(machine, stack, finalizers, prepareExc, at, fin);
      if at.Some? {
        AttachFailed(machine.frames, at.value, fin);
      }
      Note(Registered(at, fin));
      finalizers := finalizers[at := Get(finalizers, at) + [fin]];
    }

    /** `_callfinalizers`: the finalizers of the node that is on top, the last one first. */
    method CallFinalizers(at: Option<Node>, ghost held: seq<Node>)
      requires Logged() && Matches(machine, held, finalizers, prepareExc) && at == Top(machine)
      modifies `finalizers, `log, `seen, `machine
      ensures Logged() && Matches(machine, held, finalizers, prepareExc) && at == Top(machine)
      ensures at !in finalizers && seen == old(seen)
      ensures finalizers == old(finalizers) - {at}
      ensures log == old(log) + LastFirst(at, Get(old(finalizers), at))
    {
      var fins := Get(finalizers, at);
      TopMatches(machine, held, finalizers, prepareExc);
      SameGet(machine, held, finalizers, (finalizers - {at})[at := fins], prepareExc);
      finalizers := finalizers - {at};
      RunFinalizers(at, fins, held);
      SameGet(machine, held, finalizers[at := []], finalizers, prepareExc);
    }

    /** The loop of `_callfinalizers`. */
    method RunFinalizers(at: Option<Node>, all: seq<nat>, ghost held: seq<Node>)
      requires Logged() && Matches(machine, held, finalizers[at := all], prepareExc) && at == Top(machine)
      modifies `log, `seen, `machine
      ensures Logged() && Matches(machine, held, finalizers[at := []], prepareExc) && at == Top(machine)
      ensures seen == old(seen) && log == old(log) + LastFirst(at, all)
    {
      var fins := all;
      while fins != []
        invariant Logged() && Top(machine) == at && seen == old(seen)
        invariant Matches(machine, held, finalizers[at := fins], prepareExc)
        invariant log + LastFirst(at, fins) == old(log) + LastFirst(at, all)
      {
        LastRuns(log, at, fins);
        FinalizedMatches(machine, held, finalizers, prepareExc, at, fins);
        var fin := fins[|fins| - 1];
        fins := fins[..|fins| - 1];
        Note(Finalized(at, fin));
      }
    }

    /**
      * `_teardown_with_finalization`, of the node just popped or, in the end, of None. The last loop of
      * it asserts that no finalizer has lost its node.
      */
    method TeardownWithFinalization(at: Option<Node>)
      requires Logged() && Matches(machine, Held(stack, at), finalizers, prepareExc)
      requires at.None? ==> stack == []
      modifies `finalizers, `log, `seen, `machine
      ensures Logged() && Matches(machine, stack, finalizers, prepareExc)
      ensures seen == old(seen) && finalizers == old(finalizers) - {at}
      ensures var log' := old(log) + LastFirst(at, Get(old(finalizers), at));
        log == if at.Some? then log' + [TornDown(at.value)] else log'
    {
      TopMatches(machine, Held(stack, at), finalizers, prepareExc);
      CallFinalizers(at, Held(stack, at));
      if at.Some? {
        Teardown(at.value);
      }
      assert forall colitem :: colitem in finalizers ==> colitem.None? || colitem.value in stack;
    }

    /** The teardown of the node that was on top. */
    method Teardown(n: Node)
      requires Logged() && Matches(machine, stack + [n], finalizers, prepareExc) && Some(n) !in finalizers
      modifies `log, `seen, `machine
      ensures Logged() && Matches(machine, stack, finalizers, prepareExc) && seen == old(seen)
      ensures log == old(log) + [TornDown(n)]
    {
      TornDownMatches(machine, stack, finalizers, prepareExc, n);
      Note(TornDown(n));
    }

    method PopAndTeardown()
      requires Valid() && stack != []
      modifies `stack, `finalizers, `log, `seen, `machine
      ensures Valid() && stack == old(stack)[..|old(stack)| - 1] && seen == old(seen)
      ensures var n := old(stack)[|old(stack)| - 1];
        log == old(log) + LastFirst(Some(n), Get(old(finalizers), Some(n))) + [TornDown(n)]
    {
      var colitem := stack[|stack| - 1];
      assert stack == stack[..|stack| - 1] + [colitem];
      stack := stack[..|stack| - 1];
      TeardownWithFinalization(Some(colitem));
    }

    /** `_teardown_towards`: what stays is the longest prefix of the stack that is needed. */
    method TeardownTowards(needed: seq<Node>)
      requires Valid()
      modifies `stack, `finalizers, `log, `seen, `machine
      ensures Valid() && stack == old(stack)[..Common(old(stack), needed)] && seen == old(seen)
      ensures |stack| <= |needed| && stack == needed[..|stack|]
    {
      CommonIff(stack, needed, Common(stack, needed));
      while stack != []
        invariant Valid() && seen == old(seen)
        invariant Common(old(stack), needed) <= |stack| <= |old(stack)| && stack == old(stack)[..|stack|]
      {
        CommonIff(old(stack), needed, |stack|);
        if |stack| <= |needed| && stack == needed[..|stack|] {
          break;
        }
        ShorterStill(old(stack), |stack|);
        PopAndTeardown();
      }
    }

    /** `teardown_all`, whose last assertion says that no finalizer is left. */
    method TeardownAll()
      requires Valid()
      modifies `stack, `finalizers, `log, `seen, `machine
      ensures Valid() && stack == [] && finalizers == map[] && machine == EMPTY && seen == old(seen)
    {
      while stack != []
        invariant Valid() && seen == old(seen)
        decreases |stack|
      {
        PopAndTeardown();
      }
      TeardownWithFinalization(None);
      assert forall at :: at !in finalizers;
    }

    /** `teardown_exact`. */
    method TeardownExact(nextitem: Option<Node>)
      requires Valid()
      modifies `stack, `finalizers, `log, `seen, `machine
      ensures Valid() && stack == old(stack)[..Common(old(stack), ChainOf(nextitem))] && seen == old(seen)
      ensures |stack| <= |ChainOf(nextitem)| && stack == ChainOf(nextitem)[..|stack|]
    {
      var needed := [];
      if nextitem.Some? {
        needed := ListChain(nextitem.value);
      }
      TeardownTowards(needed);
    }

    /** The finalizers that user code registers while the node on top runs. */
    method RegisterAll(rs: seq<Registration>)
      requires Valid() && stack != []
      modifies `finalizers, `log, `seen, `machine
      ensures Valid() && log == old(log) + Registrations(stack, rs)
      ensures seen == old(seen).(fins := old(seen).fins + Fins(rs))
      ensures NoneFailed(old(machine)) ==> NoneFailed(machine)
    {
      ghost var events, fins := Registrations(stack, rs), Fins(rs);
      for i := 0 to |rs|
        invariant Valid() && log == old(log) + events[..i]
        invariant seen == old(seen).(fins := old(seen).fins + fins[..i])
        invariant NoneFailed(old(machine)) ==> NoneFailed(machine)
      {
        OneMore(old(log), events, i);
        OneMore(old(seen).fins, fins, i);
        AddFinalizer(rs[i].fin, Resolve(stack, rs[i].level));
      }
      assert events[..|rs|] == events && fins[..|rs|] == fins;
    }

    /** User code runs for the node on top: it registers finalizers and may raise an exception. */
    method RunUserCode(w: World) returns (exc: Option<nat>)
      requires Valid() && stack != []
      modifies `clock, `finalizers, `log, `seen, `machine
      ensures Valid() && clock == old(clock) + 1 && exc == At(w, old(clock)).raises
      ensures log == old(log) + Registrations(stack, At(w, old(clock)).registers)
      ensures seen == old(seen).(fins := old(seen).fins + Fins(At(w, old(clock)).registers))
      ensures NoneFailed(old(machine)) ==> NoneFailed(machine)
    {
      var behaviour := At(w, clock);
      clock := clock + 1;
      RegisterAll(behaviour.registers);
      exc := behaviour.raises;
    }

    /** A child of the node on top goes on the stack. */
    method Push(col: Node)
      requires Valid() && NoneFailed(machine) && col.parent == Before(stack, |stack|)
      modifies `stack, `log, `seen, `machine
      ensures Valid() && stack == old(stack) + [col] && seen.starts == old(seen).starts + [col]
      ensures log == old(log) + [Started(col)]
      ensures seen.calls == old(seen).calls && seen.fins == old(seen).fins
      ensures NoneFailed(machine)
    {
      NewNode(stack, col);
      StartedMatches(machine, stack, finalizers, prepareExc, col);
      stack := stack + [col];
      Note(Started(col));
    }

    /** `_prepare_exc` of the node on top. */
    method Record(col: Node, exc: nat)
      requires Valid() && stack != [] && stack[|stack| - 1] == col
      modifies `prepareExc, `log, `seen, `machine
      ensures Valid() && prepareExc == old(prepareExc)[col := exc] && seen.starts == old(seen).starts
      ensures log == old(log) + [Failed(col)]
      ensures seen.calls == old(seen).calls && seen.fins == old(seen).fins
    {
      FailedMatches(machine, stack, finalizers, prepareExc, col, exc);
      Note(Failed(col));
      prepareExc := prepareExc[col := exc];
    }

    /** One turn of the last loop of `prepare`: the node is set up, and registers finalizers meanwhile. */
    method SetUpNode(col: Node, w: World) returns (exc: Option<nat>)
      requires Valid() && NoneFailed(machine) && col.parent == Before(stack, |stack|)
      modifies this
      ensures Valid() && stack == old(stack) + [col] && seen.starts == old(seen).starts + [col]
      ensures exc == At(w, old(clock)).raises && clock == old(clock) + 1
      ensures prepareExc == Recording(old(prepareExc), stack, exc)
      ensures log == SetUpLog(old(log), col, Registrations(stack, At(w, old(clock)).registers), exc)
      ensures seen.calls == old(seen).calls && (old(Accounted(w)) ==> Accounted(w))
      ensures exc.None? ==> NoneFailed(machine)
    {
      Push(col);
      exc := SetUpTop(col, w);
    }

    /** The setup of the node just pushed. */
    method SetUpTop(col: Node, w: World) returns (exc: Option<nat>)
      requires Valid() && NoneFailed(machine) && stack != [] && stack[|stack| - 1] == col
      modifies `prepareExc, `clock, `finalizers, `log, `seen, `machine
      ensures Valid() && exc == At(w, old(clock)).raises && clock == old(clock) + 1
      ensures prepareExc == Recording(old(prepareExc), stack, exc)
      ensures log == Ending(old(log) + Registrations(stack, At(w, old(clock)).registers), col, exc)
      ensures seen.starts == old(seen).starts && seen.calls == old(seen).calls
      ensures seen.fins == old(seen).fins + Fins(At(w, old(clock)).registers)
      ensures exc.None? ==> NoneFailed(machine)
    {
      exc := RunUserCode(w);
      if exc.Some? {
        Record(col, exc.value);
      }
    }

    /** The loop of `prepare` that looks for a failure. */
    method FindFailure() returns (exc: Option<nat>)
      ensures exc == FirstFailure(stack, prepareExc)
    {
      for i := 0 to |stack|
        invariant FirstFailure(stack, prepareExc) == FirstFailure(stack[i..], prepareExc)
      {
        if stack[i] in prepareExc {
          return Some(prepareExc[stack[i]]);
        }
        assert stack[i..][1..] == stack[i + 1..];
      }
      return None;
    }

    /** The stack is the first part of the chain, and the setups since `before` are the chain from there. */
    ghost predicate Along(chain: seq<Node>, before: seq<Node>, from: nat)
      reads `stack, `seen
    {
      from <= |stack| <= |chain| && stack == chain[..|stack|] && seen.starts == before + chain[from..|stack|]
    }

    method SetUpNext(chain: seq<Node>, w: World, ghost before: seq<Node>, ghost from: nat, ghost to: nat,
                     ghost first: Option<nat>)
      returns (exc: Option<nat>)
      requires Valid() && IsChain(chain) && |stack| < |chain| && clock < to && Along(chain, before, from)
      requires Ahead(w, clock, to, first) && NoneFailed(machine)
      modifies this
      ensures Valid() && |stack| == |old(stack)| + 1 && Along(chain, before, from)
      ensures prepareExc == Recording(old(prepareExc), stack, exc) && (exc.Some? ==> MayRaise(w))
      ensures clock == old(clock) + 1
      ensures if exc.Some? then exc == first else Ahead(w, clock, to, first) && NoneFailed(machine)
      ensures seen.calls == old(seen).calls && (old(Accounted(w)) ==> Accounted(w))
    {
      assert chain[|stack|].parent == Before(chain, |stack|);
      NextOfChain(before, chain, from, |stack|);
      exc := SetUpNode(chain[|stack|], w);
    }

    /** The last loop of `prepare`. */
    method SetUpNodes(chain: seq<Node>, w: World, ghost to: nat) returns (exc: Option<nat>)
      requires Valid() && NoneFailed(machine) && IsChain(chain)
      requires to - clock == |chain| - |stack| >= 0 && stack == chain[..|stack|]
      modifies this
      ensures Valid() && |old(stack)| <= |stack| <= |chain| && stack == chain[..|stack|]
      ensures seen.starts == old(seen).starts + chain[|old(stack)|..|stack|]
      ensures exc.None? ==> stack == chain
      ensures exc.Some? ==> |stack| > |old(stack)| && MayRaise(w)
      ensures prepareExc == Recording(old(prepareExc), stack, exc)
      ensures clock == old(clock) + |stack| - |old(stack)|
      ensures exc == FirstRaised(w, old(clock), to)
      ensures seen.calls == old(seen).calls && (old(Accounted(w)) ==> Accounted(w))
      ensures exc.None? ==> NoneFailed(machine)
    {
      ghost var before, from, pe := seen.starts, |stack|, prepareExc;
      ghost var first := FirstRaised(w, clock, to);
      exc := None;
      while |stack| < |chain|
        invariant Valid() && Along(chain, before, from)
        invariant exc.None? && prepareExc == pe
        invariant clock == old(clock) + |stack| - from
        invariant to - clock == |chain| - |stack| && Ahead(w, clock, to, first)
        invariant seen.calls == old(seen).calls && (old(Accounted(w)) ==> Accounted(w))
        invariant NoneFailed(machine)
        decreases |chain| - |stack|
      {
        exc := SetUpNext(chain, w, before, from, to, first);
        if exc.Some? {
          return;
        }
      }
      WholeChain(chain);
    }

    /**
      * `prepare`: the nodes that the last item and this one share stay as they are, and the others of
      * this one's chain are set up, parents first, until a setup raises. If a shared node has
      * `_prepare_exc`, that is raised and nothing is set up.
      */
    method Prepare(item: Node, w: World) returns (r: Prepared, ghost kept: nat)
      requires Valid()
      modifies this
      ensures kept == Common(old(stack), Chain(item)) <= |stack| <= |Chain(item)|
      ensures Valid() && stack == FirstN(Chain(item), |stack|)
      ensures seen.starts == old(seen).starts + Chain(item)[kept..|stack|] && seen.calls == old(seen).calls
      ensures r.Again() == Again(old(stack), old(prepareExc), item)
      ensures r.RaisedAgain? ==> |stack| == kept
      ensures r.Raised? ==> |stack| > kept && MayRaise(w)
      ensures prepareExc == Recording(old(prepareExc), stack, r.Now())
      ensures r.Passed? ==> stack == Chain(item) && NoneFailed(machine)
      ensures !r.RaisedAgain? ==> r.Now() == Now(old(stack), item, w, old(clock))
      ensures old(Accounted(w)) ==> Accounted(w)
    {
      var needed := ListChain(item);
      ChainIsChain(item);
      kept := Common(stack, needed);
      ghost var to := clock + |needed| - kept;
      NowIs(stack, item, w, clock, to);
      TeardownTowards(needed);
      r := PrepareRest(needed, w, to);
    }

    /** `prepare` after the teardown. */
    method PrepareRest(needed: seq<Node>, w: World, ghost to: nat) returns (r: Prepared)
      requires Valid() && IsChain(needed) && to - clock == |needed| - |stack| >= 0 && stack == needed[..|stack|]
      modifies this
      ensures Valid() && |old(stack)| <= |stack| <= |needed| && stack == needed[..|stack|]
      ensures seen.starts == old(seen).starts + needed[|old(stack)|..|stack|]
      ensures r.Again() == FirstFailure(old(stack), old(prepareExc))
      ensures r.RaisedAgain? ==> |stack| == |old(stack)|
      ensures r.Raised? ==> |stack| > |old(stack)| && MayRaise(w)
      ensures prepareExc == Recording(old(prepareExc), stack, r.Now())
      ensures r.Passed? ==> stack == needed && NoneFailed(machine)
      ensures !r.RaisedAgain? ==> r.Now() == FirstRaised(w, old(clock), to)
      ensures seen.calls == old(seen).calls && (old(Accounted(w)) ==> Accounted(w))
    {
      var exc := FindFailure();
      if exc.Some? {
        return RaisedAgain(exc.value);
      }
      NoFailureFound();
      exc := SetUpNodes(needed, w, to);
      r := if exc.Some? then Raised(exc.value) else Passed;
    }

    lemma NoFailureFound()
      requires Valid() && FirstFailure(stack, prepareExc).None?
      ensures NoneFailed(machine)
    {
      FirstFailureIff(stack, prepareExc);
      forall i | 0 <= i < |machine.frames|
        ensures !machine.frames[i].failed
      {
        assert FrameOk(machine.frames[i], stack[i], finalizers, prepareExc);
      }
    }

    /** `pytest_runtest_call`: the item is called, and registers finalizers meanwhile. */
    method CallItem(item: Node, w: World)
      requires Valid() && stack == Chain(item) && NoneFailed(machine)
      modifies `clock, `finalizers, `log, `seen, `machine
      ensures Valid() && clock == old(clock) + 1
      ensures log == old(log) + [Called(item)] + Registrations(stack, At(w, old(clock)).registers)
      ensures seen.starts == old(seen).starts && seen.calls == old(seen).calls + [item]
      ensures old(Accounted(w)) ==> Accounted(w)
    {
      TopMatches(machine, stack, finalizers, prepareExc);
      Note(Called(item));
      var _ := RunUserCode(w);
    }

    /**
      * `runtestprotocol`: setup, call if the setup passed, and teardown as far as the next item allows.
      * `up` is how much of the item's chain was stacked in between.
      */
    method RunTestProtocol(item: Node, nextitem: Option<Node>, w: World) returns (passed: bool, ghost up: nat)
      requires Valid()
      modifies this
      ensures Common(old(stack), Chain(item)) <= up <= |Chain(item)| && (passed ==> up == |Chain(item)|)
      ensures seen.starts == old(seen).starts + Chain(item)[Common(old(stack), Chain(item))..up]
      ensures passed <==> Passes(old(stack), old(prepareExc), item, w, old(clock))
      ensures Again(old(stack), old(prepareExc), item).Some? ==> up == Common(old(stack), Chain(item))
      ensures seen.calls == if passed then old(seen).calls + [item] else old(seen).calls
      ensures old(Accounted(w)) ==> Accounted(w)
      ensures Valid() && stack == Left(item, up, nextitem)
      ensures |stack| <= |ChainOf(nextitem)| && stack == ChainOf(nextitem)[..|stack|]
      ensures !passed ==> old(prepareExc) != map[] || MayRaise(w)
      ensures passed ==> prepareExc == old(prepareExc)
    {
      ghost var kept;
      passed, up, kept := SetUpAndCall(item, w);
      TeardownExact(nextitem);
    }

    /** The setup of an item, and its call if that passed. */
    method SetUpAndCall(item: Node, w: World) returns (passed: bool, ghost up: nat, ghost kept: nat)
      requires Valid()
      modifies this
      ensures Valid() && stack == FirstN(Chain(item), up)
      ensures kept == Common(old(stack), Chain(item)) <= up <= |Chain(item)|
      ensures passed ==> up == |Chain(item)| && prepareExc == old(prepareExc)
      ensures seen.starts == old(seen).starts + Chain(item)[kept..up]
      ensures passed <==> Passes(old(stack), old(prepareExc), item, w, old(clock))
      ensures Again(old(stack), old(prepareExc), item).Some? ==> up == kept
      ensures seen.calls == if passed then old(seen).calls + [item] else old(seen).calls
      ensures old(Accounted(w)) ==> Accounted(w)
      ensures !passed ==> old(prepareExc) != map[] || MayRaise(w)
    {
      var r;
      r, kept := Prepare(item, w);
      NoRecordNoFailure(old(stack), old(prepareExc), item);
      up := |stack|;
      passed := r.Passed?;
      if passed {
        CallItem(item, w);
      }
    }
  }

  /** The exception recorded first among the nodes that stay for the item. */
  function Again(stack: seq<Node>, pe: map<Node, nat>, item: Node): Option<nat> {
    FirstFailure(stack[..Common(stack, Chain(item))], pe)
  }

  /** The first exception of the setups that the item needs. */
  function Now(stack: seq<Node>, item: Node, w: World, clock: nat): Option<nat> {
    FirstRaised(w, clock, clock + |Chain(item)| - Common(stack, Chain(item)))
  }

  lemma NowIs(stack: seq<Node>, item: Node, w: World, clock: nat, to: nat)
    requires Common(stack, Chain(item)) + to - clock == |Chain(item)|
    ensures Now(stack, item, w, clock) == FirstRaised(w, clock, to)
  {
  }

  /** No node that stays has a failure recorded, and no setup of the others raises. */
  predicate Passes(stack: seq<Node>, pe: map<Node, nat>, item: Node, w: World, clock: nat) {
    Again(stack, pe, item).None? && Now(stack, item, w, clock).None?
  }

  lemma NoRecordNoFailure(stack: seq<Node>, pe: map<Node, nat>, item: Node)
    ensures pe == map[] ==> Again(stack, pe, item).None?
  {
    FirstFailureIff(stack[..Common(stack, Chain(item))], pe);
  }

  /** What is left on the stack when `up` nodes of the item's chain were stacked and the next item follows. */
  function Left(item: Node, up: nat, nextitem: Option<Node>): seq<Node> {
    var stack := FirstN(Chain(item), up);
    stack[..Common(stack, ChainOf(nextitem))]
  }

  function ItemAt(items: seq<Node>, i: nat): Option<Node> {
    if i < |items| then Some(items[i]) else None
  }

  /** The items so far, how much of each one's chain was stacked, and whether its setup passed. */
  datatype Turns = Begin | Then(before: Turns, item: Node, up: nat, passed: bool)

  function Items(ts: Turns): seq<Node> {
    if ts.Begin? then [] else Items(ts.before) + [ts.item]
  }

  /** What is left on the stack after these turns when `nextitem` follows. */
  function LeftAfter(ts: Turns, nextitem: Option<Node>): seq<Node> {
    if ts.Begin? then [] else Left(ts.item, ts.up, nextitem)
  }

  /** In each turn no less of the chain is stacked than was left of it, and no more than there is. */
  predicate Reaching(ts: Turns) {
    ts.Begin? ||
    (&& Reaching(ts.before) && |LeftAfter(ts.before, Some(ts.item))| <= ts.up <= |Chain(ts.item)|
     && (ts.passed ==> ts.up == |Chain(ts.item)|))
  }

  /** The nodes that are set up then: of each chain those that were not left on the stack. */
  function StartsOf(ts: Turns): seq<Node>
    requires Reaching(ts)
  {
    if ts.Begin? then []
    else StartsOf(ts.before) + Chain(ts.item)[|LeftAfter(ts.before, Some(ts.item))|..ts.up]
  }

  /** The items that are called then: those whose setup passed. */
  function CallsOf(ts: Turns): seq<Node> {
    if ts.Begin? then [] else if ts.passed then CallsOf(ts.before) + [ts.item] else CallsOf(ts.before)
  }

  /** Every setup passed. */
  predicate AllUp(ts: Turns) {
    ts.Begin? || (AllUp(ts.before) && ts.up == |Chain(ts.item)| && ts.passed)
  }

  /** The nodes that have to be set up for the items, each shared one once. */
  function SetUps(items: seq<Node>): seq<Node> {
    if items == [] then []
    else if |items| == 1 then Chain(items[0])
    else
      var (last, prev) := (Chain(items[|items| - 1]), Chain(items[|items| - 2]));
      SetUps(items[..|items| - 1]) + last[Common(prev, last)..]
  }

  /**
    * `pytest_runtestloop` and the end of the session. Whatever fails, in the end everything is torn
    * down and all finalizers have run, and the log keeps to the discipline; and what is set up for an
    * item is a part of its chain behind all that is still stacked from the item before. An item is called
    * exactly if its setup passed, and every finalizer that a setup or a call brings is registered. If nothing
    * raises, what is set up are the nodes that consecutive items do not share, and all items are called.
    */
  method RunTestLoop(items: seq<Node>, w: World) returns (state: SetupState, ghost turns: Turns)
    ensures state.Valid() && state.stack == [] && state.finalizers == map[] && Replay(state.log) == Some(EMPTY)
    ensures Items(turns) == items && Reaching(turns) && Starts(state.log) == StartsOf(turns)
    ensures Calls(state.log) == CallsOf(turns) && Registers(state.log) == Brought(w, state.clock)
    ensures state.clock == |Starts(state.log)| + |Calls(state.log)|
    ensures !MayRaise(w) ==> Starts(state.log) == SetUps(items) && Calls(state.log) == items
  {
    state := new SetupState();
    turns := Begin;
    for i := 0 to |items|
      invariant state.Valid() && fresh(state)
      invariant Items(turns) == items[..i] && state.stack == LeftAfter(turns, ItemAt(items, i))
      invariant Reaching(turns) && Ran(state, turns, w)
      invariant !MayRaise(w) ==> state.prepareExc == map[] && AllUp(turns)
    {
      turns := NextTurn(state, turns, items[i], ItemAt(items, i + 1), w);
      FirstItems(items, i);
    }
    assert items[..|items|] == items;
    if !MayRaise(w) {
      AllUpStarts(turns);
      AllUpCalls(turns);
    }
    state.TeardownAll();
  }

  method NextTurn(state: SetupState, ghost turns: Turns, item: Node, nextitem: Option<Node>, w: World)
    returns (ghost turns': Turns)
    requires state.Valid() && state.stack == LeftAfter(turns, Some(item))
    requires Reaching(turns) && Ran(state, turns, w)
    modifies state
    ensures state.Valid() && state.stack == LeftAfter(turns', nextitem)
    ensures turns'.Then? && turns'.before == turns && turns'.item == item
    ensures Reaching(turns') && Ran(state, turns', w)
    ensures !MayRaise(w) && old(state.prepareExc) == map[] ==>
              state.prepareExc == map[] && turns'.up == |Chain(item)| && turns'.passed
  {
    LeftInCommon(turns, item);
    var passed, up := state.RunTestProtocol(item, nextitem, w);
    turns' := Then(turns, item, up, passed);
  }

  /** The log has just what these turns set up, called and registered, one call of user code after the other. */
  ghost predicate Ran(state: SetupState, turns: Turns, w: World)
    requires Reaching(turns)
    reads state
  {
    && state.seen.starts == StartsOf(turns) && state.seen.calls == CallsOf(turns)
    && state.Accounted(w)
  }

  /**
    * While no setup raises, `prepare` fails exactly if a node that stays set up raised in any setup
    * before, which may not be its last one: `_prepare_exc` is never removed.
    */
  method PrepareInPeace(state: SetupState, item: Node, w: World) returns (r: Prepared)
    requires state.Valid() && !MayRaise(w)
    modifies state
    ensures state.Valid()
    ensures r.Passed? <==> forall i :: 0 <= i < Common(old(state.stack), Chain(item)) ==>
                                         Failed(old(state.stack)[i]) !in old(state.log)
  {
    ghost var k := Common(state.stack, Chain(item));
    FirstFailureIff(state.stack[..k], state.prepareExc);
    forall i | 0 <= i < k
      ensures state.stack[..k][i] in state.prepareExc <==> Failed(state.stack[i]) in state.log
    {
      FailuresIff(state.log, state.stack[i]);
    }
    ghost var kept;
    r, kept := state.Prepare(item, w);
  }

  /** So a failure can outlive its cause: the second setup of the node passes, but its item fails. */
  method StaleFailure(node: Node, item: Node, first: World, later: World)
    returns (state: SetupState, again: Option<nat>, r: Prepared)
    requires node.parent == None && item.parent == Some(node)
    requires At(first, 0).raises.Some? && !MayRaise(later)
    ensures again == None && r.RaisedAgain?
  {
    state := FailedOnce(node, first);
    again := state.SetUpNode(node, later);
    r := ItemOf(state, node, item, later);
  }

  method FailedOnce(node: Node, w: World) returns (state: SetupState)
    requires node.parent == None && At(w, 0).raises.Some?
    ensures fresh(state) && state.Valid() && state.stack == [] && node in state.prepareExc
  {
    state := new SetupState();
    var failure := state.SetUpNode(node, w);
    state.PopAndTeardown();
  }

  method ItemOf(state: SetupState, node: Node, item: Node, w: World) returns (r: Prepared)
    requires state.Valid() && state.stack == [node] && node in state.prepareExc
    requires node.parent == None && item.parent == Some(node)
    modifies state
    ensures r.RaisedAgain?
  {
    assert Chain(item) == [node, item];
    assert Common([node], [node, item]) == 1 + Common([], [item]);
    assert state.stack[..1] == [node];
    ghost var kept;
    r, kept := state.Prepare(item, w);
  }

  /** What was left of a chain is all that it has in common with what was left. */
  lemma LeftInCommon(ts: Turns, item: Node)
    ensures Common(LeftAfter(ts, Some(item)), Chain(item)) == |LeftAfter(ts, Some(item))|
  {
    if ts.Then? {
      CommonOfCommon(FirstN(Chain(ts.item), ts.up), Chain(item));
    }
  }

  /** If every chain was stacked as a whole, what consecutive items share was set up once. */
  lemma {:induction false} AllUpStarts(ts: Turns)
    requires Reaching(ts) && AllUp(ts)
    ensures StartsOf(ts) == SetUps(Items(ts))
  {
    if ts.Then? {
      AllUpStarts(ts.before);
      AllUpNext(ts.before, ts.item);
      WholeRest(ts);
    }
  }

  lemma WholeRest(ts: Turns)
    requires Reaching(ts) && ts.Then? && ts.up == |Chain(ts.item)|
    ensures StartsOf(ts) == StartsOf(ts.before) + Chain(ts.item)[|LeftAfter(ts.before, Some(ts.item))|..]
  {
  }

  lemma AllUpNext(ts: Turns, item: Node)
    requires Reaching(ts) && AllUp(ts) && |LeftAfter(ts, Some(item))| <= |Chain(item)|
    ensures SetUps(Items(ts) + [item]) == SetUps(Items(ts)) + Chain(item)[|LeftAfter(ts, Some(item))|..]
  {
    SetUpsSnoc(Items(ts), item);
    AllUpLeft(ts, item);
  }

  lemma {:induction false} AllUpCalls(ts: Turns)
    requires AllUp(ts)
    ensures CallsOf(ts) == Items(ts)
  {
    if ts.Then? {
      AllUpCalls(ts.before);
    }
  }

  lemma AllUpLeft(ts: Turns, item: Node)
    requires AllUp(ts)
    ensures if ts.Begin? then Items(ts) == [] && LeftAfter(ts, Some(item)) == []
            else && Items(ts) != [] && Items(ts)[|Items(ts)| - 1] == ts.item
                 && |LeftAfter(ts, Some(item))| == Common(Chain(ts.item), Chain(item))
  {
  }

  lemma FirstItems(items: seq<Node>, i: nat)
    requires i < |items|
    ensures items[..i] + [items[i]] == items[..i + 1]
  {
  }

  lemma SetUpsSnoc(items: seq<Node>, item: Node)
    ensures SetUps(items + [item]) ==
      if items == [] then Chain(item)
      else SetUps(items) + Chain(item)[Common(Chain(items[|items| - 1]), Chain(item))..]
  {
    assert (items + [item])[..|items|] == items;
  }

  lemma {:induction false} CommonOfCommon(a: seq<Node>, b: seq<Node>)
    ensures Common(a[..Common(a, b)], b) == Common(a, b)
  {
    if a != [] && b != [] && a[0] == b[0] {
      CommonOfCommon(a[1..], b[1..]);
      assert a[..Common(a, b)][1..] == a[1..][..Common(a[1..], b[1..])];
    }
  }

  lemma WholeChain(chain: seq<Node>)
    ensures chain[..|chain|] == chain
  {
  }

  lemma NextOfChain(before: seq<Node>, chain: seq<Node>, from: nat, k: nat)
    requires from <= k < |chain|
    ensures before + chain[from..k] + [chain[k]] == before + chain[from..k + 1]
    ensures chain[..k] + [chain[k]] == chain[..k + 1]
  {
  }

  /** The records after a setup of the node on top that raised this, if anything. */
  function Recording(pe: map<Node, nat>, stack: seq<Node>, exc: Option<nat>): map<Node, nat> {
    if exc.Some? && stack != [] then pe[stack[|stack| - 1] := exc.value] else pe
  }

  /** What `prepare` raises: what a setup raised before, or what one raises now. */
  datatype Prepared = Passed | RaisedAgain(exc: nat) | Raised(exc: nat) {
    function Again(): Option<nat> {
      if RaisedAgain? then Some(exc) else None
    }

    function Now(): Option<nat> {
      if Raised? then Some(exc) else None
    }
  }

  /** The `_prepare_exc` of the first node that has one. */
  function FirstFailure(stack: seq<Node>, pe: map<Node, nat>): Option<nat> {
    if stack == [] then None
    else if stack[0] in pe then Some(pe[stack[0]])
    else FirstFailure(stack[1..], pe)
  }

  lemma {:induction false} FirstFailureIff(stack: seq<Node>, pe: map<Node, nat>)
    ensures FirstFailure(stack, pe).Some? <==> exists i :: 0 <= i < |stack| && stack[i] in pe
    ensures FirstFailure(stack, pe).Some? ==>
              exists i :: && 0 <= i < |stack| && stack[i] in pe && FirstFailure(stack, pe) == Some(pe[stack[i]])
                          && forall j :: 0 <= j < i ==> stack[j] !in pe
  {
    if stack != [] && stack[0] !in pe {
      FirstFailureIff(stack[1..], pe);
      assert forall i :: 0 < i < |stack| ==> stack[i] == stack[1..][i - 1];
    }
  }

  /** `nextitem and nextitem.listchain() or []`. */
  function ChainOf(n: Option<Node>): seq<Node> {
    if n.Some? then Chain(n.value) else []
  }

  /** `listchain`. */
  method ListChain(n: Node) returns (chain: seq<Node>)
    ensures chain == Chain(n)
  {
    chain := [];
    var item := Some(n);
    while item.Some?
      invariant Chain(n) == ChainOf(item) + Reversed(chain)
      decreases item
    {
      ReversedGrows(ChainOf(item.value.parent), item.value, chain);
      chain := chain + [item.value];
      item := item.value.parent;
    }
    chain := Reversed(chain);
  }

  lemma ReversedGrows(s: seq<Node>, x: Node, chain: seq<Node>)
    ensures s + [x] + Reversed(chain) == s + Reversed(chain + [x])
  {
  }

  lemma NewNode(stack: seq<Node>, n: Node)
    requires IsChain(stack) && n.parent == Before(stack, |stack|)
    ensures n !in stack && IsChain(stack + [n])
  {
    var s := stack + [n];
    forall i | 0 <= i < |s|
      ensures s[i].parent == Before(s, i)
    {
      assert i < |stack| ==> s[i].parent == Before(stack, i);
    }
    ChainDistinct(s);
    forall i | 0 <= i < |stack|
      ensures stack[i] != n
    {
      assert s[i] != s[|stack|];
    }
  }
}
