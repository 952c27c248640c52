/**
  * The nodes of a test collection and the discipline of setting them up and tearing them down, as a
  * machine that reads a log. It knows nothing of how _pytest/runner.py keeps to it.
  */
module SetupLog {
  import opened Wrappers

  /** A node is equal to another one if class, name and parents are, as `Node.__eq__` has it. */
  datatype Node = Node(cls: nat, name: nat, parent: Option<Node>)

  /** `listchain`: all parents of a node, from the root, and the node. */
  function Chain(n: Node): (r: seq<Node>)
    ensures |r| > 0 && r[|r| - 1] == n
  {
    match n.parent
    case None => [n]
    case Some(p) => Chain(p) + [n]
  }

  /** From a root down, each node a child of the one before. */
  predicate IsChain(s: seq<Node>) {
    forall i {:trigger Before(s, i)} :: 0 <= i < |s| ==> s[i].parent == Before(s, i)
  }

  function Before(s: seq<Node>, i: nat): Option<Node>
    requires i <= |s|
  {
    if i == 0 then None else Some(s[i - 1])
  }

  lemma {:induction false} ChainIsChain(n: Node)
    ensures IsChain(Chain(n))
  {
    if n.parent.Some? {
      ChainIsChain(n.parent.value);
      forall i | 0 <= i < |Chain(n)|
        ensures Chain(n)[i].parent == Before(Chain(n), i)
      {
        if i < |Chain(n)| - 1 {
          assert Chain(n)[i] == Chain(n.parent.value)[i];
          assert Chain(n.parent.value)[i].parent == Before(Chain(n.parent.value), i);
        }
      }
    }
  }

  lemma {:induction false} ChainDepth(s: seq<Node>, i: nat)
    requires IsChain(s) && i < |s|
    ensures |Chain(s[i])| == i + 1
  {
    assert s[i].parent == Before(s, i);
    if i > 0 {
      ChainDepth(s, i - 1);
    }
  }

  lemma ChainDistinct(s: seq<Node>)
    requires IsChain(s)
    ensures forall i, j :: 0 <= i < j < |s| ==> s[i] != s[j]
  {
    forall i, j | 0 <= i < j < |s|
      ensures s[i] != s[j]
    {
      ChainDepth(s, i);
      ChainDepth(s, j);
    }
  }

  /** The length of the longest common prefix. */
  function Common(a: seq<Node>, b: seq<Node>): (k: nat)
    ensures k <= |a| && k <= |b|
  {
    if a == [] || b == [] || a[0] != b[0] then 0 else 1 + Common(a[1..], b[1..])
  }

  lemma {:induction false} CommonIff(a: seq<Node>, b: seq<Node>, i: nat)
    requires i <= |a|
    ensures a[..i] <= b <==> i <= Common(a, b)
  {
    if i > 0 && b != [] {
      if a[0] == b[0] {
        CommonIff(a[1..], b[1..], i - 1);
        assert a[..i] == [a[0]] + a[1..][..i - 1] && b == [b[0]] + b[1..];
      } else {
        assert a[..i][0] != b[0];
      }
    }
  }

  // The machine.

  /** `at` is the node that a finalizer is attached to, or None. */
  datatype Event =
    | Started(n: Node)
    | Failed(n: Node)
    | Called(n: Node)
    | Registered(at: Option<Node>, fin: nat)
    | Finalized(at: Option<Node>, fin: nat)
    | TornDown(n: Node)

  /** A node that is set up, the finalizers attached to it that have not run, and whether its setup raised. */
  datatype Frame = Frame(node: Node, fins: seq<nat>, failed: bool)

  datatype Machine = Machine(frames: seq<Frame>, base: seq<nat>)

  function Top(m: Machine): Option<Node> {
    if m.frames == [] then None else Some(m.frames[|m.frames| - 1].node)
  }

  predicate NoneFailed(m: Machine) {
    forall i :: 0 <= i < |m.frames| ==> !m.frames[i].failed
  }

  /** The finalizer goes to the topmost frame of the node. */
  function Attach(frames: seq<Frame>, n: Node, fin: nat): (r: seq<Frame>)
    ensures |r| == |frames|
  {
    if frames == [] then []
    else
      var (rest, f) := (frames[..|frames| - 1], frames[|frames| - 1]);
      if f.node == n then rest + [f.(fins := f.fins + [fin])] else Attach(rest, n, fin) + [f]
  }

  lemma {:induction false} AttachFailed(frames: seq<Frame>, n: Node, fin: nat)
    ensures forall i :: 0 <= i < |frames| ==> Attach(frames, n, fin)[i].failed == frames[i].failed
  {
    if frames != [] {
      AttachFailed(frames[..|frames| - 1], n, fin);
    }
  }

  lemma {:induction false} AttachAt(frames: seq<Frame>, i: nat, fin: nat)
    requires i < |frames| && forall j :: i < j < |frames| ==> frames[j].node != frames[i].node
    ensures Attach(frames, frames[i].node, fin) == frames[i := frames[i].(fins := frames[i].fins + [fin])]
  {
    if i < |frames| - 1 {
      AttachAt(frames[..|frames| - 1], i, fin);
    }
  }

  /**
    * What may come next: if the setup of no node that is up has failed, the setup of a child of the node on
    * top or the call of the node on top; the failure of its setup; a finalizer for a node that is set up; of
    * the node on top, the last finalizer attached; and, after all of them, its teardown. The finalizers
    * attached to no node run when no node is set up.
    */
  function Advance(m: Machine, e: Event): Option<Machine> {
    var k := |m.frames|;
    match e
    case Started(n) =>
      if n.parent == Top(m) && NoneFailed(m) then Some(m.(frames := m.frames + [Frame(n, [], false)])) else None
    case Failed(n) =>
      if Top(m) == Some(n) then Some(m.(frames := m.frames[k - 1 := m.frames[k - 1].(failed := true)])) else None
    case Called(n) =>
      if Top(m) == Some(n) && NoneFailed(m) then Some(m) else None
    case Registered(None, fin) => Some(m.(base := m.base + [fin]))
    case Registered(Some(n), fin) =>
      if exists i :: 0 <= i < k && m.frames[i].node == n then Some(m.(frames := Attach(m.frames, n, fin))) else None
    case Finalized(None, fin) =>
      if k == 0 && m.base != [] && m.base[|m.base| - 1] == fin then Some(m.(base := m.base[..|m.base| - 1])) else None
    case Finalized(Some(n), fin) =>
      if Top(m) != Some(n) then None
      else
        var fins := m.frames[k - 1].fins;
        if fins == [] || fins[|fins| - 1] != fin then None
        else Some(m.(frames := m.frames[k - 1 := m.frames[k - 1].(fins := fins[..|fins| - 1])]))
    case TornDown(n) =>
      if Top(m) == Some(n) && m.frames[k - 1].fins == [] then Some(m.(frames := m.frames[..k - 1])) else None
  }

  const EMPTY: Machine := Machine([], [])

  /** The machine after a log, if the log keeps to the discipline. */
  function Replay(log: seq<Event>): Option<Machine> {
    if log == [] then Some(EMPTY)
    else
      match Replay(log[..|log| - 1])
      case None => None
      case Some(m) => Advance(m, log[|log| - 1])
  }

  lemma ReplayNext(log: seq<Event>, e: Event)
    ensures Replay(log).Some? ==> Replay(log + [e]) == Advance(Replay(log).value, e)
  {
    assert (log + [e])[..|log|] == log;
  }

  /** The nodes whose setup was started, in order. */
  function Starts(log: seq<Event>): seq<Node> {
    if log == [] then []
    else
      var e := log[|log| - 1];
      if e.Started? then Starts(log[..|log| - 1]) + [e.n] else Starts(log[..|log| - 1])
  }

  lemma StartsNext(log: seq<Event>, e: Event)
    ensures Starts(log + [e]) == if e.Started? then Starts(log) + [e.n] else Starts(log)
  {
    assert (log + [e])[..|log|] == log;
  }

  /** The nodes whose setup ever raised. */
  function Failures(log: seq<Event>): set<Node> {
    if log == [] then {}
    else
      var e := log[|log| - 1];
      Failures(log[..|log| - 1]) + if e.Failed? then {e.n} else {}
  }

  lemma {:induction false} FailuresIff(log: seq<Event>, n: Node)
    ensures n in Failures(log) <==> Failed(n) in log
  {
    if log != [] {
      FailuresIff(log[..|log| - 1], n);
      assert log == log[..|log| - 1] + [log[|log| - 1]];
    }
  }

  lemma FailuresNext(log: seq<Event>, e: Event)
    ensures Failures(log + [e]) == Failures(log) + if e.Failed? then {e.n} else {}
  {
    assert (log + [e])[..|log|] == log;
  }

  /** The items that were called, in order. */
  function Calls(log: seq<Event>): seq<Node> {
    if log == [] then []
    else
      var e := log[|log| - 1];
      if e.Called? then Calls(log[..|log| - 1]) + [e.n] else Calls(log[..|log| - 1])
  }

  lemma CallsNext(log: seq<Event>, e: Event)
    ensures Calls(log + [e]) == if e.Called? then Calls(log) + [e.n] else Calls(log)
  {
    assert (log + [e])[..|log|] == log;
  }

  /** The finalizers that were registered, in order. */
  function Registers(log: seq<Event>): seq<nat> {
    if log == [] then []
    else
      var e := log[|log| - 1];
      if e.Registered? then Registers(log[..|log| - 1]) + [e.fin] else Registers(log[..|log| - 1])
  }

  lemma RegistersNext(log: seq<Event>, e: Event)
    ensures Registers(log + [e]) == if e.Registered? then Registers(log) + [e.fin] else Registers(log)
  {
    assert (log + [e])[..|log|] == log;
  }

  /** What a log shows: what was set up, what failed, what was called and what was registered. */
  datatype Seen = Seen(starts: seq<Node>, failures: set<Node>, calls: seq<Node>, fins: seq<nat>)

  function Sees(log: seq<Event>): Seen {
    Seen(Starts(log), Failures(log), Calls(log), Registers(log))
  }

  function See(x: Seen, e: Event): Seen {
    match e
    case Started(n) => x.(starts := x.starts + [n])
    case Failed(n) => x.(failures := x.failures + {n})
    case Called(n) => x.(calls := x.calls + [n])
    case Registered(_, fin) => x.(fins := x.fins + [fin])
    case _ => x
  }

  lemma SeesNext(log: seq<Event>, e: Event)
    ensures Sees(log + [e]) == See(Sees(log), e)
  {
    StartsNext(log, e);
    FailuresNext(log, e);
    CallsNext(log, e);
    RegistersNext(log, e);
  }

  // What the discipline comes to.

  /** How often a finalizer is attached to a node and has not run. */
  function Attached(frames: seq<Frame>, n: Node, fin: nat): nat {
    if frames == [] then 0
    else
      var (rest, f) := (frames[..|frames| - 1], frames[|frames| - 1]);
      Attached(rest, n, fin) + if f.node == n then multiset(f.fins)[fin] else 0
  }

  function Pending(m: Machine, at: Option<Node>, fin: nat): nat {
    match at
    case None => multiset(m.base)[fin]
    case Some(n) => Attached(m.frames, n, fin)
  }

  function Change(e: Event, at: Option<Node>, fin: nat): int {
    if e == Registered(at, fin) then 1 else if e == Finalized(at, fin) then -1 else 0
  }

  lemma {:induction false} AttachCounts(frames: seq<Frame>, n: Node, fin: nat, n2: Node, fin2: nat)
    requires exists i :: 0 <= i < |frames| && frames[i].node == n
    ensures Attached(Attach(frames, n, fin), n2, fin2)
         == Attached(frames, n2, fin2) + if n == n2 && fin == fin2 then 1 else 0
  {
    var k := |frames| - 1;
    var rest, f := frames[..k], frames[k];
    if f.node == n {
      var g := f.(fins := f.fins + [fin]);
      assert (rest + [g])[..k] == rest;
    } else {
      var i :| 0 <= i < |frames| && frames[i].node == n;
      assert rest[i].node == n;
      AttachCounts(rest, n, fin, n2, fin2);
      assert (Attach(rest, n, fin) + [f])[..k] == Attach(rest, n, fin);
    }
  }

  lemma LastOut(s: seq<nat>, x: nat)
    requires s != []
    ensures multiset(s)[x] == multiset(s[..|s| - 1])[x] + if s[|s| - 1] == x then 1 else 0
  {
    assert s == s[..|s| - 1] + [s[|s| - 1]];
  }

  lemma AdvanceCounts(m: Machine, e: Event, at: Option<Node>, fin: nat)
    requires Advance(m, e).Some?
    ensures Pending(Advance(m, e).value, at, fin) == Pending(m, at, fin) + Change(e, at, fin)
  {
    var m', k := Advance(m, e).value, |m.frames|;
    match e
    case Started(n) => assert m'.frames[..k] == m.frames;
    case Failed(n) => assert m'.frames[..k - 1] == m.frames[..k - 1];
    case Called(n) =>
    case Registered(_, _) => RegisteredCounts(m, e, at, fin);
    case Finalized(_, _) => FinalizedCounts(m, e, at, fin);
    case TornDown(n) =>
  }

  lemma RegisteredCounts(m: Machine, e: Event, at: Option<Node>, fin: nat)
    requires e.Registered? && Advance(m, e).Some?
    ensures Pending(Advance(m, e).value, at, fin) == Pending(m, at, fin) + Change(e, at, fin)
  {
    match e.at
    case None => assert multiset(m.base + [e.fin]) == multiset(m.base) + multiset{e.fin};
    case Some(n) =>
      if at.Some? {
        AttachCounts(m.frames, n, e.fin, at.value, fin);
      }
  }

  lemma FinalizedCounts(m: Machine, e: Event, at: Option<Node>, fin: nat)
    requires e.Finalized? && Advance(m, e).Some?
    ensures Pending(Advance(m, e).value, at, fin) == Pending(m, at, fin) + Change(e, at, fin)
  {
    match e.at
    case None => LastOut(m.base, fin);
    case Some(n) =>
      var m', k := Advance(m, e).value, |m.frames|;
      assert m'.frames[..k - 1] == m.frames[..k - 1];
      LastOut(m.frames[k - 1].fins, fin);
  }

  /** At any time, a finalizer has run as often as it was registered, but for those that are attached. */
  lemma {:induction false} FinalizersAccounted(log: seq<Event>, at: Option<Node>, fin: nat)
    requires Replay(log).Some?
    ensures multiset(log)[Registered(at, fin)]
         == multiset(log)[Finalized(at, fin)] + Pending(Replay(log).value, at, fin)
  {
    if log != [] {
      var rest, e := log[..|log| - 1], log[|log| - 1];
      FinalizersAccounted(rest, at, fin);
      AdvanceCounts(Replay(rest).value, e, at, fin);
      assert log == rest + [e];
    }
  }

  /** After a run that ends with nothing set up, each finalizer has run once for each registration. */
  lemma EachFinalizerRanOnce(log: seq<Event>, at: Option<Node>, fin: nat)
    requires Replay(log) == Some(EMPTY)
    ensures multiset(log)[Registered(at, fin)] == multiset(log)[Finalized(at, fin)]
  {
    FinalizersAccounted(log, at, fin);
  }
}
