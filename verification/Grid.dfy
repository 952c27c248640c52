/** Rows of N cells laid end to end, and a run of live cells in them. */
module Grids {
  import opened Wrappers

  const N: nat := 30

  type Tape<+T> = seq<Option<T>>

  type Row<+T> = t: Tape<T> | |t| == N witness seq(N, _ => None)

  type Grid<+T> = seq<Row<T>>

  /** A tape of `n` cells holding `s` from position `lo` on and nothing elsewhere. */
  ghost function Layout<T>(lo: int, s: seq<T>, n: int): (t: Tape<T>)
    requires 0 <= lo && lo + |s| <= n
    ensures |t| == n
    ensures forall p :: 0 <= p < n ==> t[p] == if lo <= p < lo + |s| then Some(s[p - lo]) else None
  {
    seq(n, p requires 0 <= p < n => if lo <= p < lo + |s| then Some(s[p - lo]) else None)
  }

  ghost function Flat<T>(g: Grid<T>): (t: Tape<T>)
    ensures |t| == N * |g|
  {
    if g == [] then [] else g[0] + Flat(g[1..])
  }

  function Set<T>(g: Grid<T>, i: int, j: int, c: Option<T>): Grid<T>
    requires 0 <= i < |g| && 0 <= j < N
  {
    g[i := g[i][j := c]]
  }

  lemma {:induction false} FlatSnoc<T>(g: Grid<T>, row: Row<T>)
    ensures Flat(g + [row]) == Flat(g) + row
  {
    if g != [] {
      assert (g + [row])[1..] == g[1..] + [row];
      FlatSnoc(g[1..], row);
    }
  }

  lemma {:induction false} FlatAt<T>(g: Grid<T>, i: int, j: int)
    requires 0 <= i < |g| && 0 <= j < N
    ensures 0 <= N * i + j < N * |g|
    ensures Flat(g)[N * i + j] == g[i][j]
  {
    if i > 0 {
      FlatAt(g[1..], i - 1, j);
    }
  }

  lemma {:induction false} FlatSet<T>(g: Grid<T>, i: int, j: int, c: Option<T>)
    requires 0 <= i < |g| && 0 <= j < N
    ensures 0 <= N * i + j < N * |g|
    ensures Flat(Set(g, i, j, c)) == Flat(g)[N * i + j := c]
  {
    if i > 0 {
      assert Set(g, i, j, c)[1..] == Set(g[1..], i - 1, j, c);
      FlatSet(g[1..], i - 1, j, c);
    }
  }

  /** The rows `g` hold `s` from position `lo` on, and nothing else. */
  ghost predicate Holds<T>(g: Grid<T>, lo: int, s: seq<T>) {
    0 <= lo && lo + |s| <= N * |g| && Flat(g) == Layout(lo, s, N * |g|)
  }

  lemma HoldsNothing<T>(lo: int)
    requires 0 <= lo <= N
    ensures Holds<T>([Layout(0, [], N)], lo, [])
  {
    assert Layout<T>(0, [], N) == Layout<T>(lo, [], N);
  }

  lemma HoldsGrowRight<T>(g: Grid<T>, lo: int, s: seq<T>)
    requires Holds(g, lo, s)
    ensures Holds(g + [Layout(0, [], N)], lo, s)
  {
    FlatSnoc(g, Layout(0, [], N));
  }

  lemma HoldsGrowLeft<T>(g: Grid<T>, lo: int, s: seq<T>)
    requires Holds(g, lo, s)
    ensures Holds([Layout(0, [], N)] + g, lo + N, s)
  {
    assert ([Layout(0, [], N)] + g)[1..] == g;
  }

  lemma HoldsShrinkLeft<T>(g: Grid<T>, lo: int, s: seq<T>)
    requires Holds(g, lo, s) && 0 < |g| && N <= lo
    ensures Holds(g[1..], lo - N, s)
  {
    assert Flat(g[1..]) == Flat(g)[N..];
  }

  lemma HoldsShrinkRight<T>(g: Grid<T>, lo: int, s: seq<T>)
    requires Holds(g, lo, s) && 0 < |g| && lo + |s| <= N * (|g| - 1)
    ensures Holds(g[..|g| - 1], lo, s)
  {
    var g' := g[..|g| - 1];
    assert g == g' + [g[|g| - 1]];
    FlatSnoc(g', g[|g| - 1]);
    assert Flat(g') == Flat(g)[..N * |g'|];
  }

  lemma HoldsPutLast<T>(g: Grid<T>, lo: int, s: seq<T>, i: int, j: int, x: T)
    requires Holds(g, lo, s) && 0 <= i < |g| && 0 <= j < N && N * i + j == lo + |s|
    ensures Holds(Set(g, i, j, Some(x)), lo, s + [x])
  {
    FlatSet(g, i, j, Some(x));
  }

  lemma HoldsPutFirst<T>(g: Grid<T>, lo: int, s: seq<T>, i: int, j: int, x: T)
    requires Holds(g, lo, s) && 0 <= i < |g| && 0 <= j < N && N * i + j == lo - 1
    ensures Holds(Set(g, i, j, Some(x)), lo - 1, [x] + s)
  {
    FlatSet(g, i, j, Some(x));
  }

  lemma HoldsTakeFirst<T>(g: Grid<T>, lo: int, s: seq<T>, i: int, j: int)
    requires Holds(g, lo, s) && s != [] && 0 <= i < |g| && 0 <= j < N && N * i + j == lo
    ensures g[i][j] == Some(s[0])
    ensures Holds(Set(g, i, j, None), lo + 1, s[1..])
  {
    FlatAt(g, i, j);
    FlatSet(g, i, j, None);
  }

  lemma HoldsTakeLast<T>(g: Grid<T>, lo: int, s: seq<T>, i: int, j: int)
    requires Holds(g, lo, s) && s != [] && 0 <= i < |g| && 0 <= j < N && N * i + j == lo + |s| - 1
    ensures g[i][j] == Some(s[|s| - 1])
    ensures Holds(Set(g, i, j, None), lo, s[..|s| - 1])
  {
    FlatAt(g, i, j);
    FlatSet(g, i, j, None);
  }

  lemma HoldsPut<T>(g: Grid<T>, lo: int, s: seq<T>, i: int, j: int, x: T)
    requires Holds(g, lo, s) && 0 <= i < |g| && 0 <= j < N && lo <= N * i + j < lo + |s|
    ensures g[i][j] == Some(s[N * i + j - lo])
    ensures Holds(Set(g, i, j, Some(x)), lo, s[N * i + j - lo := x])
  {
    FlatAt(g, i, j);
    FlatSet(g, i, j, Some(x));
  }

  lemma HoldsAt<T>(g: Grid<T>, lo: int, s: seq<T>, i: int, j: int)
    requires Holds(g, lo, s) && 0 <= i < |g| && 0 <= j < N && lo <= N * i + j < lo + |s|
    ensures g[i][j] == Some(s[N * i + j - lo])
  {
    FlatAt(g, i, j);
  }

  /** An empty run can be put anywhere. */
  lemma HoldsRecentre<T>(g: Grid<T>, lo: int, lo': int)
    requires Holds<T>(g, lo, []) && 0 <= lo' <= N * |g|
    ensures Holds<T>(g, lo', [])
  {
  }
}
