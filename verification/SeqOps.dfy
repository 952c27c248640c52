/** Sequence operations the deque is specified by, and their laws. */
module SeqOps {
  import opened Arithmetic

  /** The residue of `a` modulo `n`, reached by adding or taking away `n`. */
  function Residue(a: int, n: int): (r: int)
    requires 0 < n
    ensures 0 <= r < n
    decreases if a < 0 then n - a else a
  {
    if a < 0 then Residue(a + n, n) else if a >= n then Residue(a - n, n) else a
  }

  /** `s` rotated `k` steps to the right; the shift is taken modulo the length. */
  function Rotated<T>(s: seq<T>, k: int): (r: seq<T>)
    ensures |r| == |s|
  {
    if s == [] then [] else RotL(s, Residue(-k, |s|))
  }

  /** `s` with its first `i` elements moved behind the others. */
  function RotL<T>(s: seq<T>, i: int): (r: seq<T>)
    requires 0 <= i <= |s|
    ensures |r| == |s|
  {
    s[i..] + s[..i]
  }

  function Reversed<T>(s: seq<T>): (r: seq<T>)
    ensures |r| == |s|
    ensures forall i :: 0 <= i < |s| ==> r[i] == s[|s| - 1 - i]
  {
    seq(|s|, i requires 0 <= i < |s| => s[|s| - 1 - i])
  }

  /** The last `m` elements of `s`. */
  function LastN<T>(s: seq<T>, m: nat): seq<T> {
    if |s| <= m then s else s[|s| - m..]
  }

  /** The first `m` elements of `s`. */
  function FirstN<T>(s: seq<T>, m: nat): seq<T> {
    if |s| <= m then s else s[..m]
  }

  function Without<T>(s: seq<T>, i: nat): seq<T>
    requires i < |s|
  {
    s[..i] + s[i + 1..]
  }

  /** One pop and appendleft. */
  lemma RotLBack<T>(s: seq<T>, i: int)
    requires 0 < i <= |s|
    ensures [RotL(s, i)[|s| - 1]] + RotL(s, i)[..|s| - 1] == RotL(s, i - 1)
  {
  }

  /** One popleft and append. */
  lemma RotLOn<T>(s: seq<T>, i: int)
    requires 0 <= i < |s|
    ensures RotL(s, i)[1..] + [RotL(s, i)[0]] == RotL(s, i + 1)
  {
  }

  lemma ResidueNear(a: int, n: int)
    requires 0 < n && -n <= a <= n
    ensures Residue(a, n) == if a < 0 then a + n else if a == n then 0 else a
  {
  }

  /** A rotation by at most the length, either way, as a cut of `s`. */
  lemma RotatedNear<T>(s: seq<T>, k: int)
    requires s != [] && -|s| <= k <= |s|
    ensures Rotated(s, k) == RotL(s, if k > 0 then |s| - k else -k)
  {
    assert RotL(s, |s|) == RotL(s, 0);
    ResidueNear(-k, |s|);
  }

  /** `s` with its outermost `i` pairs exchanged. */
  ghost function Flipped<T>(s: seq<T>, i: int): (r: seq<T>)
    requires 0 <= i && 2 * i <= |s|
    ensures |r| == |s|
  {
    seq(|s|, p requires 0 <= p < |s| => if i <= p < |s| - i then s[p] else s[|s| - 1 - p])
  }

  lemma FlippedStep<T>(s: seq<T>, i: int, j: int)
    requires 0 <= i < j && i + j == |s| - 1
    ensures var t := Flipped(s, i);
      t[i := t[j]][j := t[i]] == Flipped(s, i + 1)
  {
  }

  lemma FlippedHalf<T>(s: seq<T>)
    ensures Flipped(s, |s| / 2) == Reversed(s)
  {
  }

  lemma SliceSnoc<T>(s: seq<T>, a: int, b: int)
    requires 0 <= a <= b < |s|
    ensures s[a..b] + [s[b]] == s[a..b + 1]
  {
  }

  lemma ReversedNil<T>(xs: seq<T>, s: seq<T>)
    ensures Reversed(xs[..0]) + s == s
  {
  }

  lemma ReversedCons<T>(s: seq<T>, n: int, m: int)
    requires 0 <= m <= n <= |s|
    ensures Reversed(s[n..]) + Reversed(s[n - m..n]) == Reversed(s[n - m..])
  {
  }

  function Size(n: int): int {
    if n > 0 then n else -n
  }

  /** The shift that `rotate` settles for: `k` if short, else its residue nearest to 0. */
  function ShortShift(k: int, n: int): (r: int)
    requires 0 < n
    ensures Size(r) <= (n + 1) / 2
  {
    if -((n + 1) / 2) <= k <= (n + 1) / 2 then k
    else if k % n > (n + 1) / 2 then k % n - n
    else k % n
  }

  /** The shorter shift rotates like the one asked for. */
  lemma ShortWay<T>(s: seq<T>, k: int)
    requires s != []
    ensures ShortShift(k, |s|) > 0 ==> Rotated(s, k) == RotL(s, |s| - ShortShift(k, |s|))
    ensures ShortShift(k, |s|) <= 0 ==> Rotated(s, k) == RotL(s, -ShortShift(k, |s|))
  {
    ShortShiftResidue(k, |s|);
    RotatedNear(s, ShortShift(k, |s|));
  }

  lemma ShortShiftResidue(k: int, n: int)
    requires 0 < n
    ensures Residue(-ShortShift(k, n), n) == Residue(-k, n)
  {
    ResidueMod(-k, n);
    ResidueMod(-ShortShift(k, n), n);
    if ShortShift(k, n) == k % n {
      NegatedMod(k, n, 0);
    } else if ShortShift(k, n) == k % n - n {
      NegatedMod(k, n, 1);
    }
  }

  lemma {:induction false} ResidueMod(a: int, n: int)
    requires 0 < n
    ensures Residue(a, n) == a % n
    decreases if a < 0 then n - a else a
  {
    if a < 0 {
      ResidueMod(a + n, n);
      ModUnique(a, n, (a + n) / n - 1, (a + n) % n);
    } else if a >= n {
      ResidueMod(a - n, n);
      ModUnique(a, n, (a - n) / n + 1, (a - n) % n);
    } else {
      ModUnique(a, n, 0, a);
    }
  }

  lemma NegatedMod(k: int, n: int, q: int)
    requires 0 < n
    ensures (q * n - k % n) % n == (-k) % n
  {
    var a, b := k / n, (-k) / n;
    assert (q + a + b) * n == q * n + a * n + b * n;
    ModUnique(q * n - k % n, n, q + a + b, (-k) % n);
  }

  /** Rotating element `i` to the front, dropping it and rotating back removes it. */
  lemma DeleteByRotation<T>(s: seq<T>, i: int)
    requires 0 <= i < |s|
    ensures Rotated(Rotated(s, -i)[1..], i) == Without(s, i)
  {
    RotatedNear(s, -i);
    var t := Rotated(s, -i)[1..];
    assert t == s[i + 1..] + s[..i];
    if t != [] {
      RotatedNear(t, i);
    }
  }

  /** The same at the other end, for the element `j` places from the last. */
  lemma DeleteByRotationRight<T>(s: seq<T>, j: int)
    requires 0 <= j < |s|
    ensures Rotated(Rotated(s, j)[..|s| - 1], -j) == Without(s, |s| - 1 - j)
  {
    RotatedNear(s, j);
    var t := Rotated(s, j)[..|s| - 1];
    assert t == s[|s| - j..] + s[..|s| - 1 - j];
    if t != [] {
      RotatedNear(t, -j);
    }
  }

  /** Dropping the surplus after every append keeps what dropping it at the end would. */
  lemma LastNStep<T>(s: seq<T>, m: nat, x: T)
    ensures LastN(LastN(s, m) + [x], m) == LastN(s + [x], m)
  {
  }

  lemma FirstNStep<T>(s: seq<T>, m: nat, x: T)
    ensures FirstN([x] + FirstN(s, m), m) == FirstN([x] + s, m)
  {
  }

  /** A rotation by `k` moves the element at `i` to `i + k`, modulo the length. */
  lemma RotatedAt<T>(s: seq<T>, k: int, i: nat)
    requires i < |s|
    ensures Rotated(s, k)[(i + k) % |s|] == s[i]
  {
    var n, j := |s|, Residue(-k, |s|);
    var x := (i + k) % n;
    ResidueMod(-k, n);
    TurnedBack(i, k, x, j, n);
    assert Rotated(s, k)[x] == if x + j < n then s[x + j] else s[x + j - n];
  }

  lemma TurnedBack(i: nat, k: int, x: int, j: int, n: nat)
    requires i < n && x == (i + k) % n && j == -k % n
    ensures x + j == i || x + j == i + n
  {
    var a, b := (i + k) / n, -k / n;
    assert i + k == a * n + x && -k == b * n + j;
    assert x + j == i + (-(a + b)) * n;
    if a + b >= 1 {
      MulAtLeast(a + b, n);
    } else if a + b <= -2 {
      MulAtLeast(-(a + b) - 1, n);
    }
  }
}
