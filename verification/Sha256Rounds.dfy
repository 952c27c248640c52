/**
  * The unrolled rounds of lib_pypy/_sha256.py. Instead of moving eight registers along in every
  * round, the code leaves them in the list `ss` and renames them; both forms are the same for any
  * round function, so this module does not say what a round computes.
  */
module Sha256Rounds {
  datatype Registers<W> = Registers(a: W, b: W, c: W, d: W, e: W, f: W, g: W, h: W)

  /** What a round computes from the registers, its constant and its word: the new `d` and `h`. */
  type Rnd<!W> = (Registers<W>, W, W) -> (W, W)

  /** One round of the shift-register loop. */
  function Shift<W>(rnd: Rnd<W>, v: Registers<W>, k: W, w: W): Registers<W> {
    var (d, h) := rnd(v, k, w);
    Registers(h, v.a, v.b, v.c, d, v.e, v.f, v.g)
  }

  /** The registers after the first `t` rounds of the loop. */
  function After<W>(rnd: Rnd<W>, v: Registers<W>, ks: seq<W>, ws: seq<W>, t: nat): Registers<W>
    requires t <= |ks| && t <= |ws|
  {
    if t == 0 then v else Shift(rnd, After(rnd, v, ks, ws, t - 1), ks[t - 1], ws[t - 1])
  }

  /** The registers as `j` rounds after the last full turn find them in the list. */
  function View<W>(ss: seq<W>, j: nat): Registers<W>
    requires |ss| == 8 && j < 8
  {
    Registers(ss[(8 - j) % 8], ss[(9 - j) % 8], ss[(10 - j) % 8], ss[(11 - j) % 8],
              ss[(12 - j) % 8], ss[(13 - j) % 8], ss[(14 - j) % 8], ss[(15 - j) % 8])
  }

  function Assign<W>(ss: seq<W>, i: nat, j: nat, values: (W, W)): (r: seq<W>)
    requires |ss| == 8 && i < 8 && j < 8
    ensures |r| == 8
  {
    ss[i := values.0][j := values.1]
  }

  /** Eight lines of the unrolled code, after which the registers have their first names again. */
  method EightRounds<W>(rnd: Rnd<W>, start: seq<W>, ws: seq<W>, i: nat,
                        k0: W, k1: W, k2: W, k3: W, k4: W, k5: W, k6: W, k7: W,
                        ghost v: Registers<W>, ghost ks: seq<W>)
    returns (ss: seq<W>)
    requires |start| == 8 && i + 8 <= |ws| && i + 8 <= |ks|
    requires ks[i] == k0 && ks[i + 1] == k1 && ks[i + 2] == k2 && ks[i + 3] == k3
    requires ks[i + 4] == k4 && ks[i + 5] == k5 && ks[i + 6] == k6 && ks[i + 7] == k7
    requires View(start, 0) == After(rnd, v, ks, ws, i)
    ensures |ss| == 8 && View(ss, 0) == After(rnd, v, ks, ws, i + 8)
  {
    ss := start;
    ss := Assign(ss, 3, 7, rnd(Registers(ss[0], ss[1], ss[2], ss[3], ss[4], ss[5], ss[6], ss[7]), k0, ws[i]));
    assert View(ss, 1) == After(rnd, v, ks, ws, i + 1);
    ss := Assign(ss, 2, 6, rnd(Registers(ss[7], ss[0], ss[1], ss[2], ss[3], ss[4], ss[5], ss[6]), k1, ws[i + 1]));
    assert View(ss, 2) == After(rnd, v, ks, ws, i + 2);
    ss := Assign(ss, 1, 5, rnd(Registers(ss[6], ss[7], ss[0], ss[1], ss[2], ss[3], ss[4], ss[5]), k2, ws[i + 2]));
    assert View(ss, 3) == After(rnd, v, ks, ws, i + 3);
    ss := Assign(ss, 0, 4, rnd(Registers(ss[5], ss[6], ss[7], ss[0], ss[1], ss[2], ss[3], ss[4]), k3, ws[i + 3]));
    assert View(ss, 4) == After(rnd, v, ks, ws, i + 4);
    ss := Assign(ss, 7, 3, rnd(Registers(ss[4], ss[5], ss[6], ss[7], ss[0], ss[1], ss[2], ss[3]), k4, ws[i + 4]));
    assert View(ss, 5) == After(rnd, v, ks, ws, i + 5);
    ss := Assign(ss, 6, 2, rnd(Registers(ss[3], ss[4], ss[5], ss[6], ss[7], ss[0], ss[1], ss[2]), k5, ws[i + 5]));
    assert View(ss, 6) == After(rnd, v, ks, ws, i + 6);
    ss := Assign(ss, 5, 1, rnd(Registers(ss[2], ss[3], ss[4], ss[5], ss[6], ss[7], ss[0], ss[1]), k6, ws[i + 6]));
    assert View(ss, 7) == After(rnd, v, ks, ws, i + 7);
    ss := Assign(ss, 4, 0, rnd(Registers(ss[1], ss[2], ss[3], ss[4], ss[5], ss[6], ss[7], ss[0]), k7, ws[i + 7]));
    assert View(ss, 0) == After(rnd, v, ks, ws, i + 8);
  }
}
