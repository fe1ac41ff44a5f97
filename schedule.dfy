/** The refresh order of display_matrix: binary code modulation over the
    bit planes, with one clock_row call (a strobe) per row pair. */
module Schedule {
  import opened Bits
  import opened Quantizer

  /** Rows per half of the panel: address j drives rows j and j + 16. */
  const Rows: nat := 16

  /** One clock_row call: plane, row address, and the two rows it reads. */
  datatype Strobe = Strobe(plane: nat, address: nat, top: nat, bottom: nat)

  /** Addresses 0..n-1 of one pass over a plane, row j paired with row j + 16. */
  function Pass(plane: nat, n: nat): (r: seq<Strobe>)
    requires n <= Rows
    ensures |r| == n
  {
    seq(n, (j: nat) => Strobe(plane, j, j, j + Rows))
  }

  /** s, n times over. */
  function Repeat<T>(s: seq<T>, n: nat): seq<T> {
    if n == 0 then [] else Repeat(s, n - 1) + s
  }

  lemma {:induction false} RepeatLength<T>(s: seq<T>, n: nat)
    ensures |Repeat(s, n)| == n * |s|
  {
    if n > 0 {
      RepeatLength(s, n - 1);
    }
  }

  /** Plane z held for its weight: 2^z passes in a row, so strobe k is at
      address k % 16. */
  function Held(z: nat): seq<Strobe> {
    seq(Rows * Pow2(z), (k: nat) => Strobe(z, k % Rows, k % Rows, k % Rows + Rows))
  }

  /** Planes 0..n-1 in order, plane i passed over 1 << i times. */
  function Planes(n: nat): seq<Strobe> {
    if n == 0 then [] else Planes(n - 1) + Held(n - 1)
  }

  /** An index in the block [x * m, x * m + m) sits at offset k - x * m. */
  lemma BlockOffset(k: int, x: nat, m: nat)
    requires m > 0 && x * m <= k < x * m + m
    ensures k % m == k - x * m
  {
    var q, o := k / m, k % m;
    assert k == q * m + o && 0 <= o < m;
    if q < x {
      MulLe(q + 1, x, m);
    } else if q > x {
      MulLe(x + 1, q, m);
    }
  }

  /** x passes over plane z in a row put strobe k at address k % 16. */
  lemma {:induction false} RepeatPass(z: nat, x: nat)
    ensures Repeat(Pass(z, Rows), x) == seq(Rows * x, (k: nat) => Strobe(z, k % Rows, k % Rows, k % Rows + Rows))
  {
    var want := seq(Rows * x, (k: nat) => Strobe(z, k % Rows, k % Rows, k % Rows + Rows));
    if x > 0 {
      RepeatPass(z, x - 1);
      var prev := Repeat(Pass(z, Rows), x - 1);
      var all := Repeat(Pass(z, Rows), x);
      assert all == prev + Pass(z, Rows);
      forall k | 0 <= k < Rows * x
        ensures all[k] == want[k]
      {
        if k >= Rows * (x - 1) {
          BlockOffset(k, x - 1, Rows);
        }
      }
    }
  }

  /** Held(z) is exactly 2^z passes over plane z. */
  lemma HeldRepeats(z: nat)
    ensures Held(z) == Repeat(Pass(z, Rows), Pow2(z))
  {
    RepeatPass(z, Pow2(z));
  }

  /** Every strobe of one display_matrix call. */
  function Sweep(): seq<Strobe> {
    Planes(BitDepth)
  }

  lemma {:induction false} PassAt(plane: nat, n: nat, j: nat)
    requires j < n <= Rows
    ensures Pass(plane, n)[j] == Strobe(plane, j, j, j + Rows)
  {
    if j < n - 1 {
      PassAt(plane, n - 1, j);
    }
  }

  lemma {:induction false} RepeatElements<T>(s: seq<T>, n: nat)
    ensures forall x :: x in Repeat(s, n) ==> x in s
  {
    if n > 0 {
      RepeatElements(s, n - 1);
    }
  }

  /** Every strobe of a pass is on that plane, with an address below 16 and
      the row pair (address, address + 16). */
  lemma PassStrobes(plane: nat)
    ensures forall s :: s in Pass(plane, Rows) ==>
      s.plane == plane && s.address < Rows && s.top == s.address && s.bottom == s.address + Rows
  {
    forall s | s in Pass(plane, Rows)
      ensures s.plane == plane && s.address < Rows && s.top == s.address && s.bottom == s.address + Rows
    {
      var k :| 0 <= k < Rows && Pass(plane, Rows)[k] == s;
      PassAt(plane, Rows, k);
    }
  }

  /** Strobe counts: 16 per pass, 16 * (2^n - 1) for planes 0..n-1. */
  lemma {:induction false} PlanesLength(n: nat)
    ensures |Planes(n)| == Rows * (Pow2(n) - 1)
  {
    if n > 0 {
      PlanesLength(n - 1);
    }
  }

  /** display_matrix makes 16 * (2^5 - 1) = 496 clock_row calls. */
  lemma SweepLength()
    ensures |Sweep()| == 496
  {
    PlanesLength(BitDepth);
  }

  /** Every strobe of planes 0..n-1 is on one of those planes, with an
      address below 16 and the row pair (address, address + 16). */
  lemma {:induction false} PlanesStrobes(n: nat)
    ensures forall s :: s in Planes(n) ==>
      s.plane < n && s.address < Rows && s.top == s.address && s.bottom == s.address + Rows
  {
    if n > 0 {
      PlanesStrobes(n - 1);
      HeldRepeats(n - 1);
      RepeatElements(Pass(n - 1, Rows), Pow2(n - 1));
      PassStrobes(n - 1);
    }
  }

  /** Planes are shown in increasing order. */
  lemma {:induction false} PlanesOrdered(n: nat)
    ensures forall i, j :: 0 <= i < j < |Planes(n)| ==> Planes(n)[i].plane <= Planes(n)[j].plane
  {
    if n > 0 {
      PlanesOrdered(n - 1);
      PlanesStrobes(n - 1);
      var prev := Planes(n - 1);
      var reps := Repeat(Pass(n - 1, Rows), Pow2(n - 1));
      HeldRepeats(n - 1);
      RepeatElements(Pass(n - 1, Rows), Pow2(n - 1));
      PassStrobes(n - 1);
      var all := Planes(n);
      forall i, j | 0 <= i < j < |all| ensures all[i].plane <= all[j].plane {
        if j < |prev| {
          assert all[i] == prev[i] && all[j] == prev[j];
        } else if i < |prev| {
          assert all[i] == prev[i] && all[i] in prev;
          assert all[j] == reps[j - |prev|] && all[j] in reps;
        } else {
          assert all[i] == reps[i - |prev|] && all[i] in reps;
          assert all[j] == reps[j - |prev|] && all[j] in reps;
        }
      }
    }
  }

  /** Strobes of sched on plane z. */
  function PlaneCount(sched: seq<Strobe>, z: nat): nat {
    if sched == [] then 0
    else PlaneCount(sched[..|sched| - 1], z) + (if sched[|sched| - 1].plane == z then 1 else 0)
  }

  /** Strobes of sched that show row y while lit(plane) holds: how many
      refresh slots a pixel of row y is on for, when lit says which of its
      planes hold a 1. */
  function LitCount(sched: seq<Strobe>, y: nat, lit: nat -> bool): nat {
    if sched == [] then 0
    else
      var s := sched[|sched| - 1];
      LitCount(sched[..|sched| - 1], y, lit) + (if (s.top == y || s.bottom == y) && lit(s.plane) then 1 else 0)
  }

  lemma {:induction false} CountAppend(a: seq<Strobe>, b: seq<Strobe>, y: nat, z: nat, lit: nat -> bool)
    ensures PlaneCount(a + b, z) == PlaneCount(a, z) + PlaneCount(b, z)
    ensures LitCount(a + b, y, lit) == LitCount(a, y, lit) + LitCount(b, y, lit)
    decreases |b|
  {
    if b == [] {
      assert a + b == a;
    } else {
      var b' := b[..|b| - 1];
      assert (a + b)[..|a + b| - 1] == a + b';
      assert (a + b)[|a + b| - 1] == b[|b| - 1];
      CountAppend(a, b', y, z, lit);
    }
  }

  lemma {:induction false} CountRepeat(s: seq<Strobe>, n: nat, y: nat, z: nat, lit: nat -> bool)
    ensures PlaneCount(Repeat(s, n), z) == n * PlaneCount(s, z)
    ensures LitCount(Repeat(s, n), y, lit) == n * LitCount(s, y, lit)
  {
    if n > 0 {
      CountRepeat(s, n - 1, y, z, lit);
      CountAppend(Repeat(s, n - 1), s, y, z, lit);
      MulSucc(n, PlaneCount(s, z));
      MulSucc(n, LitCount(s, y, lit));
    }
  }

  lemma MulSucc(n: nat, c: nat)
    requires n > 0
    ensures n * c == (n - 1) * c + c
  {
  }

  /** A pass over a plane has 16 strobes of that plane and shows each of the
      32 rows exactly once. */
  lemma {:induction false} CountPass(plane: nat, n: nat, y: nat, z: nat, lit: nat -> bool)
    requires n <= Rows
    ensures PlaneCount(Pass(plane, n), z) == if z == plane then n else 0
    ensures LitCount(Pass(plane, n), y, lit) ==
      if (y < n || Rows <= y < Rows + n) && lit(plane) then 1 else 0
  {
    if n > 0 {
      CountPass(plane, n - 1, y, z, lit);
      assert Pass(plane, n)[..n - 1] == Pass(plane, n - 1);
    }
  }

  /** Holding plane z strobes it 16 * 2^z times and shows each row 2^z
      times. */
  lemma HeldCounts(z: nat, y: nat, z': nat, lit: nat -> bool)
    requires y < 2 * Rows
    ensures PlaneCount(Held(z), z') == if z' == z then Rows * Pow2(z) else 0
    ensures LitCount(Held(z), y, lit) == if lit(z) then Pow2(z) else 0
  {
    HeldRepeats(z);
    CountRepeat(Pass(z, Rows), Pow2(z), y, z', lit);
    CountPass(z, Rows, y, z', lit);
  }

  lemma {:induction false} PlanesPlaneCount(n: nat, z: nat)
    ensures PlaneCount(Planes(n), z) == if z < n then Rows * Pow2(z) else 0
  {
    if n > 0 {
      var lit := (_: nat) => true;
      PlanesPlaneCount(n - 1, z);
      CountAppend(Planes(n - 1), Held(n - 1), 0, z, lit);
      HeldCounts(n - 1, 0, z, lit);
    }
  }

  lemma {:induction false} PlanesLitCount(n: nat, y: nat, lit: nat -> bool)
    requires y < 2 * Rows
    ensures LitCount(Planes(n), y, lit) == Weight(lit, n)
  {
    if n > 0 {
      PlanesLitCount(n - 1, y, lit);
      CountAppend(Planes(n - 1), Held(n - 1), y, 0, lit);
      HeldCounts(n - 1, y, 0, lit);
    }
  }

  /** Plane z is passed over 2^z times: 16 * 2^z strobes per sweep. */
  lemma SweepPlaneCount(z: nat)
    ensures PlaneCount(Sweep(), z) == if z < BitDepth then Rows * Pow2(z) else 0
  {
    PlanesPlaneCount(BitDepth, z);
  }

  /** Binary code modulation: a pixel whose plane-z bit is the z-th bit of
      level q is on for exactly q of the 496 strobes of a sweep. */
  lemma SweepShowsLevel(y: nat, q: nat)
    requires y < 2 * Rows && q <= MaxLevel
    ensures LitCount(Sweep(), y, (z: nat) => Bit(q, z) == 1) == q
  {
    var lit := (z: nat) => Bit(q, z) == 1;
    PlanesLitCount(BitDepth, y, lit);
    WeightOfBits(q, BitDepth);
    assert Pow2(BitDepth) == 32;
    RecomposeBits(q, BitDepth);
  }

  /** f applied to each strobe, the results joined in order. */
  function Concat<T>(f: Strobe -> seq<T>, sched: seq<Strobe>): seq<T> {
    if sched == [] then [] else Concat(f, sched[..|sched| - 1]) + f(sched[|sched| - 1])
  }

  lemma {:induction false} ConcatAppend<T>(f: Strobe -> seq<T>, s1: seq<Strobe>, s2: seq<Strobe>)
    ensures Concat(f, s1 + s2) == Concat(f, s1) + Concat(f, s2)
    decreases |s2|
  {
    if s2 == [] {
      assert s1 + s2 == s1;
    } else {
      var init := s2[..|s2| - 1];
      assert (s1 + s2)[..|s1 + s2| - 1] == s1 + init;
      assert (s1 + s2)[|s1 + s2| - 1] == s2[|s2| - 1];
      ConcatAppend(f, s1, init);
    }
  }

  /** Sequence steps of the refresh loops: one more row of a pass, one more
      pass of a plane, one more plane. */
  lemma PassSnoc(plane: nat, j: nat)
    requires j < Rows
    ensures Pass(plane, j) + [Strobe(plane, j, j, j + Rows)] == Pass(plane, j + 1)
  {
  }

  lemma RepeatSnoc<T>(s: seq<T>, x: nat)
    ensures Repeat(s, x) + s == Repeat(s, x + 1)
  {
  }

  lemma {:induction false} RepeatAdd<T>(s: seq<T>, a: nat, b: nat)
    ensures Repeat(s, a) + Repeat(s, b) == Repeat(s, a + b)
  {
    if b == 0 {
      assert Repeat(s, a) + [] == Repeat(s, a);
    } else {
      RepeatAdd(s, a, b - 1);
      AppendAssoc(Repeat(s, a), Repeat(s, b - 1), s);
    }
  }

  /** Appending b more copies after a copies gives a + b copies. */
  lemma RepeatGrow<T>(start: seq<T>, mid: seq<T>, end: seq<T>, s: seq<T>, a: nat, b: nat)
    requires mid == start + Repeat(s, a) && end == mid + Repeat(s, b)
    ensures end == start + Repeat(s, a + b)
  {
    RepeatAdd(s, a, b);
    AppendAssoc(start, Repeat(s, a), Repeat(s, b));
  }

  lemma PlanesSnoc(n: nat)
    ensures Planes(n) + Repeat(Pass(n, Rows), Pow2(n)) == Planes(n + 1)
  {
    HeldRepeats(n);
  }

  lemma AppendAssoc<T>(a: seq<T>, b: seq<T>, c: seq<T>)
    ensures a + b + c == a + (b + c)
  {
  }

  lemma ConcatSnoc<T>(f: Strobe -> seq<T>, s: seq<Strobe>, x: Strobe)
    ensures Concat(f, s + [x]) == Concat(f, s) + f(x)
  {
    assert (s + [x])[..|s + [x]| - 1] == s;
  }

  lemma {:induction false} ConcatRepeat<T>(f: Strobe -> seq<T>, s: seq<Strobe>, n: nat)
    ensures Concat(f, Repeat(s, n)) == Repeat(Concat(f, s), n)
  {
    if n > 0 {
      ConcatRepeat(f, s, n - 1);
      ConcatAppend(f, Repeat(s, n - 1), s);
    }
  }
}
