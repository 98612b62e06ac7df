/** Child indices from virtual block addresses: shifts and masks on one side, base
    `degree` digits on the other.  */
module TreeIndex {

  datatype Option<T> = None | Some(value: T)

  const WORD_BITS := 32

  // ------------------------------------------------------------ powers and words

  function Pow(b: nat, e: nat): (p: nat)
    ensures b > 0 ==> p > 0
  {
    if e == 0 then 1 else b * Pow(b, e - 1)
  }

  /** Bitwise conjunction. */
  function And(a: nat, b: nat): nat
  {
    if a == 0 || b == 0 then 0 else (a % 2) * (b % 2) + 2 * And(a / 2, b / 2)
  }

  function ShiftLeft(x: nat, k: nat): nat
  {
    x * Pow(2, k)
  }

  function ShiftRight(x: nat, k: nat): nat
  {
    x / Pow(2, k)
  }

  lemma MulMonotone(a: int, b: int, c: nat)
    requires a <= b
    ensures a * c <= b * c
  {
    assert (b - a) * c >= 0;
  }

  /** A nonzero multiple of d is at least d away from zero. */
  lemma Multiple(x: int, d: nat)
    requires x != 0
    ensures x * d >= d || x * d + d <= 0
  {
    if x > 0 {
      MulMonotone(1, x, d);
    } else {
      MulMonotone(x, -1, d);
    }
  }

  lemma Distribute(a: int, b: int, d: int)
    ensures (a - b) * d == a * d - b * d
  {
  }

  /** Quotient and remainder are unique. */
  lemma DivUnique(v: nat, d: nat, q: nat, r: nat)
    requires r < d && v == q * d + r
    ensures v / d == q && v % d == r
  {
    var q2, r2 := v / d, v % d;
    assert v == q2 * d + r2;
    Distribute(q, q2, d);
    if q != q2 {
      Multiple(q - q2, d);
    }
  }

  /** Dividing by a product is dividing twice. */
  lemma DivDiv(v: nat, a: nat, b: nat)
    requires a > 0 && b > 0
    ensures a * b > 0 && v / (a * b) == (v / a) / b
  {
    var q, r := v / a, v % a;
    var q2, r2 := q / b, q % b;
    assert v == q * a + r;
    assert q == q2 * b + r2;
    DivDivParts(v, a, b, q2, r2, r);
  }

  lemma DivDivParts(v: nat, a: nat, b: nat, q: nat, s: nat, r: nat)
    requires s < b && r < a && v == (q * b + s) * a + r
    ensures a * b > 0 && v / (a * b) == q
  {
    Product(q, b, s, a);
    MulMonotone(s, b - 1, a);
    Distribute(b, 1, a);
    DivUnique(v, b * a, q, s * a + r);
  }

  lemma Product(q: int, b: int, r: int, a: int)
    ensures (q * b + r) * a == q * (a * b) + r * a
  {
    assert (q * b + r) * a == q * b * a + r * a;
    assert q * b * a == q * (b * a);
  }

  lemma {:induction false} PowMul(b: nat, e: nat, f: nat)
    ensures Pow(Pow(b, e), f) == Pow(b, e * f)
  {
    if f > 0 {
      PowMul(b, e, f - 1);
      PowAdd(b, e, e * (f - 1));
      assert e + e * (f - 1) == e * f;
    }
  }

  lemma {:induction false} PowAdd(b: nat, e: nat, f: nat)
    ensures Pow(b, e) * Pow(b, f) == Pow(b, e + f)
  {
    if e > 0 {
      PowAdd(b, e - 1, f);
      PowStep(b, e);
      PowStep(b, e + f);
      assert e + f - 1 == e - 1 + f;
      Associate(b, Pow(b, e - 1), Pow(b, f));
    }
  }

  lemma PowStep(b: nat, e: nat)
    requires e > 0
    ensures Pow(b, e) == b * Pow(b, e - 1)
  {
  }

  lemma Associate(a: nat, b: nat, c: nat)
    ensures (a * b) * c == a * (b * c)
  {
  }

  lemma {:induction false} PowMonotone(b: nat, e: nat, f: nat)
    requires b > 0 && e <= f
    ensures Pow(b, e) <= Pow(b, f)
  {
    if e < f {
      PowMonotone(b, e, f - 1);
      assert b * Pow(b, f - 1) >= Pow(b, f - 1);
    }
  }

  // ------------------------------------------------------------- bits of a number

  lemma Halve(a: nat, p: nat)
    requires p > 0
    ensures a % (2 * p) == 2 * (a / 2 % p) + a % 2
  {
    var q, r := a / 2 / p, a / 2 % p;
    assert a / 2 == q * p + r;
    assert q * (2 * p) == 2 * (q * p);
    DivUnique(a, 2 * p, q, 2 * r + a % 2);
  }

  /** Masking the low k bits is taking the remainder. */
  lemma {:induction false} AndMask(a: nat, k: nat)
    ensures And(a, Pow(2, k) - 1) == a % Pow(2, k)
  {
    if k > 0 {
      var p := Pow(2, k - 1);
      AndMask(a / 2, k - 1);
      Halve(a, p);
      assert (2 * p - 1) % 2 == 1 && (2 * p - 1) / 2 == p - 1;
    }
  }

  /** Testing one bit. */
  lemma {:induction false} AndBit(v: nat, k: nat)
    ensures And(v, Pow(2, k)) != 0 <==> (v / Pow(2, k)) % 2 == 1
  {
    if v == 0 {
      assert 0 / Pow(2, k) == 0 by { DivUnique(0, Pow(2, k), 0, 0); }
    } else if k == 0 {
      assert And(v, 1) == v % 2 + 2 * And(v / 2, 0);
    } else {
      var p := Pow(2, k - 1);
      AndBit(v / 2, k - 1);
      DivDiv(v, 2, p);
      assert Pow(2, k) == 2 * p && (2 * p) % 2 == 0 && (2 * p) / 2 == p;
      assert And(v, 2 * p) == 2 * And(v / 2, p);
    }
  }

  /** k is the position of the highest bit of v. */
  predicate HighestBit(v: nat, k: nat)
  {
    Pow(2, k) <= v < Pow(2, k + 1)
  }

  lemma HighestBitUnique(v: nat, j: nat, k: nat)
    requires HighestBit(v, j) && HighestBit(v, k)
    ensures j == k
  {
    if j < k {
      PowMonotone(2, j + 1, k);
    } else if k < j {
      PowMonotone(2, k + 1, j);
    }
  }

  function Log2(v: nat): (k: nat)
    requires v > 0
    ensures HighestBit(v, k)
  {
    if v == 1 then 0 else 1 + Log2(v / 2)
  }

  /** Below 2^(k+1) the bit k decides whether k is the highest bit. */
  lemma TopBit(v: nat, k: nat)
    requires v < Pow(2, k + 1)
    ensures And(v, ShiftLeft(1, k)) != 0 <==> Pow(2, k) <= v
  {
    var p := Pow(2, k);
    AndBit(v, k);
    if p <= v {
      DivUnique(v, p, 1, v - p);
    } else {
      DivUnique(v, p, 0, v);
    }
  }

  /** The search of the source: it raises for zero, else it finds the highest bit;
      the raise after the loop is never reached.  */
  method FindLog2(value: nat) returns (r: Option<nat>)
    requires value < Pow(2, WORD_BITS)
    ensures r == if value == 0 then None else Some(Log2(value))
  {
    if value == 0 {
      return None;
    }
    for bit := WORD_BITS downto 0
      invariant value < Pow(2, bit)
    {
      TopBit(value, bit);
      if And(value, ShiftLeft(1, bit)) != 0 {
        HighestBitUnique(value, bit, Log2(value));
        return Some(bit);
      }
    }
    assert false;
  }

  // -------------------------------------------------------------- child indices

  /** Child index for a virtual block address, in a node of the given level. */
  function ChildIndex(vba: nat, level: nat, degree: nat): (i: nat)
    requires level > 0 && degree > 0
    ensures i < degree
  {
    var log := Log2(degree);
    AndMask(ShiftRight(vba, log * (level - 1)), log);
    And(ShiftRight(vba, log * (level - 1)), ShiftLeft(1, log) - 1)
  }

  /** At the lowest level the source masks without shifting. */
  lemma LowestChildIndex(vba: nat, degree: nat)
    requires degree > 0
    ensures ChildIndex(vba, 1, degree) == And(vba, ShiftLeft(1, Log2(degree)) - 1)
  {
    assert Log2(degree) * 0 == 0;
  }

  ghost predicate PowerOfTwo(d: nat)
  {
    exists k: nat :: Pow(2, k) == d
  }

  lemma PowerOfTwoLog(d: nat)
    requires d > 0
    ensures PowerOfTwo(d) <==> Pow(2, Log2(d)) == d
  {
    if PowerOfTwo(d) {
      var k: nat :| Pow(2, k) == d;
      HighestBitUnique(d, k, Log2(d));
    }
  }

  /** The index of the child as a digit of the address. */
  function Digit(v: nat, level: nat, degree: nat): (d: nat)
    requires level > 0 && degree > 0
    ensures d < degree
  {
    v / Pow(degree, level - 1) % degree
  }

  /** Shift and mask compute the digits of the address for every address exactly
      when the degree is a power of two. */
  lemma ChildIndexIsDigit(level: nat, degree: nat)
    requires level > 0 && degree > 0
    ensures PowerOfTwo(degree) <==> forall v: nat :: ChildIndex(v, level, degree) == Digit(v, level, degree)
  {
    if PowerOfTwo(degree) {
      forall v: nat ensures ChildIndex(v, level, degree) == Digit(v, level, degree) {
        ChildIndexDigit(v, level, degree);
      }
    } else {
      var v := ChildIndexMisses(level, degree);
    }
  }

  /** The highest bit of the degree, as a digit, is lost by the mask. */
  lemma ChildIndexMisses(level: nat, degree: nat) returns (v: nat)
    requires level > 0 && degree > 0 && !PowerOfTwo(degree)
    ensures ChildIndex(v, level, degree) < Digit(v, level, degree)
  {
    var log := Log2(degree);
    var x := Pow(2, log);
    v := x * Pow(degree, level - 1);
    PowerOfTwoLog(degree);
    DigitOfMultiple(x, level, degree);
    AndMask(ShiftRight(v, log * (level - 1)), log);
    var s := ShiftRight(v, log * (level - 1));
    assert s % x < x;
  }

  lemma DigitOfMultiple(x: nat, level: nat, degree: nat)
    requires level > 0 && x < degree
    ensures Digit(x * Pow(degree, level - 1), level, degree) == x
  {
    DivUnique(x * Pow(degree, level - 1), Pow(degree, level - 1), x, 0);
    DivUnique(x, degree, 0, x);
  }

  lemma ChildIndexDigit(v: nat, level: nat, degree: nat)
    requires level > 0 && degree > 0 && PowerOfTwo(degree)
    ensures ChildIndex(v, level, degree) == Digit(v, level, degree)
  {
    PowerOfTwoLog(degree);
    PowMul(2, Log2(degree), level - 1);
    var s := Log2(degree) * (level - 1);
    assert Pow(2, s) == Pow(degree, level - 1);
    ChildIndexMask(v, level, degree, s);
    MaskIsRemainder(v / Pow(2, s), Log2(degree), degree);
  }

  lemma MaskIsRemainder(q: nat, log: nat, degree: nat)
    requires degree > 0 && Pow(2, log) == degree
    ensures And(q, Pow(2, log) - 1) == q % degree
  {
    AndMask(q, log);
  }

  /** The child index for a shift by s. */
  lemma ChildIndexMask(v: nat, level: nat, degree: nat, s: nat)
    requires level > 0 && degree > 0 && s == Log2(degree) * (level - 1)
    ensures ChildIndex(v, level, degree) == And(v / Pow(2, s), Pow(2, Log2(degree)) - 1)
  {
  }

  /** A level splits an address into the child index and the address below. */
  lemma SplitAddress(n: nat, level: nat, edges: nat)
    requires level > 0 && edges > 0
    ensures n % Pow(edges, level) == Digit(n, level, edges) * Pow(edges, level - 1) + n % Pow(edges, level - 1)
  {
    var cap := Pow(edges, level - 1);
    var d, r, q := Digit(n, level, edges), n % cap, n / cap;
    assert q == q / edges * edges + d;
    assert n == q * cap + r;
    Product(q / edges, edges, d, cap);
    assert cap * edges == Pow(edges, level);
    MulMonotone(d, edges - 1, cap);
    Distribute(edges, 1, cap);
    DivUnique(n, Pow(edges, level), q / edges, d * cap + r);
  }

  // ------------------------------------------------- paths and addresses

  /** The child indices met on the way down, lowest level first. */
  function Path(v: nat, levels: nat, degree: nat): (p: seq<nat>)
    requires degree > 0
    ensures |p| == levels
  {
    seq(levels, i requires 0 <= i < levels => ChildIndex(v, i + 1, degree))
  }

  function VbaOf(path: seq<nat>, degree: nat): nat
  {
    if path == [] then 0 else path[0] + degree * VbaOf(path[1..], degree)
  }

  predicate PathIn(path: seq<nat>, levels: nat, degree: nat)
  {
    |path| == levels && forall i | 0 <= i < levels :: path[i] < degree
  }

  /** The digits of v without its lowest digit. */
  lemma DigitShift(v: nat, level: nat, degree: nat)
    requires level > 0 && degree > 0
    ensures Digit(v, 1, degree) == v % degree
    ensures Digit(v, level + 1, degree) == Digit(v / degree, level, degree)
  {
    DivDiv(v, degree, Pow(degree, level - 1));
    assert v / 1 == v;
  }

  lemma DivBelow(v: nat, d: nat, p: nat)
    requires d > 0 && v < d * p
    ensures v / d < p
  {
    if v / d >= p {
      MulMonotone(p, v / d, d);
    }
  }

  lemma PathStep(v: nat, levels: nat, degree: nat)
    requires PowerOfTwo(degree) && degree > 0 && levels > 0
    ensures Path(v, levels, degree) == [v % degree] + Path(v / degree, levels - 1, degree)
  {
    var p, q := Path(v, levels, degree), Path(v / degree, levels - 1, degree);
    forall i | 0 <= i < levels ensures p[i] == ([v % degree] + q)[i] {
      ChildIndexDigit(v, i + 1, degree);
      DigitShift(v, if i == 0 then 1 else i, degree);
      if i > 0 {
        ChildIndexDigit(v / degree, i, degree);
      }
    }
  }

  /** Up to the highest address of a tree, addresses and paths are in one-to-one
      correspondence: this direction and the next. */
  lemma {:induction false} PathOfAddress(v: nat, levels: nat, degree: nat)
    requires PowerOfTwo(degree) && degree > 0
    requires v <= Pow(degree, levels) - 1
    ensures PathIn(Path(v, levels, degree), levels, degree)
    ensures VbaOf(Path(v, levels, degree), degree) == v
    decreases levels
  {
    if levels > 0 {
      PathStep(v, levels, degree);
      PowStep(degree, levels);
      DivBelow(v, degree, Pow(degree, levels - 1));
      var q, r := SplitLowest(v, degree);
      PathOfAddress(q, levels - 1, degree);
      PathCons(r, Path(q, levels - 1, degree), levels, degree);
    }
  }

  lemma SplitLowest(v: nat, degree: nat) returns (q: nat, r: nat)
    requires degree > 0
    ensures q == v / degree && r == v % degree && r < degree && r + degree * q == v
  {
    q, r := v / degree, v % degree;
  }

  lemma PathCons(d: nat, p: seq<nat>, levels: nat, degree: nat)
    requires levels > 0 && PathIn(p, levels - 1, degree) && d < degree
    ensures PathIn([d] + p, levels, degree) && VbaOf([d] + p, degree) == d + degree * VbaOf(p, degree)
  {
    assert ([d] + p)[1..] == p;
  }

  lemma {:induction false} AddressOfPath(p: seq<nat>, degree: nat)
    requires PowerOfTwo(degree) && degree > 0
    requires PathIn(p, |p|, degree)
    ensures VbaOf(p, degree) <= Pow(degree, |p|) - 1
    ensures Path(VbaOf(p, degree), |p|, degree) == p
  {
    if p != [] {
      var w := VbaOf(p[1..], degree);
      AddressOfPath(p[1..], degree);
      assert degree * w == w * degree;
      DivUnique(VbaOf(p, degree), degree, w, p[0]);
      PathStep(VbaOf(p, degree), |p|, degree);
      MulMonotone(w, Pow(degree, |p| - 1) - 1, degree);
      Distribute(Pow(degree, |p| - 1), 1, degree);
    }
  }
}
