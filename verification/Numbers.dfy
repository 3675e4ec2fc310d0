/** Natural numbers as rows of bits: powers of two, bit fields, and rows of fixed-width
    digits, least significant first.  A byte string is a row of 8-bit digits. */
module Numbers {

  type byte = x: nat | x < 256

  function Pow2(n: nat): (p: nat)
    ensures 1 <= p
  {
    if n == 0 then 1 else 2 * Pow2(n - 1)
  }

  lemma {:induction false} Pow2Add(a: nat, b: nat)
    ensures Pow2(a + b) == Pow2(a) * Pow2(b)
  {
    if a == 0 {
    } else {
      Pow2Add(a - 1, b);
      assert 2 * Pow2(a - 1) * Pow2(b) == 2 * (Pow2(a - 1) * Pow2(b));
    }
  }

  lemma {:induction false} Pow2Grows(a: nat, b: nat)
    requires a <= b
    ensures Pow2(a) <= Pow2(b)
  {
    if a >= b {
    } else {
      Pow2Grows(a, b - 1);
    }
  }

  lemma Distribute(p: int, r: int, v: int, x: int)
    ensures p * (r + v * x) == p * r + v * (p * x)
  {
  }

  lemma MulMono(p: nat, x: int, y: int)
    requires x <= y
    ensures p * x <= p * y
  {
  }

  lemma DivUnique(n: int, d: nat, q: int, r: nat)
    requires 0 < d && n == q * d + r && r < d
    ensures n / d == q && n % d == r
  {
    var q', r' := n / d, n % d;
    assert n == q' * d + r';
    assert q < q' ==> (q + 1) * d <= q' * d;
    assert q' < q ==> (q' + 1) * d <= q * d;
  }

  /** Shifting left and right. */
  function Shl(n: nat, p: nat): nat {
    n * Pow2(p)
  }

  function Shr(n: nat, p: nat): nat {
    Quotient(n, Pow2(p))
  }

  function Quotient(n: nat, d: nat): nat
    requires 0 < d
  {
    n / d
  }

  lemma ShlShl(v: nat, s: nat, p: nat)
    ensures Shl(v, s) * Pow2(p) == Shl(v, p + s)
  {
    Pow2Add(p, s);
    hide Pow2;
    Distribute(Pow2(p), 0, v, Pow2(s));
  }

  /** The bits p .. p+w of a number. */
  function Field(n: nat, p: nat, w: nat): (f: nat)
    ensures f < Pow2(w)
  {
    Shr(n, p) % Pow2(w)
  }

  lemma Euclid(n: nat, x: nat)
    requires 0 < x
    ensures n == n / x * x + n % x && 0 <= n / x && 0 <= n % x < x
  {
  }

  lemma Regroup3(u: int, y: int, x: int, v: int)
    ensures (u * y + v) * x == u * (x * y) + x * v
  {
    Distribute(x, v, u, y);
    assert (u * y + v) * x == x * (v + u * y);
  }

  lemma RemainderBound(x: nat, y: nat, v: nat, r: nat)
    requires r < x && v < y
    ensures 0 <= x * v && x * v + r < x * y
  {
    MulMono(x, v + 1, y);
    assert x * (v + 1) == x * v + x;
  }

  /** Dividing in two steps. */
  lemma DivMul(n: nat, x: nat, y: nat)
    requires 0 < x && 0 < y
    ensures 0 < x * y
    ensures n / (x * y) == n / x / y
    ensures n % (x * y) == n % x + x * ((n / x) % y)
  {
    var q, r := n / x, n % x;
    var u, v := q / y, q % y;
    Euclid(n, x);
    Euclid(q, y);
    Regroup3(u, y, x, v);
    RemainderBound(x, y, v, r);
    DivUnique(n, x * y, u, x * v + r);
  }

  /** A field is its low part and, above it, its high part. */
  lemma FieldSplit(n: nat, p: nat, a: nat, b: nat)
    ensures Field(n, p, a + b) == Field(n, p, a) + Pow2(a) * Field(n, p + a, b)
  {
    hide Pow2;
    Pow2Add(a, b);
    Pow2Add(p, a);
    var m := n / Pow2(p);
    DivMul(m, Pow2(a), Pow2(b));
    DivMul(n, Pow2(p), Pow2(a));
    assert Field(n, p, a + b) == m % (Pow2(a) * Pow2(b));
    assert m / Pow2(a) == n / Pow2(p + a);
  }

  /** The parts of a field, by division. */
  lemma FieldParts(n: nat, p: nat, a: nat, b: nat)
    ensures Field(n, p, a + b) % Pow2(a) == Field(n, p, a)
    ensures Field(n, p, a + b) / Pow2(a) == Field(n, p + a, b)
  {
    FieldSplit(n, p, a, b);
    DivUnique(Field(n, p, a + b), Pow2(a), Field(n, p + a, b), Field(n, p, a));
  }

  /** Cutting a number at bit m keeps the fields below. */
  lemma FieldOfMod(n: nat, m: nat, p: nat, w: nat)
    requires p + w <= m
    ensures Field(n % Pow2(m), p, w) == Field(n, p, w)
  {
    assert Pow2(0) == 1 && n / 1 == n;
    hide Pow2;
    FieldParts(n, 0, p, m - p);
    FieldParts(n, p, w, m - p - w);
  }

  // ---------- rows of digits ----------

  /** All digits fit in w bits. */
  ghost predicate Fit(vs: seq<nat>, w: nat) {
    forall i :: 0 <= i < |vs| ==> vs[i] < Pow2(w)
  }

  /** The number with these digits, least significant first. */
  function Packed(vs: seq<nat>, w: nat): nat {
    if vs == [] then 0 else vs[0] + Pow2(w) * Packed(vs[1..], w)
  }

  lemma {:induction false} PackedBound(vs: seq<nat>, w: nat)
    requires Fit(vs, w)
    ensures Packed(vs, w) < Pow2(w * |vs|)
  {
    hide Pow2;
    if vs != [] {
      PackedBound(vs[1..], w);
      Row(w, |vs|);
      Pow2Add(w, w * (|vs| - 1));
      var rest := Packed(vs[1..], w);
      MulMono(Pow2(w), rest + 1, Pow2(w * (|vs| - 1)));
      Distribute(Pow2(w), rest, 1, 1);
    } else {
      assert w * 0 == 0;
    }
  }

  lemma Row(w: nat, n: nat)
    requires 0 < n
    ensures w * n == w + w * (n - 1)
  {
  }

  /** Appending a digit adds it above the others. */
  lemma {:induction false} PackedSnoc(vs: seq<nat>, w: nat, v: nat)
    ensures Packed(vs + [v], w) == Packed(vs, w) + Shl(v, w * |vs|)
  {
    if vs == [] {
      assert vs + [v] == [v] && w * 0 == 0;
      assert Packed([v], w) == v + Pow2(w) * Packed([], w);
    } else {
      hide Pow2;
      assert (vs + [v])[1..] == vs[1..] + [v];
      PackedSnoc(vs[1..], w, v);
      Row(w, |vs|);
      Pow2Add(w, w * (|vs| - 1));
      Distribute(Pow2(w), Packed(vs[1..], w), v, Pow2(w * (|vs| - 1)));
    }
  }

  /** Digit i is field w*i. */
  lemma {:induction false} DigitField(vs: seq<nat>, w: nat, i: nat)
    requires Fit(vs, w) && i < |vs|
    ensures Field(Packed(vs, w), w * i, w) == vs[i]
  {
    var n, rest := Packed(vs, w), Packed(vs[1..], w);
    DivUnique(n, Pow2(w), rest, vs[0]);
    if i == 0 {
      assert w * 0 == 0;
      assert n / 1 == n;
    } else {
      DigitField(vs[1..], w, i - 1);
      Row(w, i);
      Pow2Add(w, w * (i - 1));
      DivMul(n, Pow2(w), Pow2(w * (i - 1)));
    }
  }

  /** Rows of equal length with equal numbers are equal. */
  lemma PackedInjective(us: seq<nat>, vs: seq<nat>, w: nat)
    requires Fit(us, w) && Fit(vs, w) && |us| == |vs|
    requires Packed(us, w) == Packed(vs, w)
    ensures us == vs
  {
    forall i | 0 <= i < |us|
      ensures us[i] == vs[i]
    {
      DigitField(us, w, i);
      DigitField(vs, w, i);
    }
  }

  /** Changing digit k changes the number by the difference, shifted. */
  lemma {:induction false} PackedUpdate(vs: seq<nat>, w: nat, k: nat, x: nat)
    requires k < |vs|
    ensures Packed(vs[k := x], w) == Packed(vs, w) + (x - vs[k]) * Pow2(w * k)
  {
    if k == 0 {
      assert vs[k := x][1..] == vs[1..] && w * 0 == 0;
    } else {
      hide Pow2;
      assert vs[k := x][1..] == vs[1..][k - 1 := x];
      PackedUpdate(vs[1..], w, k - 1, x);
      Row(w, k);
      Pow2Add(w, w * (k - 1));
      Distribute(Pow2(w), Packed(vs[1..], w), x - vs[k], Pow2(w * (k - 1)));
    }
  }

  lemma {:induction false} PackedZeros(n: nat, w: nat)
    ensures Packed(seq(n, _ => 0), w) == 0
  {
    if n == 0 {
    } else {
      assert seq(n, _ => 0)[1..] == seq(n - 1, _ => 0);
      PackedZeros(n - 1, w);
    }
  }

  function Digits(n: nat, w: nat, k: nat): (ds: seq<nat>)
    ensures |ds| == k
  {
    seq(k, i requires 0 <= i => Field(n, w * i, w))
  }

  /** The digits of a number, packed again, are its low bits. */
  lemma {:induction false} DigitsPack(n: nat, w: nat, k: nat)
    ensures Packed(Digits(n, w, k), w) == Field(n, 0, w * k)
  {
    hide Pow2, Field, Shl;
    if k == 0 {
      assert w * 0 == 0;
      NoBits(n);
    } else {
      hide Packed;
      DigitsPack(n, w, k - 1);
      var d := Field(n, w * (k - 1), w);
      assert Digits(n, w, k) == Digits(n, w, k - 1) + [d];
      PackedSnoc(Digits(n, w, k - 1), w, d);
      Row(w, k);
      FieldSplit(n, 0, w * (k - 1), w);
      ShlIs(d, w * (k - 1));
    }
  }

  lemma NoBits(n: nat)
    ensures Field(n, 0, 0) == 0 && Shr(n, 0) == n
  {
    assert Pow2(0) == 1 && n / 1 == n;
  }

  lemma ShlIs(v: nat, p: nat)
    ensures Shl(v, p) == Pow2(p) * v
  {
  }

  lemma SmallMod(x: nat, m: nat)
    requires x < m
    ensures x % m == x
  {
  }

  lemma FieldAll(n: nat, w: nat)
    requires n < Pow2(w)
    ensures Field(n, 0, w) == n
  {
    hide Pow2, Shr;
    NoBits(n);
    SmallMod(n, Pow2(w));
  }

  lemma Pow2Of8()
    ensures Pow2(8) == 256
  {
    assert Pow2(4) == 16;
    Pow2Add(4, 4);
  }

  /** The number with these bytes, least significant first. */
  function LeValue(b: seq<byte>): nat {
    Packed(b, 8)
  }

  lemma LeCons(x: byte, rest: seq<byte>)
    ensures LeValue([x] + rest) == x + 256 * LeValue(rest)
  {
    Pow2Of8();
    assert ([x] + rest)[1..] == rest;
  }

  lemma ByteField(b: seq<byte>, k: nat)
    requires k < |b|
    ensures Fit(b, 8) && Field(LeValue(b), 8 * k, 8) == b[k]
  {
    Pow2Of8();
    DigitField(b, 8, k);
  }

  lemma ByteUpdate(b: seq<byte>, k: nat, x: byte)
    requires k < |b|
    ensures LeValue(b[k := x]) == LeValue(b) + (x - b[k]) * Pow2(8 * k)
  {
    PackedUpdate(b, 8, k, x);
  }

  lemma BytesInjective(a: seq<byte>, b: seq<byte>)
    requires |a| == |b| && LeValue(a) == LeValue(b)
    ensures a == b
  {
    Pow2Of8();
    PackedInjective(a, b, 8);
  }

  lemma DivBelow(n: nat, x: nat, y: nat)
    requires 0 < x && n < x * y
    ensures n / x < y
  {
    Euclid(n, x);
    if y <= n / x {
      MulMono(x, y, n / x);
    }
  }

  lemma QuotientBelow(n: nat, x: nat, y: nat, z: nat)
    requires 0 < x && n < x * y && y <= z
    ensures (n / x) % z < y
  {
    DivBelow(n, x, y);
    SmallMod(n / x, z);
  }

  /** A number below 2^(p+s) has only s bits from bit p on. */
  lemma FieldBelow(n: nat, p: nat, s: nat, w: nat)
    requires n < Pow2(p + s) && s <= w
    ensures Field(n, p, w) < Pow2(s)
  {
    hide Pow2;
    Pow2Add(p, s);
    Pow2Grows(s, w);
    QuotientBelow(n, Pow2(p), Pow2(s), Pow2(w));
  }

  // ---------- bit operators ----------

  /** Bitwise or. */
  function BitOr(a: nat, b: nat): nat {
    if a == 0 then b else if b == 0 then a
    else 2 * BitOr(a / 2, b / 2) + (if a % 2 == 1 || b % 2 == 1 then 1 else 0)
  }

  /** Bitwise and. */
  function BitAnd(a: nat, b: nat): nat {
    if a == 0 || b == 0 then 0
    else 2 * BitAnd(a / 2, b / 2) + (if a % 2 == 1 && b % 2 == 1 then 1 else 0)
  }

  /** Or with a number shifted above the bits of another is addition. */
  lemma {:induction false} OrAbove(a: nat, v: nat, s: nat)
    requires a < Pow2(s)
    ensures BitOr(a, Shl(v, s)) == a + Shl(v, s)
  {
    if s == 0 {
    } else {
      var b := v * Pow2(s - 1);
      assert v * Pow2(s) == 2 * b;
      OrAbove(a / 2, v, s - 1);
      assert a == 2 * (a / 2) + a % 2;
    }
  }

  lemma AndOdd(a: nat, half: nat)
    requires 0 < half
    ensures BitAnd(a, 2 * half - 1) == 2 * BitAnd(a / 2, half - 1) + a % 2
  {
    assert (2 * half - 1) / 2 == half - 1 && (2 * half - 1) % 2 == 1;
  }

  /** And with a mask of w ones is the remainder. */
  lemma {:induction false} AndMask(a: nat, w: nat)
    ensures BitAnd(a, Pow2(w) - 1) == a % Pow2(w)
  {
    if w == 0 {
    } else {
      var half := Pow2(w - 1);
      assert Pow2(w) == 2 * half;
      AndMask(a / 2, w - 1);
      hide BitAnd, Pow2;
      AndOdd(a, half);
      DivMul(a, 2, half);
    }
  }
}
