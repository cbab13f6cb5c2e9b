/**
 * The `Coordinate` class of the src engine: an (X, Y) pair of C# ints with
 * value equality, a 397-multiplier hash and an "X:Y" rendering.
 */
module Coordinates {
  import opened Outcomes

  datatype Coordinate = Coordinate(x: int, y: int)

  const HashMultiplier: int := 397

  /** C# `int` is a 32-bit two's-complement integer. */
  predicate IsInt32(v: int) { -0x8000_0000 <= v < 0x8000_0000 }

  /** `Equals(Coordinate other)`: componentwise comparison. */
  predicate Equals(self: Coordinate, other: Coordinate) {
    self.x == other.x && self.y == other.y
  }

  /** The static type of an argument of `Equals(object)`. */
  datatype Object = CoordinateObject(c: Coordinate) | OtherObject | NullObject

  /** `Equals(object obj)`: true only for a coordinate with the same components. */
  predicate EqualsObject(self: Coordinate, obj: Object) {
    obj.CoordinateObject? && Equals(self, obj.c)
  }

  /**
   * `operator ==` calls `left.Equals(right)`, and `Equals` reads `other.X`,
   * so either operand being null raises a NullReferenceException.
   */
  function OpEquals(left: Option<Coordinate>, right: Option<Coordinate>): Result<bool> {
    if left.None? || right.None? then Err(NullReference)
    else Ok(Equals(left.value, right.value))
  }

  /** `operator !=` is the negation of `operator ==`. */
  function OpNotEquals(left: Option<Coordinate>, right: Option<Coordinate>): Result<bool> {
    match OpEquals(left, right)
    case Ok(b) => Ok(!b)
    case Err(e) => Err(e)
  }

  lemma EqualsIsValueEquality(a: Coordinate, b: Coordinate, c: Coordinate)
    ensures Equals(a, b) <==> a == b
    ensures Equals(a, a)
    ensures Equals(a, b) ==> Equals(b, a)
    ensures Equals(a, b) && Equals(b, c) ==> Equals(a, c)
  {
  }

  lemma EqualsObjectOnlyForCoordinates(self: Coordinate, obj: Object)
    ensures EqualsObject(self, obj) <==> obj == CoordinateObject(self)
    ensures obj.OtherObject? || obj.NullObject? ==> !EqualsObject(self, obj)
  {
  }

  lemma OperatorsAgreeWithEquals(left: Option<Coordinate>, right: Option<Coordinate>)
    ensures OpEquals(left, right).Ok? <==> left.Some? && right.Some?
    ensures OpEquals(left, right).Ok? ==>
              OpEquals(left, right).value == (left.value == right.value) &&
              OpNotEquals(left, right) == Ok(left.value != right.value)
    ensures OpEquals(left, right).Err? ==> OpNotEquals(left, right) == Err(NullReference)
  {
  }

  /** The unsigned 32-bit pattern of an int, i.e. its value modulo 2^32. */
  function Unsigned(v: int): (u: nat)
    ensures u < 0x1_0000_0000
  {
    v % 0x1_0000_0000
  }

  /** The C# int whose bit pattern is the unsigned value `u`. */
  function Signed(u: nat): (v: int)
    requires u < 0x1_0000_0000
    ensures IsInt32(v) && Unsigned(v) == u
  {
    if u < 0x8000_0000 then u else u - 0x1_0000_0000
  }

  /** Bitwise exclusive or of the low `k` bits of `a` and `b`. */
  function Xor(a: nat, b: nat, k: nat): (r: nat)
    ensures r < Pow2(k)
  {
    if k == 0 then 0 else (a + b) % 2 + 2 * Xor(a / 2, b / 2, k - 1)
  }

  function Pow2(k: nat): (p: nat)
    ensures p >= 1
  {
    if k == 0 then 1 else 2 * Pow2(k - 1)
  }

  lemma {:induction false} Pow2Add(a: nat, b: nat)
    ensures Pow2(a + b) == Pow2(a) * Pow2(b)
  {
    if a > 0 {
      Pow2Add(a - 1, b);
      assert Pow2(a + b) == 2 * Pow2(a - 1 + b);
    }
  }

  lemma Pow2Of32()
    ensures Pow2(32) == 0x1_0000_0000
  {
    assert Pow2(2) == 4;
    Pow2Add(2, 2);
    Pow2Add(4, 4);
    Pow2Add(8, 8);
    Pow2Add(16, 16);
  }

  /**
   * `GetHashCode`: `(X * 397) ^ Y` in an `unchecked` block, so the product
   * wraps around modulo 2^32 and the exclusive or acts on 32-bit patterns.
   */
  function GetHashCode(c: Coordinate): (h: int)
    ensures IsInt32(h)
  {
    Pow2Of32();
    Signed(Xor(Unsigned(c.x * HashMultiplier), Unsigned(c.y), 32))
  }

  lemma HashAgreesWithEquals(a: Coordinate, b: Coordinate)
    ensures Equals(a, b) ==> GetHashCode(a) == GetHashCode(b)
  {
  }

  lemma {:induction false} XorZero(a: nat, k: nat)
    requires a < Pow2(k)
    ensures Xor(a, 0, k) == a
  {
    if k > 0 {
      XorZero(a / 2, k - 1);
    }
  }

  /** A low bit b and the higher bits q of the number b + 2q. */
  lemma BitAndHalf(b: int, q: int)
    requires 0 <= b < 2
    ensures (b + 2 * q) % 2 == b && (b + 2 * q) / 2 == q
  {
  }

  lemma ParityCancels(p: int, a: int, r: int)
    requires r % 2 == (p + a) % 2
    ensures (p + r) % 2 == a % 2
  {
  }

  lemma XorStep(a: nat, b: nat, k: nat)
    requires k > 0
    ensures Xor(a, b, k) == (a + b) % 2 + 2 * Xor(a / 2, b / 2, k - 1)
  {
  }

  lemma {:induction false} XorCancels(p: nat, a: nat, k: nat)
    requires a < Pow2(k)
    ensures Xor(p, Xor(p, a, k), k) == a
  {
    if k > 0 {
      var r, r' := Xor(p, a, k), Xor(p / 2, a / 2, k - 1);
      XorStep(p, a, k);
      BitAndHalf((p + a) % 2, r');
      XorCancels(p / 2, a / 2, k - 1);
      XorStep(p, r, k);
      ParityCancels(p, a, r);
    }
  }

  lemma SignedOfInt32(v: int)
    requires IsInt32(v)
    ensures Signed(Unsigned(v)) == v
  {
  }

  /** With `Y == 0` the hash is the wrapped product `unchecked(X * 397)`. */
  lemma {:induction false} HashOfRowZero(x: int)
    ensures GetHashCode(Coordinate(x, 0)) == Signed(Unsigned(x * HashMultiplier))
  {
    Pow2Of32();
    XorZero(Unsigned(x * HashMultiplier), 32);
  }

  /** For a fixed X, distinct Y values in the int range have distinct hashes. */
  lemma {:induction false} HashSeparatesRows(x: int, y1: int, y2: int)
    requires IsInt32(y1) && IsInt32(y2)
    ensures GetHashCode(Coordinate(x, y1)) == GetHashCode(Coordinate(x, y2)) ==> y1 == y2
  {
    Pow2Of32();
    var p := Unsigned(x * HashMultiplier);
    var h1, h2 := Xor(p, Unsigned(y1), 32), Xor(p, Unsigned(y2), 32);
    if GetHashCode(Coordinate(x, y1)) == GetHashCode(Coordinate(x, y2)) {
      assert Unsigned(Signed(h1)) == h1 && Unsigned(Signed(h2)) == h2;
      XorCancels(p, Unsigned(y1), 32);
      XorCancels(p, Unsigned(y2), 32);
      SignedOfInt32(y1);
      SignedOfInt32(y2);
    }
  }

  // ToString: `$"{X}:{Y}"`, with the ints written as decimal digits after a
  // '-' for a negative value, as an invariant-culture format writes them.

  function DigitChar(d: int): char
    requires 0 <= d < 10
  {
    "0123456789"[d]
  }

  predicate IsDigit(ch: char) { '0' <= ch <= '9' }

  function DigitValue(ch: char): int
    requires IsDigit(ch)
  {
    ch as int - '0' as int
  }

  /** Decimal digits of a natural number, without leading zeros. */
  function NatToString(n: nat): (s: string)
    ensures |s| >= 1 && forall i :: 0 <= i < |s| ==> IsDigit(s[i])
  {
    if n < 10 then [DigitChar(n)] else NatToString(n / 10) + [DigitChar(n % 10)]
  }

  /** `int.ToString()`: a leading '-' for negative values. */
  function IntToString(n: int): string {
    if n < 0 then "-" + NatToString(-n) else NatToString(n)
  }

  /** `Coordinate.ToString()`. */
  function ToString(c: Coordinate): string {
    IntToString(c.x) + ":" + IntToString(c.y)
  }

  // A reader of the rendering, used to state that ToString loses nothing.

  function ParseNat(s: string): (r: Option<nat>)
    decreases |s|
  {
    if |s| == 0 || !IsDigit(s[|s| - 1]) then None
    else if |s| == 1 then Some(DigitValue(s[0]))
    else match ParseNat(s[..|s| - 1])
         case None => None
         case Some(m) => Some(m * 10 + DigitValue(s[|s| - 1]))
  }

  function ParseInt(s: string): Option<int> {
    if |s| > 0 && s[0] == '-' then
      match ParseNat(s[1..])
      case None => None
      case Some(m) => Some(0 - m as int)
    else
      match ParseNat(s)
      case None => None
      case Some(m) => Some(m)
  }

  /** Position of the first ':' in `s`, or `|s|` when there is none. */
  function ColonIndex(s: string): (k: nat)
    ensures k <= |s|
    ensures k < |s| ==> s[k] == ':'
    ensures forall i :: 0 <= i < k ==> s[i] != ':'
  {
    if |s| == 0 then 0 else if s[0] == ':' then 0 else 1 + ColonIndex(s[1..])
  }

  function ParseCoordinate(s: string): Option<Coordinate> {
    var k := ColonIndex(s);
    if k == |s| then None
    else match (ParseInt(s[..k]), ParseInt(s[k + 1..]))
         case (Some(x), Some(y)) => Some(Coordinate(x, y))
         case _ => None
  }

  lemma {:induction false} NatRoundTrip(n: nat)
    ensures ParseNat(NatToString(n)) == Some(n)
  {
    var s := NatToString(n);
    if n >= 10 {
      NatRoundTrip(n / 10);
      assert s[..|s| - 1] == NatToString(n / 10);
      assert DigitValue(s[|s| - 1]) == n % 10;
    } else {
      assert DigitValue(s[0]) == n;
    }
  }

  lemma {:induction false} IntRoundTrip(n: int)
    ensures ParseInt(IntToString(n)) == Some(n)
  {
    var s := IntToString(n);
    if n < 0 {
      var digits := NatToString(-n);
      NatRoundTrip(-n);
      assert s[1..] == digits;
      assert ParseNat(s[1..]) == Some(-n);
    } else {
      var digits := NatToString(n);
      NatRoundTrip(n);
      assert s == digits && IsDigit(digits[0]);
    }
  }

  /** ToString is lossless: the "X:Y" text determines the coordinate. */
  lemma {:induction false} ToStringRoundTrip(c: Coordinate)
    ensures ParseCoordinate(ToString(c)) == Some(c)
  {
    var a, b := IntToString(c.x), IntToString(c.y);
    IntRoundTrip(c.x);
    IntRoundTrip(c.y);
    var s := ToString(c);
    assert forall i :: 0 <= i < |a| ==> a[i] == '-' || IsDigit(a[i]);
    assert s[|a|] == ':';
    assert ColonIndex(s) == |a|;
    assert s[..|a|] == a;
    assert s[|a| + 1..] == b;
  }

  lemma ToStringInjective(a: Coordinate, b: Coordinate)
    ensures ToString(a) == ToString(b) ==> a == b
  {
    ToStringRoundTrip(a);
    ToStringRoundTrip(b);
  }
}
