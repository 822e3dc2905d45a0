/** `py::oint`, the wrapper around a Python `int`, and its three policies for
    narrowing an arbitrary-precision integer to `int8_t` .. `int64_t`. */
module Oint {
  import opened Results

  /** The fixed-width signed types the narrowing is instantiated for. */
  datatype Width = W8 | W16 | W32 | W64

  /** 2^8, 2^16, 2^32 or 2^64: the number of values of the width. */
  function Modulus(w: Width): nat
  {
    match w
    case W8 => 0x100
    case W16 => 0x1_0000
    case W32 => 0x1_0000_0000
    case W64 => 0x1_0000_0000_0000_0000
  }

  /** MAX<T> and MIN<T> of the two's-complement type of width w. */
  function Max(w: Width): int { Modulus(w) / 2 - 1 }
  function Min(w: Width): int { -(Modulus(w) / 2) }

  /** A narrowing target.  `minIsValue` says whether MIN<T> itself counts as
      representable: the library reserves MIN<T> as the NA marker of a column
      of that type, and the narrowing code that is not part of this model may
      or may not reject it, so both readings are kept. */
  datatype Target = Target(width: Width, minIsValue: bool)

  /** The least integer the strict and flagged policies accept for t. */
  function Lo(t: Target): int
  {
    if t.minIsValue then Min(t.width) else -Max(t.width)
  }

  /** v is representable in t. */
  predicate Fits(t: Target, v: int)
  {
    Lo(t) <= v <= Max(t.width)
  }

  /** A Python `int`: an integer of unbounded size. */
  datatype OInt = OInt(v: int)

  // The native integer types the constructors accept.
  newtype int32 = x: int | -0x8000_0000 <= x < 0x8000_0000
  newtype int64 = x: int | -0x8000_0000_0000_0000 <= x < 0x8000_0000_0000_0000
  newtype size_t = x: int | 0 <= x < 0x1_0000_0000_0000_0000

  /** `oint(int32_t)`, `oint(int64_t)`, `oint(size_t)`: build the Python int
      holding exactly n. */
  function FromInt32(n: int32): (r: OInt)
    ensures r.v == n as int && Min(W32) <= r.v <= Max(W32)
  {
    OInt(n as int)
  }

  function FromInt64(n: int64): (r: OInt)
    ensures r.v == n as int && Min(W64) <= r.v <= Max(W64)
  {
    OInt(n as int)
  }

  function FromSize(n: size_t): (r: OInt)
    ensures r.v == n as int && 0 <= r.v < Modulus(W64)
  {
    OInt(n as int)
  }

  /** The overflow exception: it carries the offending value and the target. */
  datatype OverflowError = OverflowError(value: int, target: Target)

  /** `masked_value<T>()`: the bit pattern `static_cast<T>` keeps, read back as
      a two's-complement integer. It is the one integer of T's range congruent
      to x modulo Modulus(w) (see MaskedIsUnique). */
  function MaskedValue(w: Width, x: OInt): (r: int)
    ensures Min(w) <= r <= Max(w)
    ensures (x.v - r) % Modulus(w) == 0
  {
    WrapCongruent(x.v, Modulus(w));
    Wrap(x.v, Modulus(w))
  }

  /** Any integer of T's range congruent to x is the masked value of x. */
  lemma MaskedIsUnique(w: Width, x: OInt, y: int)
    requires Min(w) <= y <= Max(w)
    requires (x.v - y) % Modulus(w) == 0
    ensures MaskedValue(w, x) == y
  {
    WrapUnique(x.v, Modulus(w), y);
  }

  /** Truncation keeps every integer that T can hold in full. */
  lemma MaskedKeepsRepresentable(w: Width, x: OInt)
    ensures MaskedValue(w, x) == x.v <==> Min(w) <= x.v <= Max(w)
  {
    if Min(w) <= x.v <= Max(w) {
      MaskedIsUnique(w, x, x.v);
    }
  }

  /** The result of `value<T>(int* overflow)`: the returned T and the flag. */
  datatype Flagged = Flagged(value: int, overflow: int)

  /** `value<T>(int* overflow)`: never fails. The value is cast to T and
      compared with the original (and, when MIN<T> is not a value, compared
      with MIN<T>); on a mismatch the flag takes the sign of the original and
      the result is +MAX<T> or -MAX<T>. */
  function ValueFlagged(t: Target, x: OInt): (r: Flagged)
    ensures r.overflow == 0 || r.overflow == 1 || r.overflow == -1
    ensures r.overflow == 0 <==> Fits(t, x.v)
    ensures r.overflow == 0 ==> r.value == x.v
    ensures r.overflow == 1 <==> x.v > Max(t.width)
    ensures r.overflow == -1 <==> x.v < Lo(t)
    ensures r.overflow == 1 ==> r.value == Max(t.width)
    ensures r.overflow == -1 ==> r.value == -Max(t.width)
  {
    var cast := MaskedValue(t.width, x);
    MaskedKeepsRepresentable(t.width, x);
    if cast == x.v && (t.minIsValue || x.v != Min(t.width)) then Flagged(x.v, 0)
    else if x.v > 0 then Flagged(Max(t.width), 1)
    else Flagged(-Max(t.width), -1)
  }

  /** `value<T>()`: the flagged conversion, turned into an overflow exception
      whenever the flag is raised. */
  function Value(t: Target, x: OInt): (r: Result<int, OverflowError>)
    ensures r.Ok? <==> Fits(t, x.v)
    ensures r.Ok? ==> r.value == x.v
    ensures r.Err? ==> r.error == OverflowError(x.v, t)
  {
    var f := ValueFlagged(t, x);
    if f.overflow != 0 then Err(OverflowError(x.v, t)) else Ok(f.value)
  }

  /** The strict and the flagged policy agree on what overflows, and return
      the same number when nothing does. */
  lemma StrictAgreesWithFlagged(t: Target, x: OInt)
    ensures Value(t, x).Err? <==> ValueFlagged(t, x).overflow != 0
    ensures Value(t, x).Ok? ==> Value(t, x).value == ValueFlagged(t, x).value
  {
  }

  /** The masked policy agrees with the strict one wherever the latter succeeds. */
  lemma MaskedAgreesWithStrict(t: Target, x: OInt)
    requires Value(t, x).Ok?
    ensures MaskedValue(t.width, x) == Value(t, x).value
  {
    MaskedKeepsRepresentable(t.width, x);
  }

  /** Round trip: a native int64_t read back with the strict int64 narrowing is
      unchanged (INT64_MIN only when MIN counts as a value). */
  lemma Int64RoundTrip(n: int64, minIsValue: bool)
    requires minIsValue || n as int != Min(W64)
    ensures Value(Target(W64, minIsValue), FromInt64(n)) == Ok(n as int)
  {
  }

  /** An int32_t always fits an int64_t, and into an int32_t again whenever it
      is not the excluded MIN. */
  lemma Int32RoundTrip(n: int32, minIsValue: bool)
    ensures Value(Target(W64, minIsValue), FromInt32(n)) == Ok(n as int)
    ensures minIsValue || n as int != Min(W32) ==>
              Value(Target(W32, minIsValue), FromInt32(n)) == Ok(n as int)
  {
  }

  /** A size_t reads back as an int64_t exactly when it is at most INT64_MAX. */
  lemma SizeToInt64(n: size_t, minIsValue: bool)
    ensures Value(Target(W64, minIsValue), FromSize(n)).Ok? <==> n as int <= Max(W64)
  {
  }

  //---- Modular arithmetic on a symbolic modulus ----

  /** Reduce x into [-m/2, m/2): the residue modulo m, shifted down by m when
      it lies in the upper half, as a two's-complement reading does. */
  function Wrap(x: int, m: int): int
    requires m > 0
  {
    var q := x % m;
    if q < m / 2 then q else q - m
  }

  lemma {:induction false} MulAtLeast(d: int, m: int)
    requires d >= 1 && m > 0
    ensures d * m >= m
    decreases d
  {
    if d > 1 {
      MulAtLeast(d - 1, m);
      assert d * m == (d - 1) * m + m;
    }
  }

  lemma SmallMultiple(d: int, m: int)
    requires m > 0 && -m < d * m < m
    ensures d == 0
  {
    if d > 0 {
      MulAtLeast(d, m);
    } else if d < 0 {
      MulAtLeast(-d, m);
    }
  }

  lemma MultipleMod(a: int, m: int, k: int)
    requires m > 0 && a == k * m
    ensures a % m == 0
  {
    var q, s := a / m, a % m;
    assert (k - q) * m == s;
    SmallMultiple(k - q, m);
  }

  lemma WrapCongruent(x: int, m: int)
    requires m > 0 && m % 2 == 0
    ensures -(m / 2) <= Wrap(x, m) < m / 2
    ensures (x - Wrap(x, m)) % m == 0
  {
    var q := x % m;
    if q < m / 2 {
      MultipleMod(x - q, m, x / m);
    } else {
      assert x - (q - m) == (x / m + 1) * m;
      MultipleMod(x - (q - m), m, x / m + 1);
    }
  }

  lemma WrapUnique(x: int, m: int, y: int)
    requires m > 0 && m % 2 == 0 && -(m / 2) <= y < m / 2
    requires (x - y) % m == 0
    ensures Wrap(x, m) == y
  {
    var r := Wrap(x, m);
    WrapCongruent(x, m);
    assert x - y == ((x - y) / m) * m;
    assert x - r == ((x - r) / m) * m;
    assert r - y == ((x - y) / m - (x - r) / m) * m;
    SmallMultiple((x - y) / m - (x - r) / m, m);
  }
}
