/**
 * Java's 32-bit `int`: the range, wrap-around arithmetic, `Integer.parseInt`
 * (ASCII digits only) and `Integer.toString`.
 */
module JavaInt {
  import opened Wrappers

  const IntMin: int := -0x8000_0000
  const IntMax: int := 0x7FFF_FFFF
  const TwoTo32: int := 0x1_0000_0000

  predicate IsInt32(x: int) {
    IntMin <= x <= IntMax
  }

  /** The two's-complement wrap-around of `x` into the `int` range. */
  function Wrap32(x: int): (r: int)
    ensures IsInt32(r)
    ensures IsInt32(x) ==> r == x
    decreases if x < IntMin then IntMin - x else if x > IntMax then x - IntMax else 0
  {
    if x < IntMin then Wrap32(x + TwoTo32)
    else if x > IntMax then Wrap32(x - TwoTo32)
    else x
  }

  /** The wrap-around is the residue modulo 2^32, shifted into the `int` range. */
  lemma {:induction false} WrapMod(x: int)
    ensures Wrap32(x) == (x + 0x8000_0000) % 0x1_0000_0000 - 0x8000_0000
    decreases if x < IntMin then IntMin - x else if x > IntMax then x - IntMax else 0
  {
    if x < IntMin {
      WrapMod(x + TwoTo32);
      ModShift(x + 0x8000_0000, 1);
    } else if x > IntMax {
      WrapMod(x - TwoTo32);
      ModShift(x + 0x8000_0000, -1);
    }
  }

  lemma ModShift(y: int, q: int)
    ensures (y + q * 0x1_0000_0000) % 0x1_0000_0000 == y % 0x1_0000_0000
  {
    var m := 0x1_0000_0000;
    var r := y % m;
    var d := y / m;
    assert y == d * m + r;
    assert y + q * m == (d + q) * m + r;
  }

  /** Wrapping after each step gives the same `int` as wrapping once at the end. */
  lemma WrapSub(a: int, b: int, c: int)
    ensures Wrap32(Wrap32(a - b) - c) == Wrap32(a - b - c)
  {
    var m := 0x1_0000_0000;
    var x := a - b + 0x8000_0000;
    WrapMod(a - b);
    WrapMod(Wrap32(a - b) - c);
    WrapMod(a - b - c);
    assert Wrap32(a - b) - c + 0x8000_0000 == (x - c) - (x / m) * m;
    ModShift(x - c, -(x / m));
  }

  /** Adding in Java `int` after each step is adding once and wrapping at the end. */
  lemma WrapAdd(x: int, b: int)
    ensures Wrap32(Wrap32(x) + b) == Wrap32(x + b)
  {
    WrapSub(x, 0, -b);
    assert Wrap32(x - 0) == Wrap32(x);
  }

  predicate IsDigit(c: char) {
    '0' <= c <= '9'
  }

  function DigitValue(c: char): nat
    requires IsDigit(c)
  {
    c as int - '0' as int
  }

  function Digit(d: nat): (c: char)
    requires d < 10
    ensures IsDigit(c) && DigitValue(c) == d
  {
    ('0' as int + d) as char
  }

  /**
   * The value of a non-empty string of ASCII decimal digits, read most
   * significant first; `None` when the string is empty or holds anything else.
   */
  function ParseDigits(s: string): (r: Option<nat>)
    ensures r.Some? ==> |s| > 0
    decreases |s|
  {
    if |s| == 0 then None
    else if !IsDigit(s[|s| - 1]) then None
    else if |s| == 1 then Some(DigitValue(s[0]))
    else
      match ParseDigits(s[..|s| - 1])
      case None => None
      case Some(m) => Some(10 * m + DigitValue(s[|s| - 1]))
  }

  /** A sign applied to parsed digits, kept only when it fits in an `int`. */
  function Signed(d: Option<nat>, negative: bool): (r: Option<int>)
    ensures r.Some? ==> IsInt32(r.value)
  {
    match d
    case None => None
    case Some(m) =>
      var v: int := if negative then 0 - m else m;
      if IsInt32(v) then Some(v) else None
  }

  /**
   * `Integer.parseInt(s)`: an optional `+` or `-` followed by at least one
   * digit, with a value in the `int` range; anything else throws
   * NumberFormatException, here `None`.
   */
  function ParseInt(s: string): (r: Option<int>)
    ensures r.Some? ==> IsInt32(r.value)
    ensures r.Some? ==> |s| > 0
  {
    if |s| == 0 then None
    else if s[0] == '-' then Signed(ParseDigits(s[1..]), true)
    else if s[0] == '+' then Signed(ParseDigits(s[1..]), false)
    else Signed(ParseDigits(s), false)
  }

  /** The decimal digits of `n`, without leading zeros. */
  function NatToString(n: nat): (s: string)
    ensures |s| > 0 && IsDigit(s[0])
    ensures |s| > 1 ==> s[0] != '0'
  {
    if n < 10 then [Digit(n)] else NatToString(n / 10) + [Digit(n % 10)]
  }

  /** The digits of `n` parse back to `n`. */
  lemma {:induction false} ParseNatToString(n: nat)
    ensures ParseDigits(NatToString(n)) == Some(n)
  {
    if n >= 10 {
      var p := NatToString(n / 10);
      var s := p + [Digit(n % 10)];
      assert s[..|s| - 1] == p;
      ParseNatToString(n / 10);
    }
  }

  /** `Integer.toString(x)`: a `-` for negative values, then the digits. */
  function IntToString(x: int): string {
    if x < 0 then "-" + NatToString(-x) else NatToString(x)
  }

  /** The decimal rendering of an `int` parses back to the same `int`. */
  lemma ParseIntToString(x: int)
    requires IsInt32(x)
    ensures ParseInt(IntToString(x)) == Some(x)
  {
    var s := IntToString(x);
    if x < 0 {
      assert s[1..] == NatToString(-x);
      ParseNatToString(-x);
    } else {
      ParseNatToString(x);
    }
  }
}
