/**
 * The pieces of java.lang (and commons-lang) behaviour the model depends on:
 * fixed-width integers, `String.hashCode`, `Long.hashCode`, `Objects.hash`,
 * `Character.isWhitespace`, `StringUtils.isBlank` and string conversion of `null`.
 */
module JavaLang {
  import opened Wrappers


  /** A Java `int`. */
  type Int32 = x: int | -0x8000_0000 <= x < 0x8000_0000

  /** A Java `long` (the value of a non-null `Long`). */
  type Long = x: int | -0x8000_0000_0000_0000 <= x < 0x8000_0000_0000_0000

  /** A UTF-16 code unit (a Java `char`). */
  type CodeUnit = u: int | 0 <= u < 0x1_0000

  /** Java `int` arithmetic: the two's-complement value congruent to `x` modulo 2^32. */
  function WrapInt32(x: int): (r: Int32)
    ensures (x - r) % 0x1_0000_0000 == 0
  {
    var m := x % 0x1_0000_0000;
    if m < 0x8000_0000 then m else m - 0x1_0000_0000
  }

  /** Two integers congruent modulo 2^32 wrap to the same `int`. */
  lemma WrapCongruent(x: int, y: int)
    requires (x - y) % 0x1_0000_0000 == 0
    ensures WrapInt32(x) == WrapInt32(y)
  {
    var q := (x - y) / 0x1_0000_0000;
    assert x == y + q * 0x1_0000_0000;
    assert x % 0x1_0000_0000 == y % 0x1_0000_0000;
  }

  /** The UTF-16 code units of one character, as Java stores it in a `String`. */
  function Utf16(c: char): (us: seq<CodeUnit>)
    ensures 1 <= |us| <= 2
    ensures |us| == 1 <==> (c as int) < 0x1_0000
  {
    var n := c as int;
    if n < 0x1_0000 then [n]
    else
      var v := n - 0x1_0000;
      [0xD800 + v / 0x400, 0xDC00 + v % 0x400]
  }

  /** The UTF-16 code units of a string. */
  function CodeUnits(s: string): (us: seq<CodeUnit>)
    ensures |us| >= |s|
  {
    if s == [] then [] else Utf16(s[0]) + CodeUnits(s[1..])
  }

  /** `String.hashCode`'s loop: `h = 31 * h + unit` over the code units, in `int` arithmetic. */
  function HashUnits(us: seq<CodeUnit>): Int32
  {
    if us == [] then 0
    else WrapInt32(31 * HashUnits(us[..|us| - 1]) + us[|us| - 1])
  }

  /** `String.hashCode`. */
  function StringHash(s: string): Int32
  {
    HashUnits(CodeUnits(s))
  }

  function Pow31(k: nat): (r: nat)
    ensures r >= 1
  {
    if k == 0 then 1 else 31 * Pow31(k - 1)
  }

  /** The documented value of `String.hashCode`: s[0]*31^(n-1) + ... + s[n-1], without overflow. */
  function Polynomial(us: seq<CodeUnit>): int
  {
    if us == [] then 0 else us[0] * Pow31(|us| - 1) + Polynomial(us[1..])
  }

  lemma {:induction false} PolynomialSnoc(p: seq<CodeUnit>, u: CodeUnit)
    ensures Polynomial(p + [u]) == 31 * Polynomial(p) + u
    decreases |p|
  {
    if p == [] {
      assert p + [u] == [u];
    } else {
      var q := p[1..];
      assert (p + [u])[1..] == q + [u];
      PolynomialSnoc(q, u);
      assert Pow31(|q| + 1) == 31 * Pow31(|q|);
      assert p[0] * (31 * Pow31(|q|)) == 31 * (p[0] * Pow31(|q|));
    }
  }

  /** One step of the loop commutes with reduction to an `int`. */
  lemma WrapStep(x: int, u: int)
    ensures WrapInt32(31 * WrapInt32(x) + u) == WrapInt32(31 * x + u)
  {
    var w := WrapInt32(x);
    var d := x - w;
    var q := d / 0x1_0000_0000;
    assert d == q * 0x1_0000_0000;
    assert (31 * x + u) - (31 * w + u) == (31 * q) * 0x1_0000_0000;
    WrapCongruent(31 * x + u, 31 * w + u);
  }

  /** The wrapping loop computes the documented polynomial, reduced to an `int`. */
  lemma {:induction false} HashUnitsIsWrappedPolynomial(us: seq<CodeUnit>)
    ensures HashUnits(us) == WrapInt32(Polynomial(us))
    decreases |us|
  {
    if us == [] {
      assert WrapInt32(0) == 0;
    } else {
      var p := us[..|us| - 1];
      var u := us[|us| - 1];
      assert us == p + [u];
      HashUnitsIsWrappedPolynomial(p);
      PolynomialSnoc(p, u);
      WrapStep(Polynomial(p), u);
    }
  }

  /** Bitwise exclusive or of two naturals. */
  function BitXor(a: nat, b: nat): nat
    decreases a + b
  {
    if a == 0 then b
    else if b == 0 then a
    else 2 * BitXor(a / 2, b / 2) + (if a % 2 == b % 2 then 0 else 1)
  }

  /** `Long.hashCode`: `(int)(value ^ (value >>> 32))`, i.e. the low word xor the high word. */
  function LongHash(v: Long): (r: Int32)
    ensures 0 <= v < 0x8000_0000 ==> r == v
  {
    var bits := v % 0x1_0000_0000_0000_0000;
    WrapInt32(BitXor(bits % 0x1_0000_0000, bits / 0x1_0000_0000))
  }

  /** `Arrays.hashCode` over already-hashed elements: `h = 31 * h + e`, starting from 1. */
  function ObjectsHash(hs: seq<Int32>): Int32
  {
    if hs == [] then 1
    else WrapInt32(31 * ObjectsHash(hs[..|hs| - 1]) + hs[|hs| - 1])
  }

  /** The hash `Objects.hash` uses for a nullable `String`: 0 for `null`. */
  function NullableStringHash(s: Option<string>): Int32
  {
    match s
    case None => 0
    case Some(v) => StringHash(v)
  }

  /** The hash `Objects.hash` uses for a nullable `Long`: 0 for `null`. */
  function NullableLongHash(v: Option<Long>): Int32
  {
    match v
    case None => 0
    case Some(x) => LongHash(x)
  }

  /** `Character.isWhitespace`: Unicode space separators except the no-break ones, plus ASCII controls. */
  predicate IsWhitespace(c: char)
  {
    var n := c as int;
    || 0x09 <= n <= 0x0D
    || 0x1C <= n <= 0x20
    || n == 0x1680
    || 0x2000 <= n <= 0x2006
    || 0x2008 <= n <= 0x200A
    || n == 0x2028 || n == 0x2029 || n == 0x205F || n == 0x3000
  }

  /** `StringUtils.isBlank`: null, empty, or whitespace only. */
  predicate IsBlank(s: Option<string>)
  {
    match s
    case None => true
    case Some(v) => forall i :: 0 <= i < |v| ==> IsWhitespace(v[i])
  }

  /** Java's string conversion of a possibly-null `String`. */
  function NullToString(s: Option<string>): string
  {
    match s
    case None => "null"
    case Some(v) => v
  }
}
