/**
 * The numeric codec of utils.go: rendering unsigned 64-bit integers as
 * decimal text (utos), parsing decimal text back (stou), and comma-joining
 * a list of renderings (joinUints).
 */
module Codec {

  const TwoTo64: nat := 0x1_0000_0000_0000_0000

  /** Go's uint64. */
  type uint64 = x: int | 0 <= x < 0x1_0000_0000_0000_0000

  /** The separator joinUints writes between two renderings. */
  const JoinSep: char := ','

  /** Size of the scratch buffer utos and joinUints fill from the right. */
  const BufferSize: nat := 21

  predicate IsDigit(c: char) {
    '0' <= c <= '9'
  }

  predicate AllDigits(s: string) {
    forall i :: 0 <= i < |s| ==> IsDigit(s[i])
  }

  function DigitValue(c: char): (d: nat)
    requires IsDigit(c)
    ensures d < 10
  {
    (c as int) - ('0' as int)
  }

  function DigitChar(d: nat): (c: char)
    requires d < 10
    ensures IsDigit(c) && DigitValue(c) == d
  {
    (('0' as int) + d) as char
  }

  function Pow10(k: nat): (p: nat)
    ensures p >= 1
  {
    if k == 0 then 1 else 10 * Pow10(k - 1)
  }

  /** The (unbounded) number a digit string denotes, read left to right. */
  function ValueOf(s: string): nat
    requires AllDigits(s)
  {
    if s == [] then 0 else ValueOf(s[..|s| - 1]) * 10 + DigitValue(s[|s| - 1])
  }

  /** The shortest decimal rendering of n: "0" for zero, otherwise no leading zero. */
  function Decimal(n: nat): string
  {
    if n < 10 then [DigitChar(n)] else Decimal(n / 10) + [DigitChar(n % 10)]
  }

  /** The fold stou runs: each step multiplies and adds in uint64 arithmetic, wrapping. */
  function Accumulate(s: string): uint64
    requires AllDigits(s)
  {
    if s == [] then 0
    else ((Accumulate(s[..|s| - 1]) * 10) % TwoTo64 + DigitValue(s[|s| - 1])) % TwoTo64
  }

  /** What stou returns for s: the wrapped value and true, or (0, false) on a non-digit. */
  function Parsed(s: string): (r: (uint64, bool))
    ensures r.1 <==> AllDigits(s)
    ensures r.1 ==> r.0 == ValueOf(s) % TwoTo64
    ensures !r.1 ==> r.0 == 0
  {
    if AllDigits(s) then AccumulateIsValueMod(s); (Accumulate(s), true) else (0, false)
  }

  /** The text joinUints produces: the renderings of u in order, separated by single commas. */
  function Joined(u: seq<uint64>): string
  {
    if u == [] then []
    else if |u| == 1 then Decimal(u[0])
    else Joined(u[..|u| - 1]) + [JoinSep] + Decimal(u[|u| - 1])
  }

  /** Cutting s at every separator, as strings.Split(s, ",") does ("" gives [""]). */
  function Fields(s: string): (r: seq<string>)
    ensures |r| >= 1
  {
    if s == [] then [[]]
    else
      var f := Fields(s[..|s| - 1]);
      if s[|s| - 1] == JoinSep then f + [[]]
      else f[..|f| - 1] + [f[|f| - 1] + [s[|s| - 1]]]
  }

  function Count(s: string, c: char): nat
  {
    if s == [] then 0 else Count(s[..|s| - 1], c) + (if s[|s| - 1] == c then 1 else 0)
  }

  // ----- arithmetic helpers -----

  lemma DivMod10(n: nat)
    ensures n == (n / 10) * 10 + n % 10
  {
  }

  lemma WrapStep(a: int, d: nat)
    ensures ((a % TwoTo64) * 10 % TwoTo64 + d) % TwoTo64 == (a * 10 + d) % TwoTo64
  {
    var q := a / TwoTo64;
    var r := a % TwoTo64;
    assert a == q * TwoTo64 + r;
    var q2 := (r * 10) / TwoTo64;
    var r2 := (r * 10) % TwoTo64;
    assert r * 10 == q2 * TwoTo64 + r2;
    assert a * 10 + d == (q * 10 + q2) * TwoTo64 + (r2 + d);
    ModShift(q * 10 + q2, r2 + d);
  }

  lemma ModShift(k: int, x: int)
    ensures (k * TwoTo64 + x) % TwoTo64 == x % TwoTo64
  {
  }

  // ----- properties of the specification functions -----

  /** The wrapping fold stou runs equals the exact value reduced modulo 2^64. */
  lemma {:induction false} AccumulateIsValueMod(s: string)
    requires AllDigits(s)
    ensures Accumulate(s) == ValueOf(s) % TwoTo64
  {
    if s != [] {
      var p := s[..|s| - 1];
      AccumulateIsValueMod(p);
      WrapStep(ValueOf(p), DigitValue(s[|s| - 1]));
    }
  }

  /** Every rendering is a non-empty digit string denoting n. */
  lemma {:induction false} DecimalDigits(n: nat)
    ensures |Decimal(n)| >= 1 && AllDigits(Decimal(n))
    ensures ValueOf(Decimal(n)) == n
  {
    if n >= 10 {
      DecimalDigits(n / 10);
      var p := Decimal(n / 10);
      var s := p + [DigitChar(n % 10)];
      assert s[..|s| - 1] == p;
      DivMod10(n);
    }
  }

  /** Every rendering is canonical: "0" exactly for zero, otherwise no leading zero. */
  lemma {:induction false} DecimalWellFormed(n: nat)
    ensures |Decimal(n)| >= 1 && AllDigits(Decimal(n))
    ensures Decimal(n) == "0" <==> n == 0
    ensures n > 0 ==> Decimal(n)[0] != '0'
    ensures ValueOf(Decimal(n)) == n
  {
    DecimalDigits(n);
    if n >= 10 {
      DecimalWellFormed(n / 10);
      var p := Decimal(n / 10);
      assert Decimal(n) == p + [DigitChar(n % 10)];
      assert Decimal(n)[0] == p[0];
    }
  }

  /** A rendering needs k digits at most exactly when n is below 10^k. */
  lemma {:induction false} DecimalLength(n: nat, k: nat)
    requires k >= 1
    ensures |Decimal(n)| <= k <==> n < Pow10(k)
  {
    if n >= 10 {
      if k == 1 {
        assert |Decimal(n)| >= 2 by { DecimalDigits(n / 10); }
      } else {
        DecimalLength(n / 10, k - 1);
      }
    }
  }

  /** No uint64 needs more than 20 digits, so a 21-byte buffer always leaves a spare slot. */
  lemma Uint64Digits(n: uint64)
    ensures 1 <= |Decimal(n)| <= BufferSize - 1
  {
    Pow10Twenty();
    DecimalLength(n, 20);
    DecimalDigits(n);
  }

  lemma Pow10Twenty()
    ensures Pow10(20) == 100000000000000000000
  {
    assert Pow10(5) == 100000;
    assert Pow10(10) == 10000000000;
    assert Pow10(15) == 1000000000000000;
  }

  /** utos and stou round-trip on every uint64. */
  lemma RoundTrip(n: uint64)
    ensures Parsed(Decimal(n)) == (n, true)
  {
    DecimalDigits(n);
    assert ValueOf(Decimal(n)) == n;
    assert n % TwoTo64 == n;
  }

  /** A canonical digit string is the rendering of the value it denotes. */
  lemma {:induction false} CanonicalIsDecimal(s: string)
    requires AllDigits(s) && |s| >= 1
    requires s[0] == '0' ==> s == "0"
    ensures Decimal(ValueOf(s)) == s
  {
    if |s| > 1 {
      var p := s[..|s| - 1];
      assert p[0] == s[0];
      CanonicalIsDecimal(p);
      DecimalDigits(ValueOf(p));
      assert ValueOf(p) > 0;
      var n := ValueOf(s);
      assert n / 10 == ValueOf(p) && n % 10 == DigitValue(s[|s| - 1]);
      assert s == p + [s[|s| - 1]];
    }
  }

  /** A leading zero does not change what stou returns (there is no leading-zero check). */
  lemma {:induction false} LeadingZeroIgnored(s: string)
    ensures Parsed("0" + s) == Parsed(s)
  {
    if AllDigits(s) {
      LeadingZeroValue(s);
    } else {
      var i :| 0 <= i < |s| && !IsDigit(s[i]);
      assert ("0" + s)[i + 1] == s[i];
    }
  }

  lemma {:induction false} LeadingZeroValue(s: string)
    requires AllDigits(s)
    ensures AllDigits("0" + s) && ValueOf("0" + s) == ValueOf(s)
  {
    if s != [] {
      var p := s[..|s| - 1];
      LeadingZeroValue(p);
      assert ("0" + s)[..|"0" + s| - 1] == "0" + p;
    }
  }

  /** Cutting A + B, where B holds no separator, extends the last field of A by B. */
  lemma {:induction false} FieldsAppendPlain(a: string, b: string)
    requires JoinSep !in b
    ensures var f := Fields(a);
            Fields(a + b) == f[..|f| - 1] + [f[|f| - 1] + b]
  {
    if b == [] {
      var f := Fields(a);
      assert a + b == a;
      assert f[|f| - 1] + b == f[|f| - 1];
      assert f[..|f| - 1] + [f[|f| - 1]] == f;
    } else {
      var b' := b[..|b| - 1];
      var c := b[|b| - 1];
      assert c != JoinSep by { assert c in b; }
      FieldsAppendPlain(a, b');
      assert (a + b)[..|a + b| - 1] == a + b';
      assert (a + b)[|a + b| - 1] == c;
      var f := Fields(a);
      var g := Fields(a + b');
      assert g == f[..|f| - 1] + [f[|f| - 1] + b'];
      assert g[..|g| - 1] == f[..|f| - 1];
      assert g[|g| - 1] + [c] == f[|f| - 1] + b;
    }
  }

  lemma DecimalHasNoSep(n: nat)
    ensures JoinSep !in Decimal(n)
  {
    DecimalDigits(n);
  }

  /** A separator followed by separator-free text adds exactly that text as a new field. */
  lemma FieldsAfterSep(a: string, d: string)
    requires JoinSep !in d
    ensures Fields(a + [JoinSep] + d) == Fields(a) + [d]
  {
    var a' := a + [JoinSep];
    assert a'[..|a'| - 1] == a;
    FieldsAppendPlain(a', d);
    var fa := Fields(a');
    assert fa[..|fa| - 1] == Fields(a) && fa[|fa| - 1] == [];
    assert [] + d == d;
  }

  /** Splitting the joined text on ',' gives back the renderings, one field per item, in order. */
  lemma {:induction false} JoinedFields(u: seq<uint64>)
    requires |u| >= 1
    ensures Fields(Joined(u)) == seq(|u|, i requires 0 <= i < |u| => Decimal(u[i]))
  {
    var x := u[|u| - 1];
    DecimalHasNoSep(x);
    if |u| == 1 {
      FieldsAppendPlain([], Decimal(x));
      assert [] + Decimal(x) == Decimal(x);
    } else {
      var p := u[..|u| - 1];
      JoinedFields(p);
      assert Joined(u) == Joined(p) + [JoinSep] + Decimal(x);
      FieldsAfterSep(Joined(p), Decimal(x));
      var fp := seq(|p|, i requires 0 <= i < |p| => Decimal(p[i]));
      var fu := seq(|u|, i requires 0 <= i < |u| => Decimal(u[i]));
      assert fu == fp + [Decimal(x)] by {
        forall i | 0 <= i < |u|
          ensures fu[i] == (fp + [Decimal(x)])[i]
        {
          if i < |p| {
            assert p[i] == u[i];
          }
        }
      }
    }
  }

  /** A text with c commas splits into c + 1 fields. */
  lemma {:induction false} FieldsCount(s: string)
    ensures |Fields(s)| == Count(s, JoinSep) + 1
  {
    if s != [] {
      FieldsCount(s[..|s| - 1]);
    }
  }

  /** The joined text holds exactly |u| - 1 commas, and each field parses back to its item. */
  lemma JoinedRoundTrip(u: seq<uint64>)
    requires |u| >= 1
    ensures Count(Joined(u), JoinSep) == |u| - 1
    ensures |Fields(Joined(u))| == |u|
    ensures forall i :: 0 <= i < |u| ==> Parsed(Fields(Joined(u))[i]) == (u[i], true)
  {
    JoinedFields(u);
    FieldsCount(Joined(u));
    forall i | 0 <= i < |u|
      ensures Parsed(Fields(Joined(u))[i]) == (u[i], true)
    {
      RoundTrip(u[i]);
    }
  }

  // ----- the code of utils.go -----

  /**
   * The digit loop shared by utos and joinUints: writes the digits of num
   * downwards from the end of the buffer and returns where they start.
   */
  method FillDigits(digits: array<char>, num: uint64) returns (pos: nat)
    requires digits.Length == BufferSize && num > 0
    modifies digits
    ensures 1 <= pos < BufferSize
    ensures digits[pos..] == Decimal(num)
    ensures forall j :: 0 <= j < pos ==> digits[j] == old(digits[j])
  {
    Uint64Digits(num);
    pos := BufferSize;
    var n: nat := num;
    while n > 0
      invariant pos <= BufferSize
      invariant (if n > 0 then Decimal(n) else []) + digits[pos..] == Decimal(num)
      invariant forall j :: 0 <= j < pos ==> digits[j] == old(digits[j])
      decreases n
    {
      ghost var done := digits[pos..];
      DivMod10(n);
      assert n >= 10 ==> Decimal(n) == Decimal(n / 10) + [DigitChar(n % 10)];
      assert pos >= 1 by {
        assert |Decimal(n)| + |done| <= BufferSize - 1;
        DecimalDigits(n);
      }
      pos := pos - 1;
      digits[pos] := DigitChar(n % 10);
      assert digits[pos..] == [DigitChar(n % 10)] + done;
      n := n / 10;
    }
  }

  /** utos: the decimal rendering of num. */
  method Utos(num: uint64) returns (s: string)
    ensures s == Decimal(num)
  {
    if num == 0 {
      return "0";
    }
    var digits := new char[BufferSize];
    var pos := FillDigits(digits, num);
    s := digits[pos..];
  }

  /** stou: the wrapped left-to-right value of str, or (0, false) at the first non-digit. */
  method Stou(str: string) returns (num: uint64, ok: bool)
    ensures ok <==> AllDigits(str)
    ensures ok ==> num == ValueOf(str) % TwoTo64
    ensures !ok ==> num == 0
    ensures (num, ok) == Parsed(str)
  {
    num := 0;
    var i := 0;
    while i < |str|
      invariant 0 <= i <= |str|
      invariant AllDigits(str[..i])
      invariant num == Accumulate(str[..i])
    {
      var c := str[i];
      if c > '9' || c < '0' {
        return 0, false;
      }
      assert str[..i + 1][..i] == str[..i];
      num := (num * 10) % TwoTo64;
      num := (num + DigitValue(c)) % TwoTo64;
      i := i + 1;
    }
    assert str[..i] == str;
    ok := true;
    AccumulateIsValueMod(str);
  }

  /** joinUints: the renderings of u joined by commas, built in one growing buffer. */
  method JoinUints(u: seq<uint64>) returns (s: string)
    ensures s == Joined(u)
  {
    s := [];
    var digits := new char[BufferSize];
    for n := 0 to |u|
      invariant s == Joined(u[..n])
    {
      assert u[..n + 1][..n] == u[..n];
      if n > 0 {
        s := s + [JoinSep];
      }
      var num := u[n];
      if num == 0 {
        s := s + ['0'];
      } else {
        var pos := FillDigits(digits, num);
        s := s + digits[pos..];
      }
    }
    assert u[..|u|] == u;
  }
}
