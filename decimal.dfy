/** Decimal text: digits, `String(n)`, `padStart(width, '0')` and
    `parseFloat`. */
module Decimal {
  import opened JsValues
  import Text

  predicate IsDigit(c: char)
  {
    '0' <= c <= '9'
  }

  predicate AllDigits(s: string)
  {
    forall i :: 0 <= i < |s| ==> IsDigit(s[i])
  }

  function DigitValue(c: char): nat
    requires IsDigit(c)
  {
    c as int - '0' as int
  }

  function DigitChar(d: nat): (c: char)
    requires d < 10
    ensures IsDigit(c) && DigitValue(c) == d
  {
    (d + '0' as int) as char
  }

  /** The number a string of decimal digits denotes; the empty string denotes 0. */
  function Value(s: string): nat
    requires AllDigits(s)
  {
    if s == [] then 0 else Value(s[..|s| - 1]) * 10 + DigitValue(s[|s| - 1])
  }

  function Pow10(k: nat): (p: nat)
    ensures p >= 1
  {
    if k == 0 then 1 else 10 * Pow10(k - 1)
  }

  /** `String(n)` for a natural number: its decimal digits, with no leading
      zero, and they denote `n`. */
  function FromNat(n: nat): (s: string)
    ensures AllDigits(s) && s != []
    ensures Value(s) == n
    ensures s[0] == '0' ==> n == 0
  {
    if n < 10 then [DigitChar(n)]
    else
      var s := FromNat(n / 10) + [DigitChar(n % 10)];
      assert s[..|s| - 1] == FromNat(n / 10);
      s
  }

  /** A number below `10^k` has at most `k` digits. */
  lemma {:induction false} FromNatLength(n: nat, k: nat)
    requires 1 <= k && n < Pow10(k)
    ensures |FromNat(n)| <= k
  {
    if n >= 10 {
      FromNatLength(n / 10, k - 1);
    }
  }

  /** A digit string without a leading zero is what `String` writes for the
      number it denotes. */
  lemma {:induction false} FromNatValue(s: string)
    requires AllDigits(s) && s != [] && s[0] != '0'
    ensures FromNat(Value(s)) == s
  {
    var n := Value(s);
    if |s| == 1 {
      assert s[..0] == [] && Value(s[..0]) == 0;
      assert n == DigitValue(s[0]);
      assert FromNat(n) == [DigitChar(n)];
    } else {
      var p := s[..|s| - 1];
      var d := DigitValue(s[|s| - 1]);
      ValuePositive(p);
      FromNatValue(p);
      assert n == Value(p) * 10 + d;
      assert n / 10 == Value(p) && n % 10 == d;
      assert DigitChar(d) == s[|s| - 1];
      assert FromNat(n) == FromNat(Value(p)) + [DigitChar(d)];
      assert s == p + [s[|s| - 1]];
    }
  }

  lemma {:induction false} ValuePositive(s: string)
    requires AllDigits(s) && s != [] && s[0] != '0'
    ensures Value(s) >= 1
  {
    if |s| > 1 {
      ValuePositive(s[..|s| - 1]);
    }
  }

  function Zeros(k: nat): (z: string)
    ensures |z| == k && AllDigits(z)
    ensures forall i :: 0 <= i < k ==> z[i] == '0'
  {
    seq(k, _ => '0')
  }

  /** Leading zeros do not change the number denoted. */
  lemma {:induction false} ValueLeadingZeros(k: nat, s: string)
    requires AllDigits(s)
    ensures Value(Zeros(k) + s) == Value(s)
  {
    if s == [] {
      assert Zeros(k) + s == Zeros(k);
      ValueZeros(k);
    } else {
      var last := s[|s| - 1];
      ValueLeadingZeros(k, s[..|s| - 1]);
      assert (Zeros(k) + s)[..|Zeros(k) + s| - 1] == Zeros(k) + s[..|s| - 1];
    }
  }

  lemma {:induction false} ValueZeros(k: nat)
    ensures Value(Zeros(k)) == 0
  {
    if k > 0 {
      ValueZeros(k - 1);
      assert Zeros(k)[..k - 1] == Zeros(k - 1);
    }
  }

  /** `String(n).padStart(width, '0')`: the digits of `n`, widened with
      leading zeros to `width` characters when `n` fits in them. */
  function ZeroPad(n: nat, width: nat): (s: string)
    ensures AllDigits(s) && Value(s) == n
    ensures 1 <= width && n < Pow10(width) ==> |s| == width
  {
    var d := FromNat(n);
    if |d| >= width then
      assert 1 <= width && n < Pow10(width) ==> |d| <= width by {
        if 1 <= width && n < Pow10(width) { FromNatLength(n, width); }
      }
      d
    else
      ValueLeadingZeros(width - |d|, d);
      Zeros(width - |d|) + d
  }

  /** The longest prefix of `s` made of digits. */
  function DigitPrefix(s: string): (r: string)
    ensures AllDigits(r) && |r| <= |s| && r == s[..|r|]
    ensures |r| < |s| ==> !IsDigit(s[|r|])
  {
    if s != [] && IsDigit(s[0]) then [s[0]] + DigitPrefix(s[1..]) else []
  }

  /** `parseFloat(s)`: after leading white space, an optional sign, digits,
      and an optional fraction; whatever follows is ignored. `NaN` when no
      digit is found. Exponents and `Infinity` are not modelled. */
  function ParseFloat(s: string): (r: Val)
    ensures r.Num? || r == NaN
  {
    ParseSigned(Text.TrimStart(s))
  }

  /** The sign, then the unsigned decimal. */
  function ParseSigned(t: string): (r: Val)
    ensures r.Num? || r == NaN
  {
    var negative := t != [] && t[0] == '-';
    var body := if t != [] && (t[0] == '-' || t[0] == '+') then t[1..] else t;
    match ParseUnsigned(body)
    case None => NaN
    case Some(magnitude) => Num(if negative then -magnitude else magnitude)
  }

  /** Digits and an optional fraction; `None` when neither has a digit. */
  function ParseUnsigned(body: string): Option<real>
  {
    var whole := DigitPrefix(body);
    var rest := body[|whole|..];
    var fraction := if rest != [] && rest[0] == '.' then DigitPrefix(rest[1..]) else [];
    if whole == [] && fraction == [] then None
    else Some(Value(whole) as real + Value(fraction) as real / Pow10(|fraction|) as real)
  }

  /** `parseFloat(v)` of any value: a number stands for itself; `undefined`,
      `null`, booleans and `NaN` are written out as words, which parse to `NaN`. */
  function ParseFloatOf(v: Val): (r: Val)
    ensures r.Num? || r == NaN
    ensures v.Num? ==> r == v
    ensures !v.Num? && !v.Str? ==> r == NaN
  {
    match v
    case Str(s) => ParseFloat(s)
    case Num(_) => v
    case _ => NaN
  }

  /** `parseFloat(String(n))` gives `n` back. */
  lemma ParseFloatFromNat(n: nat)
    ensures ParseFloat(FromNat(n)) == Num(n as real)
  {
    ParseFloatDigits(FromNat(n));
  }

  /** A non-empty digit string parses to its value. */
  lemma ParseFloatDigits(s: string)
    requires AllDigits(s) && s != []
    ensures ParseFloat(s) == Num(Value(s) as real)
  {
    TrimStartDigits(s);
    ParseFloatTrimmed(s);
    ParseSignedDigits(s);
  }

  lemma TrimStartDigits(s: string)
    requires AllDigits(s) && s != []
    ensures Text.TrimStart(s) == s
  {
    assert IsDigit(s[0]);
  }

  lemma ParseFloatTrimmed(s: string)
    requires Text.TrimStart(s) == s
    ensures ParseFloat(s) == ParseSigned(s)
  {
  }

  lemma ParseSignedDigits(s: string)
    requires AllDigits(s) && s != []
    ensures ParseSigned(s) == Num(Value(s) as real)
  {
    assert IsDigit(s[0]);
    UnsignedDigits(s);
  }

  lemma UnsignedDigits(s: string)
    requires AllDigits(s) && s != []
    ensures ParseUnsigned(s) == Some(Value(s) as real)
  {
    DigitPrefixAll(s);
    assert s[|s|..] == [];
  }

  lemma {:induction false} DigitPrefixAll(s: string)
    requires AllDigits(s)
    ensures DigitPrefix(s) == s
  {
    if s != [] {
      DigitPrefixAll(s[1..]);
      assert s == [s[0]] + s[1..];
    }
  }

  /** What `parseFloat` reads its number from: the string after leading
      white space and one sign. */
  function Body(s: string): (r: string)
    ensures |r| <= |s|
  {
    var t := Text.TrimStart(s);
    if t != [] && (t[0] == '-' || t[0] == '+') then t[1..] else t
  }

  /** A number starts here: a digit, or a point followed by a digit. */
  predicate StartsNumber(b: string)
  {
    (b != [] && IsDigit(b[0])) || (|b| >= 2 && b[0] == '.' && IsDigit(b[1]))
  }

  /** `parseFloat(s)` is `NaN` exactly when no number starts after the
      leading white space and sign, as with "x5", "-a1" or ". 5". */
  lemma ParseFloatNaN(s: string)
    ensures ParseFloat(s) == NaN <==> !StartsNumber(Body(s))
  {
    UnsignedNone(Body(s));
  }

  lemma UnsignedNone(b: string)
    ensures ParseUnsigned(b).None? <==> !StartsNumber(b)
  {
    var whole := DigitPrefix(b);
    assert whole == [] <==> !(b != [] && IsDigit(b[0]));
    if whole == [] {
      assert b[|whole|..] == b;
      if b != [] && b[0] == '.' {
        assert DigitPrefix(b[1..]) == [] <==> !(|b| >= 2 && IsDigit(b[1])) by {
          assert |b| >= 2 ==> b[1..][0] == b[1];
        }
      }
    }
  }

  predicate NoDigits(s: string)
  {
    forall i :: 0 <= i < |s| ==> !IsDigit(s[i])
  }

  /** A string with no digit at all, like the empty input, parses to `NaN`. */
  lemma ParseFloatNoDigits(s: string)
    requires NoDigits(s)
    ensures ParseFloat(s) == NaN
  {
    var t := Text.TrimStart(s);
    assert NoDigits(t) by {
      forall i | 0 <= i < |t| ensures !IsDigit(t[i]) {
        assert t[i] == s[|s| - |t| + i];
      }
    }
    SignedNoDigits(t);
  }

  lemma SignedNoDigits(t: string)
    requires NoDigits(t)
    ensures ParseSigned(t) == NaN
  {
    var body := if t != [] && (t[0] == '-' || t[0] == '+') then t[1..] else t;
    assert NoDigits(body) by {
      forall i | 0 <= i < |body| ensures !IsDigit(body[i]) {
        assert body[i] == t[|t| - |body| + i];
      }
    }
    UnsignedNoDigits(body);
  }

  lemma UnsignedNoDigits(body: string)
    requires NoDigits(body)
    ensures ParseUnsigned(body) == None
  {
    assert DigitPrefix(body) == [] by {
      assert body != [] ==> !IsDigit(body[0]);
    }
    assert body[0..] == body;
    if body != [] && body[0] == '.' {
      assert DigitPrefix(body[1..]) == [] by {
        assert |body| > 1 ==> body[1..][0] == body[1];
      }
    }
  }

  /** Digit strings of the same length that denote the same number are
      the same string. */
  lemma {:induction false} ValueInjective(a: string, b: string)
    requires AllDigits(a) && AllDigits(b) && |a| == |b| && Value(a) == Value(b)
    ensures a == b
  {
    if a != [] {
      var n := |a| - 1;
      assert AllDigits(a[..n]) && AllDigits(b[..n]);
      var x, y := Value(a[..n]), Value(b[..n]);
      var da, db := DigitValue(a[n]), DigitValue(b[n]);
      assert x * 10 + da == y * 10 + db;
      assert da == db && x == y by {
        DivideByTen(x, da);
        DivideByTen(y, db);
      }
      ValueInjective(a[..n], b[..n]);
      assert a[n] == b[n];
      assert a == a[..n] + [a[n]] && b == b[..n] + [b[n]];
    }
  }

  lemma DivideByTen(x: nat, d: nat)
    requires d < 10
    ensures (x * 10 + d) / 10 == x && (x * 10 + d) % 10 == d
  {
  }
}
