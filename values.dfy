/**
 * Python values as the record store handles them, and the conversions it
 * applies to them: int(), float(), str(), truthiness (`x or 0`), `==`,
 * str.strip() and dict.get().
 *
 * A Python float is modelled as an exact whole number of cents, so that all
 * money arithmetic of the store is exact.
 */
module Values {

  datatype Option<+T> = None | Some(value: T)

  /** A Python value as a caller passes it or a record holds it. */
  datatype Value = Null | Int(i: int) | Dec(cents: int) | Text(s: string)

  /** `d.get(k, default)` */
  function Get<K, V>(m: map<K, V>, k: K, default: V): V
  {
    if k in m then m[k] else default
  }

  // ---------------------------------------------------------------------
  // str.strip()
  // ---------------------------------------------------------------------

  /**
   * The characters str.isspace() accepts, which str.strip(), int() and float()
   * remove: ASCII whitespace, the separators U+001C to U+001F, U+0085, and the
   * Unicode space and line separators.
   */
  predicate IsSpace(c: char)
  {
    || c == ' ' || ('\t' <= c <= '\r') || ('\U{001C}' <= c <= '\U{001F}')
    || c == '\U{0085}' || c == '\U{00A0}' || c == '\U{1680}'
    || ('\U{2000}' <= c <= '\U{200A}') || c == '\U{2028}' || c == '\U{2029}'
    || c == '\U{202F}' || c == '\U{205F}' || c == '\U{3000}'
  }

  /** Drops leading whitespace. */
  function TrimLeft(s: string): (r: string)
    ensures |r| <= |s|
  {
    if s != [] && IsSpace(s[0]) then TrimLeft(s[1..]) else s
  }

  /** Drops trailing whitespace. */
  function TrimRight(s: string): (r: string)
    ensures |r| <= |s|
  {
    if s != [] && IsSpace(s[|s| - 1]) then TrimRight(s[..|s| - 1]) else s
  }

  /** `s.strip()` */
  function Trim(s: string): string
  {
    TrimRight(TrimLeft(s))
  }

  /** TrimLeft keeps the suffix of `s` that starts at its first non-space. */
  lemma {:induction false} TrimLeftShape(s: string)
    ensures TrimLeft(s) == s[|s| - |TrimLeft(s)|..]
    ensures TrimLeft(s) == [] || !IsSpace(TrimLeft(s)[0])
    ensures forall i :: 0 <= i < |s| - |TrimLeft(s)| ==> IsSpace(s[i])
  {
    if s != [] && IsSpace(s[0]) {
      TrimLeftShape(s[1..]);
      assert forall i :: 1 <= i < |s| ==> s[i] == s[1..][i - 1];
    }
  }

  /** TrimRight keeps the prefix of `s` that ends at its last non-space. */
  lemma {:induction false} TrimRightShape(s: string)
    ensures TrimRight(s) == s[..|TrimRight(s)|]
    ensures TrimRight(s) == [] || !IsSpace(TrimRight(s)[|TrimRight(s)| - 1])
    ensures forall i :: |TrimRight(s)| <= i < |s| ==> IsSpace(s[i])
  {
    if s != [] && IsSpace(s[|s| - 1]) {
      TrimRightShape(s[..|s| - 1]);
    }
  }

  /** A string with no whitespace at either end is its own strip(). */
  lemma TrimUnpadded(s: string)
    requires Unpadded(s)
    ensures Trim(s) == s
  {
  }

  /** No whitespace at either end. */
  predicate Unpadded(s: string)
  {
    s == [] || (!IsSpace(s[0]) && !IsSpace(s[|s| - 1]))
  }

  /** What strip() returns has no whitespace left at either end. */
  lemma TrimUnpads(s: string)
    ensures Unpadded(Trim(s))
  {
    var l := TrimLeft(s);
    var t := TrimRight(l);
    TrimLeftShape(s);
    TrimRightShape(l);
    if t != [] {
      assert t[0] == l[0];
    }
  }

  /** strip() is idempotent, so a trimmed field stays as it is when trimmed again. */
  lemma TrimIdempotent(s: string)
    ensures Trim(Trim(s)) == Trim(s)
  {
    TrimUnpads(s);
    TrimUnpadded(Trim(s));
  }

  // ---------------------------------------------------------------------
  // Decimal digits
  // ---------------------------------------------------------------------

  predicate IsDigit(c: char)
  {
    '0' <= c <= '9'
  }

  predicate AllDigits(s: string)
  {
    forall i :: 0 <= i < |s| ==> IsDigit(s[i])
  }

  function DigitValue(c: char): nat
    requires IsDigit(c)
  {
    c as int - '0' as int
  }

  function DigitChar(d: nat): (c: char)
    requires d < 10
    ensures IsDigit(c) && DigitValue(c) == d
  {
    ('0' as int + d) as char
  }

  /** The number a string of decimal digits denotes (most significant first). */
  function DigitsValue(s: string): nat
    requires AllDigits(s)
  {
    if s == [] then 0 else DigitsValue(s[..|s| - 1]) * 10 + DigitValue(s[|s| - 1])
  }

  /** The shortest decimal spelling of `n`; reading it back gives `n`. */
  function FormatNat(n: nat): (r: string)
    ensures |r| > 0 && AllDigits(r)
    ensures DigitsValue(r) == n
    ensures n == 0 ==> r == "0"
    ensures n > 0 ==> r[0] != '0'
  {
    if n < 10 then [DigitChar(n)]
    else
      var r := FormatNat(n / 10) + [DigitChar(n % 10)];
      assert r[..|r| - 1] == FormatNat(n / 10);
      r
  }

  // ---------------------------------------------------------------------
  // int(text) and str(int)
  // ---------------------------------------------------------------------

  /** An optional sign followed by at least one digit, nothing else. */
  function ParseSignedDigits(t: string): Option<int>
  {
    if |t| > 1 && (t[0] == '-' || t[0] == '+') && AllDigits(t[1..]) then
      var n: int := DigitsValue(t[1..]);
      Some(if t[0] == '-' then -n else n)
    else if |t| > 0 && AllDigits(t) then
      Some(DigitsValue(t))
    else
      None
  }

  /** `int(s)` for a str: surrounding whitespace is ignored; None models the ValueError. */
  function ParseInt(s: string): Option<int>
  {
    ParseSignedDigits(Trim(s))
  }

  /** `str(n)` for an int. */
  function FormatInt(n: int): string
  {
    if n < 0 then "-" + FormatNat(-n) else FormatNat(n)
  }

  /** Writing an int and reading it back gives the same int. */
  lemma ParseFormatInt(n: int)
    ensures ParseInt(FormatInt(n)) == Some(n)
  {
    var t := FormatInt(n);
    var d := FormatNat(if n < 0 then -n else n);
    assert IsDigit(t[|t| - 1]);
    assert !IsSpace(t[0]) && !IsSpace(t[|t| - 1]);
    TrimUnpadded(t);
    if n < 0 {
      assert t[1..] == d;
    } else {
      assert t[0] != '-' && t[0] != '+';
    }
  }

  // ---------------------------------------------------------------------
  // float(text) and str(float), on cents
  // ---------------------------------------------------------------------

  /** The first position of `c` in `s`. */
  function IndexOf(s: string, c: char): (r: Option<nat>)
    ensures r.Some? ==> r.value < |s| && s[r.value] == c && c !in s[..r.value]
    ensures r.None? ==> c !in s
  {
    if s == [] then None
    else if s[0] == c then Some(0)
    else
      match IndexOf(s[1..], c)
      case None => None
      case Some(k) =>
        assert s[..k + 1] == [s[0]] + s[1..][..k];
        Some(k + 1)
  }

  /** The cents a string of fractional digits contributes: its first two digits, padded. */
  function FractionCents(f: string): (r: nat)
    requires AllDigits(f)
    ensures r < 100
  {
    if |f| == 0 then 0
    else if |f| == 1 then DigitValue(f[0]) * 10
    else DigitValue(f[0]) * 10 + DigitValue(f[1])
  }

  /** A decimal without sign: digits, optionally a point and more digits, at least one digit in all. */
  function ParseUnsignedDecimal(t: string): Option<nat>
  {
    match IndexOf(t, '.')
    case None =>
      if |t| > 0 && AllDigits(t) then Some(DigitsValue(t) * 100) else None
    case Some(k) =>
      var whole, frac := t[..k], t[k + 1..];
      if |whole| + |frac| > 0 && AllDigits(whole) && AllDigits(frac) then
        Some(DigitsValue(whole) * 100 + FractionCents(frac))
      else None
  }

  /** An optional sign followed by an unsigned decimal, nothing else; in cents. */
  function ParseSignedDecimal(t: string): Option<int>
  {
    if |t| > 0 && (t[0] == '-' || t[0] == '+') then
      match ParseUnsignedDecimal(t[1..])
      case None => None
      case Some(c) =>
        var n: int := c;
        Some(if t[0] == '-' then -n else n)
    else ParseUnsignedDecimal(t)
  }

  /** `float(s)` for a str, in cents: surrounding whitespace is ignored; None models the ValueError. */
  function ParseCents(s: string): Option<int>
  {
    ParseSignedDecimal(Trim(s))
  }

  /** The fractional digits `str` prints for a float with `f` hundredths: "0", "5", "05", "25". */
  function FractionText(f: nat): (r: string)
    requires f < 100
    ensures 0 < |r| <= 2 && AllDigits(r) && FractionCents(r) == f
  {
    if f % 10 == 0 then [DigitChar(f / 10)] else [DigitChar(f / 10), DigitChar(f % 10)]
  }

  /** `str(x)` for a non-negative float of `m` cents. */
  function CentsText(m: nat): (r: string)
    ensures |r| > 0 && IsDigit(r[0]) && IsDigit(r[|r| - 1])
  {
    var w, f := FormatNat(m / 100), FractionText(m % 100);
    assert (w + "." + f)[0] == w[0];
    w + "." + f
  }

  /** `str(x)` for a float of `c` cents: "9.5", "9.0", "10.25", "-0.05". */
  function FormatCents(c: int): string
  {
    if c < 0 then "-" + CentsText(-c) else CentsText(c)
  }

  /** The first `c` in `a + [c] + b` is the one after `a` when `a` has none. */
  lemma {:induction false} IndexOfAfter(a: string, c: char, b: string)
    requires c !in a
    ensures IndexOf(a + [c] + b, c) == Some(|a|)
  {
    if a != [] {
      assert (a + [c] + b)[1..] == a[1..] + [c] + b;
      IndexOfAfter(a[1..], c, b);
    }
  }

  lemma ParseUnsignedFormat(m: nat)
    ensures ParseUnsignedDecimal(CentsText(m)) == Some(m)
  {
    var w, f := FormatNat(m / 100), FractionText(m % 100);
    var t := w + "." + f;
    assert t == CentsText(m);
    assert '.' !in w by {
      forall i | 0 <= i < |w| ensures w[i] != '.' {
        assert IsDigit(w[i]);
      }
    }
    IndexOfAfter(w, '.', f);
    assert t[..|w|] == w;
    assert t[|w| + 1..] == f;
    assert DigitsValue(w) * 100 + FractionCents(f) == m;
  }

  lemma SignedOfNegative(t: string, m: nat)
    requires |t| > 0 && t[0] == '-' && ParseUnsignedDecimal(t[1..]) == Some(m)
    ensures ParseSignedDecimal(t) == Some(-(m as int))
  {
  }

  lemma SignedOfUnsigned(t: string)
    requires |t| > 0 && IsDigit(t[0])
    ensures ParseSignedDecimal(t) == ParseUnsignedDecimal(t)
  {
  }

  lemma ParseSignedFormat(c: int)
    ensures ParseSignedDecimal(FormatCents(c)) == Some(c)
  {
    var t := FormatCents(c);
    if c < 0 {
      ParseUnsignedFormat(-c);
      assert t[1..] == CentsText(-c);
      SignedOfNegative(t, -c);
    } else {
      ParseUnsignedFormat(c);
      SignedOfUnsigned(t);
    }
  }

  /** Writing a float and reading it back gives the same amount. */
  lemma ParseFormatCents(c: int)
    ensures ParseCents(FormatCents(c)) == Some(c)
  {
    var t := FormatCents(c);
    assert !IsSpace(t[0]) && !IsSpace(t[|t| - 1]);
    TrimUnpadded(t);
    ParseSignedFormat(c);
  }

  // ---------------------------------------------------------------------
  // Conversions of dynamic values
  // ---------------------------------------------------------------------

  /** Python truthiness: None, 0, 0.0 and "" are false. */
  predicate Truthy(v: Value)
  {
    match v
    case Null => false
    case Int(i) => i != 0
    case Dec(c) => c != 0
    case Text(s) => s != ""
  }

  /** `v or 0` */
  function OrZero(v: Value): (r: Value)
    ensures Truthy(v) ==> r == v
    ensures !Truthy(v) ==> r == Int(0)
  {
    if Truthy(v) then v else Int(0)
  }

  /** `int(x)` of a float of `c` cents: truncation toward zero. */
  function TruncateCents(c: int): (r: int)
    ensures c >= 0 ==> r >= 0 && r * 100 <= c < r * 100 + 100
    ensures c < 0 ==> r <= 0 && r * 100 - 100 < c <= r * 100
  {
    if c >= 0 then c / 100 else -((-c) / 100)
  }

  /** `int(v)`; None models the ValueError or TypeError it raises. */
  function ToInt(v: Value): Option<int>
  {
    match v
    case Null => None
    case Int(i) => Some(i)
    case Dec(c) => Some(TruncateCents(c))
    case Text(s) => ParseInt(s)
  }

  /** `float(v)` in cents; None models the ValueError or TypeError it raises. */
  function ToFloat(v: Value): Option<int>
  {
    match v
    case Null => None
    case Int(i) => Some(i * 100)
    case Dec(c) => Some(c)
    case Text(s) => ParseCents(s)
  }

  /** `str(v)` */
  function Str(v: Value): string
  {
    match v
    case Null => "None"
    case Int(i) => FormatInt(i)
    case Dec(c) => FormatCents(c)
    case Text(s) => s
  }

  /** Python `a == b`: an int and a float compare by value, other kinds never equal. */
  predicate PyEq(a: Value, b: Value)
  {
    match (a, b)
    case (Null, Null) => true
    case (Int(x), Int(y)) => x == y
    case (Int(x), Dec(c)) => x * 100 == c
    case (Dec(c), Int(y)) => c == y * 100
    case (Dec(c), Dec(d)) => c == d
    case (Text(s), Text(t)) => s == t
    case _ => false
  }

  /** `v or 0` never raises in int() or float() unless `v` is a truthy text that does not parse. */
  lemma OrZeroConverts(v: Value)
    ensures !v.Text? ==> ToInt(OrZero(v)).Some? && ToFloat(OrZero(v)).Some?
    ensures v == Text("") ==> ToInt(OrZero(v)) == Some(0) && ToFloat(OrZero(v)) == Some(0)
  {
  }
}
