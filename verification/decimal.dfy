/** Exact decimal quantities and their text forms.

    A quantity is an integer number of micro-units (10^-6), the precision the
    number formatter works to.  `ParseDecimal` reads the point-decimal text that
    Python's `float()` accepts in this domain, `FormatNumber` is the
    `_format_number` helper (fixed six decimals, trailing zeros and point
    stripped), `ToCsvNumber` swaps the decimal point for the file's separator,
    and `ParseQuantity` is the tolerant reading applied to quantity columns
    (no-break spaces and spaces removed, comma read as point). */
module Decimal {
  import opened Common
  import opened Text

  /** Micro-units per unit: six decimal places. */
  const Scale: nat := 1_000_000
  const Precision: nat := 6

  /** A cell as pandas hands it over: a number, a text, or missing (NaN). */
  datatype Cell = Number(micro: int) | Text(text: string) | Blank

  /** Index of the first occurrence of `c`, or `|s|` when there is none. */
  function IndexOf(s: string, c: char): (k: nat)
    ensures k <= |s|
    ensures c !in s[..k]
    ensures k < |s| ==> s[k] == c
  {
    if |s| == 0 then 0
    else if s[0] == c then 0
    else
      var k := IndexOf(s[1..], c);
      assert s[..k + 1] == [s[0]] + s[1..][..k];
      k + 1
  }

  /** Digits, optionally one point and more digits, at least one digit in all
      and at most six after the point; the value in micro-units. */
  function ParseUnsigned(s: string): Option<nat> {
    var k := IndexOf(s, '.');
    ParseParts(s[..k], if k < |s| then s[k + 1..] else "")
  }

  /** The value of an integer part and a fraction part, when both are digits,
      there is at least one digit and the fraction fits in micro-units. */
  function ParseParts(ip: string, fp: string): Option<nat> {
    if AllDigits(ip) && AllDigits(fp) && |ip| + |fp| >= 1 && |fp| <= Precision then
      Some(DigitsValue(ip) * Scale + Shift(DigitsValue(fp), Precision - |fp|))
    else None
  }

  /** `d * 10^n`. */
  function Shift(d: nat, n: nat): nat {
    d * Pow10(n)
  }

  /** `float(s)` on point-decimal text with an optional sign, in micro-units;
      None where Python raises ValueError (or where the text has more
      precision than micro-units can hold). */
  function ParseDecimal(s: string): Option<int> {
    if |s| > 0 && (s[0] == '-' || s[0] == '+') then
      match ParseUnsigned(s[1..])
      case None => None
      case Some(v) => Some(if s[0] == '-' then -(v as int) else v as int)
    else
      match ParseUnsigned(s)
      case None => None
      case Some(v) => Some(v as int)
  }

  lemma {:induction false} ScaleIsPow10()
    ensures Pow10(Precision) == Scale
  {
  }

  function Magnitude(v: int): nat {
    if v < 0 then -v else v
  }

  function SignText(v: int): (s: string)
    ensures s == "" || s == "-"
  {
    if v < 0 then "-" else ""
  }

  /** The six digits after the point of `f"{x:.6f}"`, for a remainder below
      one unit. */
  function FixedText(r: nat): (s: string)
    requires r < Scale
    ensures |s| == Precision && AllDigits(s) && DigitsValue(s) == r
  {
    ScaleIsPow10();
    FixedDigits(r, Precision)
  }

  /** Python's `f"{x:.6f}"` for a quantity in micro-units. */
  function FixedPoint6(v: int): string {
    var a := Magnitude(v);
    SignText(v) + NatToString(a / Scale) + "." + FixedText(a % Scale)
  }

  /** `_format_number` (backend/app.py and the found-stock processor carry the
      same helper): numbers are printed to six decimals, then trailing zeros and
      a trailing point are removed; text is stripped, its commas turned into
      points, and re-printed if it reads as a number, returned as normalised
      otherwise; a missing value prints as Python prints NaN. */
  function FormatNumber(x: Cell): (r: string)
    ensures x.Number? ==> ParseDecimal(r) == Some(x.micro)
    ensures x.Text? ==> ParseDecimal(r) == ParseDecimal(ReplaceChar(Strip(x.text), ',', '.'))
    ensures x.Text? && ParseDecimal(ReplaceChar(Strip(x.text), ',', '.')).None? ==> r == ReplaceChar(Strip(x.text), ',', '.')
    ensures x.Blank? ==> r == "nan"
  {
    match x
    case Number(v) => FormatMicro(v)
    case Text(t) =>
      var s := ReplaceChar(Strip(t), ',', '.');
      (match ParseDecimal(s)
       case Some(v) => FormatMicro(v)
       case None => s)
    case Blank => "nan"
  }

  /** The numeric branch of `_format_number`, written as the formatter computes it:
      never empty, without a final point or a trailing fraction zero, made of
      digits, the point and the minus sign, and it reads back as the
      quantity. */
  function FormatMicro(v: int): (s: string)
    ensures ParseDecimal(s) == Some(v)
    ensures |s| > 0 && s[|s| - 1] != '.' && ('.' in s ==> s[|s| - 1] != '0') && NumberChars(s)
  {
    var fmt := FixedPoint6(v);
    var stripped := if '.' in fmt then RStripChar(RStripChar(fmt, '0'), '.') else fmt;
    var a := Magnitude(v);
    StripPoint(SignText(v), NatToString(a / Scale), FixedText(a % Scale));
    assert |SignText(v) + Spell(NatToString(a / Scale), FractionText(a % Scale))| > 0;
    assert (if stripped != "" then stripped else "0") == Canonical(v);
    CanonicalShape(v);
    CanonicalRoundTrip(v);
    if stripped != "" then stripped else "0"
  }

  /** `_to_csv_number`: the formatted number with `.` swapped for `,` when the
      separator asked for is a comma.  A number printed with the comma holds
      no point and no `;`, and the quantity reading takes it back to its
      value. */
  function ToCsvNumber(x: Cell, sep: string): (r: string)
    ensures sep != "," ==> r == FormatNumber(x)
    ensures sep == "," && x.Number? ==> '.' !in r && ';' !in r && ParseQuantity(r) == Some(x.micro)
  {
    var s := FormatNumber(x);
    if sep == "," then
      if x.Number? then
        CommaNumber(x.micro);
        ReplaceChar(s, '.', ',')
      else ReplaceChar(s, '.', ',')
    else s
  }

  /** The normalisation applied before reading a quantity column:
      no-break spaces and spaces removed, then each comma read as a point,
      every other character kept in place. */
  function NormalizeQuantity(s: string): (r: string)
    ensures ' ' !in r && '\U{A0}' !in r && ',' !in r
    ensures var t := RemoveChar(RemoveChar(s, '\U{A0}'), ' ');
      |r| == |t| && forall i :: 0 <= i < |t| ==> r[i] == (if t[i] == ',' then '.' else t[i])
    ensures ' ' !in s && '\U{A0}' !in s && ',' !in s ==> r == s
  {
    var t := RemoveChar(RemoveChar(s, '\U{A0}'), ' ');
    ReplaceRemoves(t, ',', '.');
    if ',' in t then ReplaceChar(t, ',', '.')
    else
      ReplaceAbsent(t, ',', '.');
      ReplaceChar(t, ',', '.')
  }

  /** Normalising a concatenation normalises each part. */
  lemma {:induction false} NormalizeAppend(a: string, b: string)
    ensures NormalizeQuantity(a + b) == NormalizeQuantity(a) + NormalizeQuantity(b)
  {
    RemoveAppend(a, b, '\U{A0}');
    RemoveAppend(RemoveChar(a, '\U{A0}'), RemoveChar(b, '\U{A0}'), ' ');
    var ta := RemoveChar(RemoveChar(a, '\U{A0}'), ' ');
    var tb := RemoveChar(RemoveChar(b, '\U{A0}'), ' ');
    ReplaceAppend(ta, tb, ',', '.');
    ReplaceChars(ta + tb);
    ReplaceChars(ta);
    ReplaceChars(tb);
  }

  /** The normalisation is the comma replacement of the space-free text. */
  lemma {:induction false} ReplaceChars(t: string)
    ensures NormalizeQuantity(t) == ReplaceChar(RemoveChar(RemoveChar(t, '\U{A0}'), ' '), ',', '.')
  {
  }

  // ---------------------------------------------------------------------
  // The whitespace the number reader skips around a number.

  /** ASCII whitespace: tab, line feed, vertical tab, form feed, carriage
      return and space. */
  predicate IsAsciiSpace(c: char) {
    ('\t' <= c <= '\r') || c == ' '
  }

  predicate AllAsciiSpace(s: string) {
    forall i :: 0 <= i < |s| ==> IsAsciiSpace(s[i])
  }

  /** Text that neither starts nor ends with ASCII whitespace. */
  predicate Trimmed(s: string) {
    |s| > 0 ==> !IsAsciiSpace(s[0]) && !IsAsciiSpace(s[|s| - 1])
  }

  /** The text without its leading ASCII whitespace. */
  function TrimLeftAscii(s: string): (t: string)
    ensures |t| <= |s|
    ensures |t| > 0 ==> !IsAsciiSpace(t[0])
  {
    if |s| > 0 && IsAsciiSpace(s[0]) then TrimLeftAscii(s[1..]) else s
  }

  /** The text without its trailing ASCII whitespace. */
  function TrimRightAscii(s: string): (t: string)
    ensures |t| <= |s| && t == s[..|t|]
    ensures |t| > 0 ==> !IsAsciiSpace(t[|t| - 1])
  {
    if |s| > 0 && IsAsciiSpace(s[|s| - 1]) then TrimRightAscii(s[..|s| - 1]) else s
  }

  /** The text without ASCII whitespace at either end: what is left is
      trimmed, and trimmed text is left alone. */
  function TrimAscii(s: string): (t: string)
    ensures Trimmed(t)
    ensures Trimmed(s) ==> t == s
  {
    TrimRightAscii(TrimLeftAscii(s))
  }

  /** Whitespace in front of a text is skipped. */
  lemma {:induction false} TrimLeftPadded(p: string, m: string)
    requires AllAsciiSpace(p)
    ensures TrimLeftAscii(p + m) == TrimLeftAscii(m)
    decreases |p|
  {
    if |p| > 0 {
      assert (p + m)[1..] == p[1..] + m;
      TrimLeftPadded(p[1..], m);
    } else {
      assert p + m == m;
    }
  }

  /** Whitespace after a text is skipped. */
  lemma {:induction false} TrimRightPadded(m: string, q: string)
    requires AllAsciiSpace(q)
    ensures TrimRightAscii(m + q) == TrimRightAscii(m)
    decreases |q|
  {
    if |q| > 0 {
      assert (m + q)[..|m + q| - 1] == m + q[..|q| - 1];
      TrimRightPadded(m, q[..|q| - 1]);
    } else {
      assert m + q == m;
    }
  }

  /** Left-trimming text followed by whitespace keeps that whitespace, or
      leaves nothing when the text was all whitespace too. */
  lemma {:induction false} TrimLeftBefore(m: string, q: string)
    requires AllAsciiSpace(q)
    ensures TrimLeftAscii(m + q) == (if AllAsciiSpace(m) then "" else TrimLeftAscii(m) + q)
    decreases |m|
  {
    if |m| == 0 {
      assert m + q == q;
      TrimLeftPadded(q, "");
      assert q + "" == q;
    } else if IsAsciiSpace(m[0]) {
      assert (m + q)[1..] == m[1..] + q;
      TrimLeftBefore(m[1..], q);
      assert AllAsciiSpace(m) <==> AllAsciiSpace(m[1..]) by {
        if AllAsciiSpace(m[1..]) {
          forall i | 0 <= i < |m| ensures IsAsciiSpace(m[i]) {
            if i > 0 { assert m[i] == m[1..][i - 1]; }
          }
        }
      }
    } else {
      assert (m + q)[0] == m[0];
    }
  }

  /** ASCII whitespace around a text does not change its trimmed form. */
  lemma {:induction false} TrimPadded(p: string, m: string, q: string)
    requires AllAsciiSpace(p) && AllAsciiSpace(q)
    ensures TrimAscii(p + m + q) == TrimAscii(m)
  {
    assert p + m + q == p + (m + q);
    TrimLeftPadded(p, m + q);
    TrimLeftBefore(m, q);
    if !AllAsciiSpace(m) {
      TrimRightPadded(TrimLeftAscii(m), q);
    } else {
      TrimLeftPadded(m, "");
      assert m + "" == m;
    }
  }

  /** `pd.to_numeric(normalised text, errors="coerce")`: None is NaN.  The
      reader skips ASCII whitespace around the number.  Text without spaces
      reads as `float()` reads it once its commas are points, and trimmed
      point-decimal text as `float()` reads it. */
  function ParseQuantity(s: string): (r: Option<int>)
    ensures ' ' !in s && '\U{A0}' !in s ==> r == ParseDecimal(TrimAscii(ReplaceChar(s, ',', '.')))
    ensures ' ' !in s && '\U{A0}' !in s && ',' !in s && Trimmed(s) ==> r == ParseDecimal(s)
  {
    ParseDecimal(TrimAscii(NormalizeQuantity(s)))
  }

  /** Normalising whitespace keeps it whitespace. */
  lemma {:induction false} NormalizeSpace(p: string)
    requires AllAsciiSpace(p)
    ensures AllAsciiSpace(NormalizeQuantity(p))
  {
    var t := RemoveChar(RemoveChar(p, '\U{A0}'), ' ');
    var r := NormalizeQuantity(p);
    forall i | 0 <= i < |r| ensures IsAsciiSpace(r[i]) {
      assert t[i] in t;
      assert t[i] in RemoveChar(p, '\U{A0}');
      assert t[i] in p;
    }
  }

  /** ASCII whitespace around a quantity does not change how it reads. */
  lemma {:induction false} PaddedQuantity(p: string, s: string, q: string)
    requires AllAsciiSpace(p) && AllAsciiSpace(q)
    ensures ParseQuantity(p + s + q) == ParseQuantity(s)
  {
    NormalizeAppend(p + s, q);
    NormalizeAppend(p, s);
    NormalizeSpace(p);
    NormalizeSpace(q);
    TrimPadded(NormalizeQuantity(p), NormalizeQuantity(s), NormalizeQuantity(q));
  }

  /** `5` reads as five units. */
  lemma {:induction false} DigitReads()
    ensures ParseQuantity("5") == Some(5 * Scale)
  {
    assert ' ' !in "5" && '\U{A0}' !in "5" && ',' !in "5" && Trimmed("5");
    assert IndexOf("5", '.') == 1;
  }

  /** A cell read as a quantity after `astype(str)` and the normalisation;
      None is NaN. */
  function CellQuantity(c: Cell): Option<int> {
    match c
    case Number(v) => Some(v)
    case Text(t) => ParseQuantity(t)
    case Blank => None
  }

  // ---------------------------------------------------------------------
  // The canonical shape of a formatted number: an optional minus sign, the
  // integer part, and a point followed by the significant fraction digits
  // only when there are any.

  /** An integer part followed, when the fraction is not empty, by a point and
      the fraction. */
  function Spell(ip: string, f: string): string {
    ip + (if f == "" then "" else "." + f)
  }

  /** The fraction digits of a remainder without their trailing zeros. */
  function FractionText(r: nat): (f: string)
    requires r < Scale
    ensures |f| <= Precision && AllDigits(f)
    ensures |f| > 0 ==> f[|f| - 1] != '0'
  {
    RStripChar(FixedText(r), '0')
  }

  function Canonical(v: int): string {
    var a := Magnitude(v);
    SignText(v) + Spell(NatToString(a / Scale), FractionText(a % Scale))
  }

  lemma {:induction false} RStripKeepsPrefix(a: string, b: string, c: char)
    requires exists i :: 0 <= i < |b| && b[i] != c
    ensures RStripChar(a + b, c) == a + RStripChar(b, c)
    decreases |b|
  {
    if b[|b| - 1] == c {
      assert (a + b)[..|a + b| - 1] == a + b[..|b| - 1];
      var i :| 0 <= i < |b| && b[i] != c;
      assert b[..|b| - 1][i] != c;
      RStripKeepsPrefix(a, b[..|b| - 1], c);
    }
  }

  lemma {:induction false} RStripDropsSuffix(a: string, b: string, c: char)
    requires forall i :: 0 <= i < |b| ==> b[i] == c
    ensures RStripChar(a + b, c) == RStripChar(a, c)
    decreases |b|
  {
    if |b| > 0 {
      assert (a + b)[..|a + b| - 1] == a + b[..|b| - 1];
      RStripDropsSuffix(a, b[..|b| - 1], c);
    } else {
      assert a + b == a;
    }
  }

  /** Stripping zeros and then the point from `p.digits`, where `p` ends with
      a digit, leaves `p` followed by the significant fraction, if any. */
  lemma {:induction false} StripFraction(p: string, digits: string)
    requires |p| > 0 && IsDigit(p[|p| - 1]) && AllDigits(digits)
    ensures var f := RStripChar(digits, '0');
      RStripChar(RStripChar(p + "." + digits, '0'), '.') == (if f == "" then p else p + "." + f)
  {
    var f := RStripChar(digits, '0');
    if f == "" {
      RStripDropsSuffix(p + ".", digits, '0');
      assert (p + ".")[..|p|] == p;
    } else {
      StripSomeZeros(p + ".", digits);
    }
  }

  lemma {:induction false} StripSomeZeros(q: string, digits: string)
    requires AllDigits(digits) && RStripChar(digits, '0') != ""
    ensures var f := RStripChar(digits, '0');
      RStripChar(RStripChar(q + digits, '0'), '.') == q + f
  {
    var f := RStripChar(digits, '0');
    assert f == digits[..|f|];
    assert digits[|f| - 1] != '0';
    RStripKeepsPrefix(q, digits, '0');
    LastOfConcat(q, f);
    assert IsDigit(digits[|f| - 1]);
  }

  lemma {:induction false} LastOfConcat(a: string, b: string)
    requires |b| > 0
    ensures (a + b)[|a + b| - 1] == b[|b| - 1]
  {
  }

  /** The strip pipeline on `sign ip.digits` gives `sign` and the spelling of
      `ip` with the significant digits. */
  lemma {:induction false} StripPoint(sign: string, ip: string, digits: string)
    requires sign == "" || sign == "-"
    requires |ip| > 0 && AllDigits(ip) && AllDigits(digits)
    ensures var fmt := sign + ip + "." + digits;
      && '.' in fmt
      && RStripChar(RStripChar(fmt, '0'), '.') == sign + Spell(ip, RStripChar(digits, '0'))
  {
    var p := sign + ip;
    assert p[|p| - 1] == ip[|ip| - 1];
    assert (p + "." + digits)[|p|] == '.';
    StripFraction(p, digits);
    var f := RStripChar(digits, '0');
    if f == "" {
      assert Spell(ip, f) == ip;
    } else {
      assert Spell(ip, f) == ip + ("." + f);
      SeqAssoc(sign, ip, "." + f);
      SeqAssoc(p, ".", f);
    }
  }

  lemma {:induction false} SeqAssoc(a: string, b: string, c: string)
    ensures (a + b) + c == a + (b + c)
  {
  }

  /** The formatter's strip-then-default pipeline produces the shortest
      decimal spelling. */
  lemma {:induction false} FormatMicroCanonical(v: int)
    ensures FormatMicro(v) == Canonical(v)
  {
    var a := Magnitude(v);
    var ip := NatToString(a / Scale);
    StripPoint(SignText(v), ip, FixedText(a % Scale));
    assert |SignText(v) + Spell(ip, FractionText(a % Scale))| > 0;
  }

  /** Trailing zeros of a digit string carry no value. */
  lemma {:induction false} StripZerosValue(s: string)
    requires AllDigits(s)
    ensures var f := RStripChar(s, '0');
      AllDigits(f) && DigitsValue(s) == Shift(DigitsValue(f), |s| - |f|)
    decreases |s|
  {
    var f := RStripChar(s, '0');
    DigitsSlice(s, 0, |f|);
    assert s[0..|f|] == f;
    if |s| > 0 && s[|s| - 1] == '0' {
      var p := s[..|s| - 1];
      StripZerosValue(p);
      assert RStripChar(p, '0') == f;
      var n := |p| - |f|;
      var dp := DigitsValue(p);
      assert DigitsValue(s) == dp * 10;
      assert dp == DigitsValue(f) * Pow10(n);
      assert Pow10(n + 1) == 10 * Pow10(n);
      MulAssoc(DigitsValue(f), Pow10(n), 10);
    } else {
      assert f == s;
    }
  }

  lemma {:induction false} MulAssoc(a: nat, b: nat, c: nat)
    ensures (a * b) * c == a * (c * b)
  {
  }

  /** Only digits, points and minus signs. */
  predicate NumberChars(s: string) {
    forall i :: 0 <= i < |s| ==> IsDigit(s[i]) || s[i] == '.' || s[i] == '-'
  }

  lemma {:induction false} NumberCharsExclude(s: string, c: char)
    requires NumberChars(s) && !IsDigit(c) && c != '.' && c != '-'
    ensures c !in s
  {
  }

  /** A spelled number is never empty, never ends with the point, has no
      trailing zero after a point, and holds only digits, the point and the
      sign. */
  lemma {:induction false} SpellShape(sign: string, ip: string, f: string)
    requires sign == "" || sign == "-"
    requires |ip| > 0 && AllDigits(ip) && AllDigits(f)
    requires |f| > 0 ==> f[|f| - 1] != '0'
    ensures var s := sign + Spell(ip, f);
      && |s| > 0
      && s[|s| - 1] != '.'
      && ('.' in s ==> s[|s| - 1] != '0')
      && NumberChars(s)
  {
    var s := sign + Spell(ip, f);
    if f == "" {
      assert s == sign + ip;
      assert s[|s| - 1] == ip[|ip| - 1];
      assert '.' !in s by {
        forall i | 0 <= i < |s| ensures s[i] != '.' {
          if i >= |sign| { assert s[i] == ip[i - |sign|]; }
        }
      }
    } else {
      assert s == (sign + ip + ".") + f;
      assert s[|s| - 1] == f[|f| - 1];
    }
  }

  lemma {:induction false} CanonicalShape(v: int)
    ensures var s := Canonical(v);
      && |s| > 0
      && s[|s| - 1] != '.'
      && ('.' in s ==> s[|s| - 1] != '0')
      && NumberChars(s)
  {
    var a := Magnitude(v);
    SpellShape(SignText(v), NatToString(a / Scale), FractionText(a % Scale));
  }

  lemma {:induction false} AllDigitsNoDot(s: string)
    requires AllDigits(s)
    ensures '.' !in s && '-' !in s && '+' !in s && ',' !in s && ';' !in s
  {
  }

  lemma {:induction false} IndexOfFirst(s: string, c: char, k: nat)
    requires k <= |s| && c !in s[..k] && (k < |s| ==> s[k] == c)
    ensures IndexOf(s, c) == k
  {
    if |s| > 0 && s[0] != c {
      assert s[1..][..k - 1] == s[..k][1..];
      IndexOfFirst(s[1..], c, k - 1);
    }
  }

  /** A spelled integer part and fraction read back as those two parts. */
  lemma {:induction false} ParseSpell(ip: string, f: string)
    requires |ip| > 0 && AllDigits(ip) && AllDigits(f)
    ensures ParseUnsigned(Spell(ip, f)) == ParseParts(ip, f)
  {
    var u := Spell(ip, f);
    AllDigitsNoDot(ip);
    assert u[..|ip|] == ip;
    if f != "" {
      assert u[|ip|] == '.';
    }
    IndexOfFirst(u, '.', |ip|);
    var k := IndexOf(u, '.');
    assert k == |ip|;
    var fp := if k < |u| then u[k + 1..] else "";
    assert fp == f;
  }

  /** A parsed magnitude with a textual sign applied. */
  function ApplySign(sign: string, m: Option<nat>): Option<int> {
    match m
    case None => None
    case Some(x) => Some(if sign == "-" then -(x as int) else x as int)
  }

  /** With a sign in front, the parsed value carries that sign. */
  lemma {:induction false} ParseSignedSpell(sign: string, ip: string, f: string)
    requires sign == "" || sign == "-"
    requires |ip| > 0 && AllDigits(ip) && AllDigits(f)
    ensures ParseDecimal(sign + Spell(ip, f)) == ApplySign(sign, ParseParts(ip, f))
  {
    var u := Spell(ip, f);
    ParseSpell(ip, f);
    if sign == "-" {
      ParseNegative(u);
    } else {
      assert sign + u == u;
      assert u[0] == ip[0];
      ParseUnsignedText(u);
    }
  }

  lemma {:induction false} ParseNegative(u: string)
    ensures ParseDecimal("-" + u) == ApplySign("-", ParseUnsigned(u))
  {
    var s := "-" + u;
    assert s[0] == '-' && s[1..] == u;
  }

  lemma {:induction false} ParseUnsignedText(u: string)
    requires |u| > 0 && IsDigit(u[0])
    ensures ParseDecimal(u) == ApplySign("", ParseUnsigned(u))
  {
  }

  /** The significant fraction digits of a remainder are worth that remainder. */
  lemma {:induction false} FractionValue(r: nat)
    requires r < Scale
    ensures var f := FractionText(r);
      Shift(DigitsValue(f), Precision - |f|) == r
  {
    StripZerosValue(FixedText(r));
  }

  lemma {:induction false} DivModScale(a: nat)
    ensures (a / Scale) * Scale + a % Scale == a
  {
  }

  /** A magnitude spelled as whole part and significant fraction reads back
      as itself, with the sign applied. */
  lemma {:induction false} SpellRoundTrip(sign: string, q: nat, r: nat, a: nat)
    requires sign == "" || sign == "-"
    requires r < Scale && q * Scale + r == a
    ensures ParseDecimal(sign + Spell(NatToString(q), FractionText(r))) == ApplySign(sign, Some(a))
  {
    var ip := NatToString(q);
    var f := FractionText(r);
    FractionValue(r);
    PartsValue(ip, f, q, r, a);
    ParseSignedSpell(sign, ip, f);
  }

  /** Digit parts worth `q` and `r` micro-units read as `q * Scale + r`. */
  lemma {:induction false} PartsValue(ip: string, f: string, q: nat, r: nat, a: nat)
    requires |ip| > 0 && AllDigits(ip) && AllDigits(f) && |f| <= Precision
    requires DigitsValue(ip) == q && Shift(DigitsValue(f), Precision - |f|) == r
    requires q * Scale + r == a
    ensures ParseParts(ip, f) == Some(a)
  {
  }

  /** Reading a canonical number back gives the quantity it was printed from. */
  lemma {:induction false} CanonicalRoundTrip(v: int)
    ensures ParseDecimal(Canonical(v)) == Some(v)
  {
    var a := Magnitude(v);
    DivModScale(a);
    SpellRoundTrip(SignText(v), a / Scale, a % Scale, a);
  }

  /** Text that already holds a printed number is printed unchanged. */
  lemma {:induction false} FormatTextIdempotent(v: int)
    ensures FormatNumber(Text(FormatNumber(Number(v)))) == FormatNumber(Number(v))
  {
    var s := FormatMicro(v);
    NumberCharsExclude(s, ',');
    assert !IsSpace(s[0]) && !IsSpace(s[|s| - 1]);
    StripIdentity(s);
    ReplaceAbsent(s, ',', '.');
  }

  /** The comma spelling of a printed quantity: no point, no `;`, and the
      quantity normalisation reads it back. */
  lemma {:induction false} CommaNumber(v: int)
    ensures var c := ReplaceChar(FormatMicro(v), '.', ',');
      '.' !in c && ';' !in c && ParseQuantity(c) == Some(v)
  {
    CommaReads(FormatMicro(v), v);
  }

  /** The comma spelling of any non-empty number text reads back as its
      value. */
  lemma {:induction false} CommaReads(s: string, v: int)
    requires |s| > 0 && NumberChars(s) && ParseDecimal(s) == Some(v)
    ensures var c := ReplaceChar(s, '.', ',');
      '.' !in c && ';' !in c && ParseQuantity(c) == Some(v)
  {
    NumberCharsExclude(s, ',');
    NumberCharsExclude(s, ';');
    NumberCharsExclude(s, ' ');
    NumberCharsExclude(s, '\U{A0}');
    var c := ReplaceChar(s, '.', ',');
    ReplaceRemoves(s, '.', ',');
    ReplaceKeepsAbsent(s, '.', ',', ';');
    ReplaceKeepsAbsent(s, '.', ',', ' ');
    ReplaceKeepsAbsent(s, '.', ',', '\U{A0}');
    ReplaceInverse(s, '.', ',');
    assert Trimmed(s);
    assert ParseQuantity(c) == ParseDecimal(TrimAscii(s));
  }
}
