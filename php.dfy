/**
 * The PHP language rules the application leans on: `empty()` of a string,
 * `is_numeric` for identifiers, the `(int)` cast, `htmlspecialchars` with
 * ENT_QUOTES, `addslashes`, how a single-quoted literal in generated PHP
 * source reads back, and PCRE's `$` anchor.
 */
module Php {
  import opened Wrappers
  import opened Text

  /** `empty($s)` for a string: true for "" and for "0". */
  predicate Empty(s: string)
  {
    s == "" || s == "0"
  }

  /** The whitespace PHP 8 allows around a numeric string. */
  const NumericSpace: set<char> := {' ', '\t', '\n', '\r', '\U{0B}', '\U{0C}'}

  /**
   * `is_numeric($s)` restricted to integers: optional surrounding
   * whitespace, an optional sign and at least one digit.
   */
  predicate IsNumericId(s: string)
  {
    var t := Trim(s, NumericSpace);
    (|t| > 0 && AllDigits(t)) || (|t| > 1 && (t[0] == '+' || t[0] == '-') && AllDigits(t[1..]))
  }

  /** The integer a numeric identifier denotes. */
  function NumericValue(s: string): int
    requires IsNumericId(s)
  {
    var t := Trim(s, NumericSpace);
    if t[0] == '-' then -(DigitsValue(t[1..]) as int)
    else if t[0] == '+' then DigitsValue(t[1..])
    else DigitsValue(t)
  }

  /**
   * The identifier check every endpoint opens with:
   * `empty($id) || !is_numeric($id)` rejects, otherwise the id is used.
   */
  function RequestId(raw: string): (r: Option<int>)
    ensures r.Some? <==> !Empty(raw) && IsNumericId(raw)
    ensures r.Some? ==> r.value == NumericValue(raw)
  {
    if Empty(raw) || !IsNumericId(raw) then None else Some(NumericValue(raw))
  }

  /** A decimal rendering of a natural number passes the identifier check. */
  lemma {:induction false} RenderedIdAccepted(n: nat)
    requires n > 0
    ensures RequestId(NatToString(n)) == Some(n)
  {
    var s := NatToString(n);
    assert s[0] in NumericSpace ==> false;
    assert TrimLeft(s, NumericSpace) == s;
    assert TrimRight(s, NumericSpace) == s;
    NatToStringRoundTrip(n);
    assert Trim(s, NumericSpace) == s;
  }

  /** Length of the longest all-digit prefix. */
  function DigitPrefixLength(s: string): (n: nat)
    ensures n <= |s| && AllDigits(s[..n])
    ensures n < |s| ==> !IsDigit(s[n])
    decreases |s|
  {
    if |s| > 0 && IsDigit(s[0]) then
      var k := DigitPrefixLength(s[1..]);
      assert s[..k + 1] == [s[0]] + s[1..][..k];
      k + 1
    else 0
  }

  /** n followed by k zeros: n times 10 to the power k. */
  function Shift(n: nat, k: nat): nat
    decreases k
  {
    if k == 0 then n else Shift(n * 10, k - 1)
  }

  /** 2^63: PHP_INT_MAX + 1 on a 64-bit build. */
  const IntLimit: int := 9223372036854775808

  /**
   * 2^1024 - 2^970: from here on a decimal rounds to an infinite double,
   * which the cast turns into 0.
   */
  const DoubleOverflow: int := 179769313486231580793728971405303415079934132710037826936173778980444968292764750946649017977587207096330286416692887910946555547851940402630657488671505820681908902000708383676273854845817711531764475730270069855571366959622842914819860834936475292719074168444365510704342711559699508093042880177904174497792

  /** The unsigned number at the start of a string: integer digits, fraction digits, exponent. */
  datatype Decimal = Decimal(digits: string, fraction: string, exponent: int)

  /** `[eE][+-]?[0-9]+` at the start of s, or 0 when there is none. */
  function ExponentOf(s: string): int
  {
    if |s| > 1 && (s[0] == 'e' || s[0] == 'E') then
      var a := s[1..];
      var b := if |a| > 0 && (a[0] == '+' || a[0] == '-') then a[1..] else a;
      var n := DigitPrefixLength(b);
      if n == 0 then 0
      else if a[0] == '-' then -(DigitsValue(b[..n]) as int)
      else DigitsValue(b[..n])
    else 0
  }

  /**
   * PHP's numeric prefix without its sign: `[0-9]+`, `[0-9]*.[0-9]+` or
   * `[0-9]+.[0-9]*`, then an optional exponent. None when u does not start
   * with one.
   */
  function ReadDecimal(u: string): (r: Option<Decimal>)
    ensures r.Some? ==> AllDigits(r.value.digits) && AllDigits(r.value.fraction)
    ensures r.Some? ==> |r.value.digits| > 0 || |r.value.fraction| > 0
  {
    var ip := DigitPrefixLength(u);
    var rest := u[ip..];
    var dot := |rest| > 0 && rest[0] == '.';
    var fd := if dot then DigitPrefixLength(rest[1..]) else 0;
    if ip == 0 && fd == 0 then None
    else if dot then Some(Decimal(u[..ip], rest[1..][..fd], ExponentOf(rest[1 + fd..])))
    else Some(Decimal(u[..ip], "", ExponentOf(rest)))
  }

  /**
   * The number a decimal denotes, truncated toward zero: the decimal point
   * moves `exponent` places right, and the digits left of it are read.
   */
  function Magnitude(d: Decimal): nat
    requires AllDigits(d.digits) && AllDigits(d.fraction)
  {
    var all := d.digits + d.fraction;
    assert AllDigits(all);
    var point := |d.digits| + d.exponent;
    if point <= 0 then 0
    else if point >= |all| then Shift(DigitsValue(all), point - |all|)
    else DigitsValue(all[..point])
  }

  /**
   * `(int)$s` in PHP 8: leading whitespace, an optional sign, then the
   * longest numeric prefix, fraction and exponent included. The value is
   * truncated toward zero and saturates at the 64-bit bounds; one too large
   * for a double is infinite and casts to 0; no numeric prefix casts to 0.
   */
  function IntCast(s: string): int
  {
    SignedCast(TrimLeft(s, NumericSpace))
  }

  /** The cast of text that starts at its sign or its first digit. */
  function SignedCast(t: string): int
  {
    var signed := |t| > 0 && (t[0] == '-' || t[0] == '+');
    var u := if signed then t[1..] else t;
    match ReadDecimal(u)
    case None => 0
    case Some(d) => Saturate(signed && t[0] == '-', Magnitude(d))
  }

  /** zend_dval_to_lval_cap: infinite gives 0, beyond the 64-bit range gives the nearest bound. */
  function Saturate(negative: bool, m: nat): int
  {
    var v: int := if negative then -(m as int) else m;
    if m >= DoubleOverflow then 0
    else if v >= IntLimit then IntLimit - 1
    else if v < -IntLimit then -IntLimit
    else v
  }

  /** A digit string reads to its own end. */
  lemma {:induction false} DigitPrefixAll(s: string)
    requires AllDigits(s)
    ensures DigitPrefixLength(s) == |s|
    decreases |s|
  {
    if |s| > 0 {
      DigitPrefixAll(s[1..]);
    }
  }

  /** The cast of a digit string with nothing after it. */
  lemma CastOfDigits(s: string, rest: string)
    requires |s| > 0 && AllDigits(s) && (|rest| == 0 || !IsDigit(rest[0]))
    requires rest == "" || (rest[0] != '.' && rest[0] != 'e' && rest[0] != 'E')
    ensures ReadDecimal(s + rest) == Some(Decimal(s, "", 0))
  {
    var u := s + rest;
    DigitPrefixAll(s);
    PrefixDigits(s, rest);
    assert u[..|s|] == s && u[|s|..] == rest;
  }

  lemma {:induction false} PrefixDigits(s: string, rest: string)
    requires AllDigits(s) && (|rest| == 0 || !IsDigit(rest[0]))
    ensures DigitPrefixLength(s + rest) == |s|
    decreases |s|
  {
    if |s| > 0 {
      assert (s + rest)[1..] == s[1..] + rest;
      PrefixDigits(s[1..], rest);
    } else {
      assert s + rest == rest;
    }
  }

  /** An unsigned number at the start of the text casts to its magnitude, when that is below 2^63. */
  lemma CastOfDecimal(u: string, d: Decimal)
    requires |u| > 0 && IsDigit(u[0]) && ReadDecimal(u) == Some(d) && Magnitude(d) < IntLimit
    ensures IntCast(u) == Magnitude(d)
  {
    assert !(u[0] in NumericSpace);
    assert TrimLeft(u, NumericSpace) == u;
  }

  /** A digit string reads as itself, integer digits only. */
  lemma MagnitudeOfDigits(s: string)
    requires |s| > 0 && AllDigits(s)
    ensures ReadDecimal(s) == Some(Decimal(s, "", 0))
    ensures Magnitude(Decimal(s, "", 0)) == DigitsValue(s)
  {
    CastOfDigits(s, "");
    assert s + "" == s;
  }

  /** The decimal rendering of a number below 2^63 casts back to it. */
  lemma IntCastOfRendering(n: nat)
    requires n < IntLimit
    ensures IntCast(NatToString(n)) == n
  {
    var s := NatToString(n);
    NatToStringRoundTrip(n);
    MagnitudeOfDigits(s);
    CastOfDecimal(s, Decimal(s, "", 0));
  }

  /** A signed or unsigned digit string goes to the saturating step with its value. */
  lemma SignedCastOfDigits(t: string, s: string)
    requires |s| > 0 && AllDigits(s)
    requires t == s || t == "-" + s || t == "+" + s
    ensures SignedCast(t) == Saturate(t[0] == '-', DigitsValue(s))
  {
    MagnitudeOfDigits(s);
    if t != s {
      assert t[1..] == s;
    }
  }

  /** A digit string past PHP_INT_MAX but still finite as a double saturates at PHP_INT_MAX. */
  lemma IntCastSaturates(s: string)
    requires |s| > 0 && AllDigits(s) && IntLimit <= DigitsValue(s) < DoubleOverflow
    ensures IntCast(s) == IntLimit - 1
  {
    assert !(s[0] in NumericSpace);
    assert TrimLeft(s, NumericSpace) == s;
    SignedCastOfDigits(s, s);
  }

  /** A minus sign negates the digits that follow it. */
  lemma IntCastNegative(s: string)
    requires |s| > 0 && AllDigits(s) && DigitsValue(s) <= IntLimit
    ensures IntCast("-" + s) == -(DigitsValue(s) as int)
  {
    var t := "-" + s;
    assert t[0] == '-' && '-' !in NumericSpace;
    assert TrimLeft(t, NumericSpace) == t;
    SignedCastOfDigits(t, s);
    assert DigitsValue(s) < DoubleOverflow;
  }

  /** Leading whitespace is skipped. */
  lemma IntCastSkipsSpace(c: char, s: string)
    requires c in NumericSpace
    ensures IntCast([c] + s) == IntCast(s)
  {
    assert ([c] + s)[1..] == s;
    assert TrimLeft([c] + s, NumericSpace) == TrimLeft(s, NumericSpace);
  }

  lemma ReadFraction(d: string, f: string)
    requires |d| > 0 && AllDigits(d) && AllDigits(f)
    ensures ReadDecimal(d + "." + f) == Some(Decimal(d, f, 0))
  {
    var u := d + "." + f;
    PrefixDigits(d, "." + f);
    assert u == d + ("." + f);
    DigitPrefixAll(f);
    assert u[..|d|] == d && u[|d|..] == "." + f && ("." + f)[1..] == f;
    assert f[..|f|] == f && ("." + f)[1 + |f|..] == "";
  }

  /** A fraction is cut off: `(int)"D.F"` is D, not D rounded. */
  lemma IntCastTruncatesFraction(d: string, f: string)
    requires |d| > 0 && AllDigits(d) && AllDigits(f) && DigitsValue(d) < IntLimit
    ensures IntCast(d + "." + f) == DigitsValue(d)
  {
    ReadFraction(d, f);
    assert (d + f)[..|d|] == d && d + "" == d;
    assert Magnitude(Decimal(d, f, 0)) == DigitsValue(d);
    CastOfDecimal(d + "." + f, Decimal(d, f, 0));
  }

  lemma ReadExponent(d: string, k: nat)
    requires |d| > 0 && AllDigits(d)
    ensures ReadDecimal(d + "e" + NatToString(k)) == Some(Decimal(d, "", k))
  {
    var e := NatToString(k);
    var u := d + "e" + e;
    PrefixDigits(d, "e" + e);
    assert u == d + ("e" + e) && u[..|d|] == d && u[|d|..] == "e" + e;
    assert ("e" + e)[1..] == e;
    DigitPrefixAll(e);
    assert e[..|e|] == e;
    NatToStringRoundTrip(k);
    assert ExponentOf("e" + e) == k;
  }

  /** An exponent shifts the point: `(int)"De<k>"` is D followed by k zeros. */
  lemma IntCastScalesExponent(d: string, k: nat)
    requires |d| > 0 && AllDigits(d) && Shift(DigitsValue(d), k) < IntLimit
    ensures IntCast(d + "e" + NatToString(k)) == Shift(DigitsValue(d), k)
  {
    ReadExponent(d, k);
    assert d + "" == d;
    assert Magnitude(Decimal(d, "", k)) == Shift(DigitsValue(d), k);
    CastOfDecimal(d + "e" + NatToString(k), Decimal(d, "", k));
  }

  /** Text without a leading number casts to 0. */
  lemma IntCastNoNumber(s: string)
    requires |s| > 0 && !IsDigit(s[0]) && s[0] !in NumericSpace && s[0] != '-' && s[0] != '+' && s[0] != '.'
    ensures IntCast(s) == 0
  {
    assert TrimLeft(s, NumericSpace) == s;
  }

  // ---------------------------------------------------------------- htmlspecialchars

  /** The entity htmlspecialchars(…, ENT_QUOTES) writes for one character. */
  function EscapeChar(c: char): string
  {
    if c == '&' then "&amp;"
    else if c == '"' then "&quot;"
    else if c == '\'' then "&#039;"
    else if c == '<' then "&lt;"
    else if c == '>' then "&gt;"
    else [c]
  }

  predicate IsMarkup(c: char)
  {
    c == '&' || c == '"' || c == '\'' || c == '<' || c == '>'
  }

  /** htmlspecialchars($s, ENT_QUOTES, 'UTF-8'). */
  function HtmlEscape(s: string): (r: string)
    ensures forall i :: 0 <= i < |r| ==> r[i] != '<' && r[i] != '>' && r[i] != '"' && r[i] != '\''
    decreases |s|
  {
    if |s| == 0 then "" else EscapeChar(s[0]) + HtmlEscape(s[1..])
  }

  /** The character an entity at the start of t stands for, and its length. */
  function Entity(t: string): Option<(char, nat)>
  {
    if StartsWith(t, "&amp;") then Some(('&', 5))
    else if StartsWith(t, "&quot;") then Some(('"', 6))
    else if StartsWith(t, "&#039;") then Some(('\'', 6))
    else if StartsWith(t, "&lt;") then Some(('<', 4))
    else if StartsWith(t, "&gt;") then Some(('>', 4))
    else None
  }

  /** htmlspecialchars_decode($t, ENT_QUOTES) for the five entities above. */
  function HtmlDecode(t: string): string
    decreases |t|
  {
    if |t| == 0 then ""
    else if t[0] != '&' then [t[0]] + HtmlDecode(t[1..])
    else match Entity(t)
      case Some((c, n)) => if 0 < n <= |t| then [c] + HtmlDecode(t[n..]) else [t[0]] + HtmlDecode(t[1..])
      case None => [t[0]] + HtmlDecode(t[1..])
  }

  lemma EntityOfEscape(c: char, rest: string)
    requires IsMarkup(c)
    ensures Entity(EscapeChar(c) + rest) == Some((c, |EscapeChar(c)|))
  {
    var e := EscapeChar(c);
    var t := e + rest;
    assert t[..|e|] == e;
    if c == '"' {
      assert t[1] == 'q';
    } else if c == '\'' {
      assert t[1] == '#';
    } else if c == '<' {
      assert t[1] == 'l';
    } else if c == '>' {
      assert t[1] == 'g';
    }
  }

  lemma DecodeEscapedChar(c: char, rest: string)
    ensures HtmlDecode(EscapeChar(c) + rest) == [c] + HtmlDecode(rest)
  {
    var t := EscapeChar(c) + rest;
    if IsMarkup(c) {
      EntityOfEscape(c, rest);
      assert t[0] == '&' && t[|EscapeChar(c)|..] == rest;
    } else {
      assert t[0] == c && t[1..] == rest;
    }
  }

  /** Escaping loses nothing: decoding gives the original text back. */
  lemma {:induction false} HtmlRoundTrip(s: string)
    ensures HtmlDecode(HtmlEscape(s)) == s
    decreases |s|
  {
    if |s| > 0 {
      var rest := HtmlEscape(s[1..]);
      DecodeEscapedChar(s[0], rest);
      HtmlRoundTrip(s[1..]);
      calc {
        HtmlDecode(HtmlEscape(s));
        HtmlDecode(EscapeChar(s[0]) + rest);
        [s[0]] + HtmlDecode(rest);
        [s[0]] + s[1..];
        s;
      }
    }
  }

  /** Text without markup characters is left as it is. */
  lemma {:induction false} HtmlEscapePlain(s: string)
    requires forall i :: 0 <= i < |s| ==> !IsMarkup(s[i])
    ensures HtmlEscape(s) == s
    decreases |s|
  {
    if |s| > 0 {
      HtmlEscapePlain(s[1..]);
      assert s == [s[0]] + s[1..];
    }
  }

  // ---------------------------------------------------------------- addslashes

  /** addslashes for one character: quote, double quote, backslash and NUL. */
  function SlashChar(c: char): string
  {
    if c == '\'' || c == '"' || c == '\\' then ['\\', c]
    else if c == '\0' then "\\0"
    else [c]
  }

  /** addslashes($s). */
  function AddSlashes(s: string): string
    decreases |s|
  {
    if |s| == 0 then "" else SlashChar(s[0]) + AddSlashes(s[1..])
  }

  /**
   * Reads the body of a single-quoted PHP literal up to its closing quote:
   * `\'` stands for a quote, `\\` for a backslash, and every other backslash
   * is kept as it is. Yields the value and the number of characters consumed,
   * closing quote included, or None when the literal is not closed.
   */
  function ReadQuoted(t: string): Option<(string, nat)>
    decreases |t|
  {
    if |t| == 0 then None
    else if t[0] == '\'' then Some(("", 1))
    else if t[0] == '\\' && |t| >= 2 && (t[1] == '\'' || t[1] == '\\') then
      match ReadQuoted(t[2..])
      case None => None
      case Some((v, n)) => Some(([t[1]] + v, n + 2))
    else
      match ReadQuoted(t[1..])
      case None => None
      case Some((v, n)) => Some(([t[0]] + v, n + 1))
  }

  /** What one escaped character reads back as inside a single-quoted literal. */
  function ReadBackChar(c: char): string
  {
    if c == '"' then "\\\"" else if c == '\0' then "\\0" else [c]
  }

  /**
   * What a single-quoted literal holding AddSlashes(s) evaluates to: `"`
   * reads back as `\"` and NUL as `\0`, since single-quoted PHP strings do
   * not interpret those escapes.
   */
  function ReadBack(s: string): string
    decreases |s|
  {
    if |s| == 0 then "" else ReadBackChar(s[0]) + ReadBack(s[1..])
  }

  /** One escaped character in front of a literal body. */
  lemma ReadSlashChar(c: char, tail: string, v: string, n: nat)
    requires ReadQuoted(tail) == Some((v, n))
    ensures ReadQuoted(SlashChar(c) + tail) == Some((ReadBackChar(c) + v, |SlashChar(c)| + n))
  {
    var t := SlashChar(c) + tail;
    if c == '\'' || c == '\\' {
      assert t[0] == '\\' && t[1] == c && t[2..] == tail;
    } else if c == '"' || c == '\0' {
      var d := if c == '"' then '"' else '0';
      assert t[0] == '\\' && t[1] == d && t[1..] == [d] + tail;
      assert t[1..][1..] == tail;
      assert ReadQuoted(t[1..]) == Some(([d] + v, n + 1));
      assert [t[0]] + ([d] + v) == ReadBackChar(c) + v;
    } else {
      assert t[0] == c && t[1..] == tail;
    }
  }

  /**
   * The escaped value never closes the literal early: the literal ends at the
   * quote that follows it, whatever the value holds, and reads back as
   * ReadBack(s).
   */
  lemma {:induction false} AddSlashesStaysQuoted(s: string, rest: string)
    ensures ReadQuoted(AddSlashes(s) + "'" + rest) == Some((ReadBack(s), |AddSlashes(s)| + 1))
    decreases |s|
  {
    if |s| == 0 {
      assert AddSlashes(s) + "'" + rest == "'" + rest;
    } else {
      var tail := AddSlashes(s[1..]) + "'" + rest;
      AddSlashesStaysQuoted(s[1..], rest);
      ReadSlashChar(s[0], tail, ReadBack(s[1..]), |AddSlashes(s[1..])| + 1);
      assert AddSlashes(s) + "'" + rest == SlashChar(s[0]) + tail;
    }
  }

  /** Characters with no special meaning inside a single-quoted literal. */
  predicate PlainInQuotes(p: string)
  {
    forall i :: 0 <= i < |p| ==> p[i] != '\'' && p[i] != '\\'
  }

  /** Plain text in front of a literal body is read as it stands. */
  lemma {:induction false} ReadQuotedPlain(p: string, t: string, v: string, n: nat)
    requires PlainInQuotes(p) && ReadQuoted(t) == Some((v, n))
    ensures ReadQuoted(p + t) == Some((p + v, |p| + n))
    decreases |p|
  {
    if |p| > 0 {
      ReadQuotedPlain(p[1..], t, v, n);
      assert (p + t)[0] == p[0] && (p + t)[1..] == p[1..] + t;
      assert [p[0]] + (p[1..] + v) == p + v;
    } else {
      assert p + t == t && p + v == v;
    }
  }

  /** ReadBack is the identity exactly on values without `"` and NUL. */
  lemma {:induction false} ReadBackIdentity(s: string)
    ensures ReadBack(s) == s <==> forall i :: 0 <= i < |s| ==> s[i] != '"' && s[i] != '\0'
    decreases |s|
  {
    if |s| > 0 {
      ReadBackIdentity(s[1..]);
      ReadBackLength(s[1..]);
      if s[0] == '"' || s[0] == '\0' {
        assert |ReadBack(s)| > |s|;
      } else {
        assert ReadBack(s) == [s[0]] + ReadBack(s[1..]);
        assert s == [s[0]] + s[1..];
        assert (forall i :: 0 <= i < |s| ==> s[i] != '"' && s[i] != '\0')
          <==> (forall i :: 0 <= i < |s[1..]| ==> s[1..][i] != '"' && s[1..][i] != '\0');
      }
    }
  }

  lemma {:induction false} ReadBackLength(s: string)
    ensures |ReadBack(s)| >= |s|
    decreases |s|
  {
    if |s| > 0 {
      ReadBackLength(s[1..]);
    }
  }

  /** ReadBack works character by character, so it distributes over concatenation. */
  lemma {:induction false} ReadBackAppend(x: string, y: string)
    ensures ReadBack(x + y) == ReadBack(x) + ReadBack(y)
    decreases |x|
  {
    if |x| > 0 {
      ReadBackAppend(x[1..], y);
      assert (x + y)[0] == x[0] && (x + y)[1..] == x[1..] + y;
    } else {
      assert x + y == y;
    }
  }

  /**
   * A value with a double quote does not survive: around plain text, each
   * `"` reads back as `\"`, so `a"b` comes back as `a\"b`.
   */
  lemma DoubleQuoteNotPreserved(a: string, b: string)
    requires forall i :: 0 <= i < |a| ==> a[i] != '"' && a[i] != '\0'
    requires forall i :: 0 <= i < |b| ==> b[i] != '"' && b[i] != '\0'
    ensures ReadQuoted(AddSlashes(a + "\"" + b) + "'") == Some((a + "\\\"" + b, |AddSlashes(a + "\"" + b)| + 1))
  {
    var s := a + "\"" + b;
    ReadBackAppend(a, "\"" + b);
    ReadBackAppend("\"", b);
    ReadBackIdentity(a);
    ReadBackIdentity(b);
    assert ReadBack("\"") == "\\\"" by { assert "\""[1..] == ""; }
    assert s == a + ("\"" + b);
    assert ReadBack(s) == a + "\\\"" + b;
    AddSlashesStaysQuoted(s, "");
    assert AddSlashes(s) + "'" + "" == AddSlashes(s) + "'";
  }


  // ---------------------------------------------------------------- PCRE anchors

  /**
   * `preg_match('/^[C]+$/', $s)` for a character class C given as a
   * predicate: PCRE's `$` also matches just before a final newline.
   */
  predicate MatchesWhole(s: string, inClass: char -> bool)
  {
    || (|s| > 0 && forall i :: 0 <= i < |s| ==> inClass(s[i]))
    || (|s| > 1 && s[|s| - 1] == '\n' && forall i :: 0 <= i < |s| - 1 ==> inClass(s[i]))
  }
}
