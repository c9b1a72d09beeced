/**
  The JavaScript string built-ins the client relies on, written out:
  `String.prototype.trim`, `toUpperCase` (restricted to ASCII letters),
  `split(" ")`, decimal rendering of naturals (as `date-fns` prints `d` and
  `yyyy`) and `Number.prototype.toFixed(2)`.
 */
module JsText {

  // ---------------------------------------------------------------------
  // trim
  // ---------------------------------------------------------------------

  /** The WhiteSpace and LineTerminator code points that `trim` removes. */
  predicate IsWhitespace(c: char) {
    || c == ' ' || c == '\t' || c == '\n' || c == '\r'
    || c == '\U{000B}' || c == '\U{000C}' || c == '\U{00A0}' || c == '\U{FEFF}'
    || c == '\U{1680}' || ('\U{2000}' <= c <= '\U{200A}')
    || c == '\U{2028}' || c == '\U{2029}' || c == '\U{202F}' || c == '\U{205F}'
    || c == '\U{3000}'
  }

  predicate AllWhitespace(s: string) {
    forall k :: 0 <= k < |s| ==> IsWhitespace(s[k])
  }

  /** Drops leading whitespace: the result is a suffix of `s` preceded only by whitespace. */
  function TrimStart(s: string): (r: string)
    ensures |r| <= |s| && r == s[|s| - |r|..]
    ensures AllWhitespace(s[..|s| - |r|])
    ensures r == [] || !IsWhitespace(r[0])
  {
    if s != [] && IsWhitespace(s[0]) then TrimStart(s[1..]) else s
  }

  /** Drops trailing whitespace: the result is a prefix of `s` followed only by whitespace. */
  function TrimEnd(s: string): (r: string)
    ensures |r| <= |s| && r == s[..|r|]
    ensures AllWhitespace(s[|r|..])
    ensures r == [] || !IsWhitespace(r[|r| - 1])
  {
    if s != [] && IsWhitespace(s[|s| - 1]) then TrimEnd(s[..|s| - 1]) else s
  }

  /** `s.trim()`. */
  function Trim(s: string): (r: string)
    ensures |r| <= |s|
    ensures r == [] || (!IsWhitespace(r[0]) && !IsWhitespace(r[|r| - 1]))
  {
    TrimEnd(TrimStart(s))
  }

  /** `trim` removes exactly a whitespace prefix and a whitespace suffix. */
  lemma TrimBounds(s: string) returns (i: nat, j: nat)
    ensures i <= j <= |s| && Trim(s) == s[i..j]
    ensures AllWhitespace(s[..i]) && AllWhitespace(s[j..])
  {
    var t := TrimStart(s);
    i := |s| - |t|;
    j := i + |TrimEnd(t)|;
    assert t[|TrimEnd(t)|..] == s[j..];
  }

  lemma {:induction false} TrimStartOf(pre: string, rest: string)
    requires AllWhitespace(pre)
    requires rest == [] || !IsWhitespace(rest[0])
    ensures TrimStart(pre + rest) == rest
  {
    if pre != [] {
      assert (pre + rest)[1..] == pre[1..] + rest;
      TrimStartOf(pre[1..], rest);
    } else {
      assert pre + rest == rest;
    }
  }

  lemma {:induction false} TrimEndOf(rest: string, post: string)
    requires AllWhitespace(post)
    requires rest == [] || !IsWhitespace(rest[|rest| - 1])
    ensures TrimEnd(rest + post) == rest
  {
    if post != [] {
      assert (rest + post)[..|rest + post| - 1] == rest + post[..|post| - 1];
      TrimEndOf(rest, post[..|post| - 1]);
    } else {
      assert rest + post == rest;
    }
  }

  /**
    The reference characterisation of `trim`: a string made of whitespace,
    then a core that neither starts nor ends with whitespace, then whitespace,
    trims to that core.
   */
  /** `trim` returns the slice left between a whitespace prefix and a whitespace suffix. */
  lemma TrimIsPaddedSlice(s: string)
    ensures exists i, j :: 0 <= i <= j <= |s| && AllWhitespace(s[..i]) && AllWhitespace(s[j..]) && Trim(s) == s[i..j]
  {
    var i, j := TrimBounds(s);
  }

  lemma TrimUnique(pre: string, core: string, post: string)
    requires AllWhitespace(pre) && AllWhitespace(post)
    requires core == [] || (!IsWhitespace(core[0]) && !IsWhitespace(core[|core| - 1]))
    ensures Trim(pre + core + post) == core
  {
    if core == [] {
      assert pre + core + post == (pre + post) + [];
      TrimStartOf(pre + post, []);
    } else {
      assert pre + core + post == pre + (core + post);
      TrimStartOf(pre, core + post);
      TrimEndOf(core, post);
    }
  }

  /** A string that neither starts nor ends with whitespace is its own trim. */
  lemma TrimFixpoint(t: string)
    requires t == [] || (!IsWhitespace(t[0]) && !IsWhitespace(t[|t| - 1]))
    ensures Trim(t) == t
  {
    var e: string := [];
    assert e + t + e == t;
    TrimUnique(e, t, e);
  }

  lemma TrimIdempotent(s: string)
    ensures Trim(Trim(s)) == Trim(s)
  {
    TrimFixpoint(Trim(s));
  }

  /** A string trims to "" exactly when it is all whitespace. */
  lemma TrimEmptyIff(s: string)
    ensures Trim(s) == [] <==> AllWhitespace(s)
  {
    if AllWhitespace(s) {
      assert s + [] + [] == s;
      TrimUnique(s, [], []);
    }
    if Trim(s) == [] {
      var i, j := TrimBounds(s);
      forall k | 0 <= k < |s| ensures IsWhitespace(s[k]) {
        if k < i { assert s[..i][k] == s[k]; } else { assert s[j..][k - j] == s[k]; }
      }
    }
  }

  // ---------------------------------------------------------------------
  // toUpperCase (ASCII letters only)
  // ---------------------------------------------------------------------

  predicate IsLower(c: char) { 'a' <= c <= 'z' }

  function UpperChar(c: char): (u: char)
    ensures !IsLower(u)
    ensures IsLower(c) ==> u as int == c as int - 32
    ensures !IsLower(c) ==> u == c
  {
    if IsLower(c) then (c as int - 32) as char else c
  }

  /** `s.toUpperCase()` for ASCII letters; every other character is kept. */
  function ToUpper(s: string): (r: string)
    ensures |r| == |s|
    ensures forall k :: 0 <= k < |s| ==> r[k] == UpperChar(s[k])
  {
    seq(|s|, k requires 0 <= k < |s| => UpperChar(s[k]))
  }

  lemma ToUpperIdempotent(s: string)
    ensures ToUpper(ToUpper(s)) == ToUpper(s)
  {
  }

  lemma ToUpperConcat(a: string, b: string)
    ensures ToUpper(a + b) == ToUpper(a) + ToUpper(b)
  {
  }

  // ---------------------------------------------------------------------
  // split
  // ---------------------------------------------------------------------

  /** `s.indexOf(c)` for a character that occurs. */
  function IndexOf(s: string, c: char): (i: nat)
    requires c in s
    ensures i < |s| && s[i] == c && c !in s[..i]
  {
    if s[0] == c then 0 else 1 + IndexOf(s[1..], c)
  }

  /** `s.split(sep)` for a one-character separator. */
  function Split(s: string, sep: char): (parts: seq<string>)
    ensures |parts| >= 1
    ensures forall k :: 0 <= k < |parts| ==> sep !in parts[k]
    ensures |parts| > 1 <==> sep in s
    ensures sep in s ==> parts[0] == s[..IndexOf(s, sep)]
    ensures sep !in s ==> parts == [s]
    decreases |s|
  {
    if sep in s then
      var i := IndexOf(s, sep);
      [s[..i]] + Split(s[i + 1..], sep)
    else
      [s]
  }

  /** The first part of a string that does not start with the separator starts with its first character. */
  lemma SplitHead(s: string, sep: char)
    requires s != [] && s[0] != sep
    ensures Split(s, sep)[0] != [] && Split(s, sep)[0][0] == s[0]
  {
    if sep in s {
      var i := IndexOf(s, sep);
      assert i > 0;
      assert Split(s, sep)[0] == s[..i];
    }
  }

  /** The second part is the first part of what follows the first separator. */
  lemma SplitSecond(s: string, sep: char)
    requires sep in s
    ensures |Split(s, sep)| > 1
    ensures Split(s, sep)[1] == Split(s[IndexOf(s, sep) + 1..], sep)[0]
  {
    var i := IndexOf(s, sep);
    assert Split(s, sep) == [s[..i]] + Split(s[i + 1..], sep);
  }

  /** `parts.join(sep)`, the inverse of `Split`. */
  function Join(parts: seq<string>, sep: char): string
    requires |parts| >= 1
  {
    if |parts| == 1 then parts[0] else parts[0] + [sep] + Join(parts[1..], sep)
  }

  lemma {:induction false} JoinSplit(s: string, sep: char)
    ensures Join(Split(s, sep), sep) == s
    decreases |s|
  {
    if sep in s {
      var i := IndexOf(s, sep);
      JoinSplit(s[i + 1..], sep);
      assert Split(s, sep)[1..] == Split(s[i + 1..], sep);
      assert s == s[..i] + [sep] + s[i + 1..];
    }
  }

  // ---------------------------------------------------------------------
  // decimal rendering
  // ---------------------------------------------------------------------

  predicate IsDigit(c: char) { '0' <= c <= '9' }

  predicate AllDigits(s: string) {
    forall k :: 0 <= k < |s| ==> IsDigit(s[k])
  }

  function DigitChar(d: nat): (c: char)
    requires d < 10
    ensures IsDigit(c) && c as int - '0' as int == d
  {
    (d + '0' as int) as char
  }

  /** The value of a string of decimal digits. */
  function DigitsValue(s: string): nat
    requires AllDigits(s)
  {
    if s == [] then 0 else 10 * DigitsValue(s[..|s| - 1]) + (s[|s| - 1] as int - '0' as int)
  }

  /** `String(n)` for a natural: its decimal digits without leading zeros. */
  function NatToString(n: nat): (s: string)
    ensures s != [] && AllDigits(s)
    ensures |s| > 1 ==> s[0] != '0'
  {
    if n < 10 then [DigitChar(n)] else NatToString(n / 10) + [DigitChar(n % 10)]
  }

  lemma {:induction false} NatToStringValue(n: nat)
    ensures DigitsValue(NatToString(n)) == n
  {
    if n >= 10 {
      NatToStringValue(n / 10);
      assert NatToString(n)[..|NatToString(n)| - 1] == NatToString(n / 10);
    }
  }

  function Zeros(k: nat): (z: string)
    ensures |z| == k && AllDigits(z)
    ensures forall i :: 0 <= i < k ==> z[i] == '0'
  {
    if k == 0 then [] else ['0'] + Zeros(k - 1)
  }

  /** Left-pads a digit string with zeros to at least `width` characters (`yyyy`). */
  function ZeroPad(s: string, width: nat): (r: string)
    requires AllDigits(s)
    ensures AllDigits(r)
    ensures |s| < width ==> |r| == width
    ensures |s| >= width ==> |r| == |s|
  {
    if |s| >= width then s else Zeros(width - |s|) + s
  }

  lemma {:induction false} ZerosValue(k: nat)
    ensures DigitsValue(Zeros(k)) == 0
  {
    if k > 0 {
      assert Zeros(k)[..k - 1] == Zeros(k - 1);
      ZerosValue(k - 1);
    }
  }

  lemma {:induction false} LeadingZerosValue(k: nat, s: string)
    requires AllDigits(s)
    ensures DigitsValue(Zeros(k) + s) == DigitsValue(s)
    decreases |s|
  {
    if s == [] {
      assert Zeros(k) + s == Zeros(k);
      ZerosValue(k);
    } else {
      assert (Zeros(k) + s)[..|Zeros(k) + s| - 1] == Zeros(k) + s[..|s| - 1];
      LeadingZerosValue(k, s[..|s| - 1]);
    }
  }

  /** Padding never changes the value a digit string denotes. */
  lemma ZeroPadValue(s: string, width: nat)
    requires AllDigits(s)
    ensures DigitsValue(ZeroPad(s, width)) == DigitsValue(s)
  {
    if |s| < width {
      var k := width - |s|;
      assert ZeroPad(s, width) == Zeros(k) + s;
      LeadingZerosValue(k, s);
    }
  }

  // ---------------------------------------------------------------------
  // toFixed(2)
  // ---------------------------------------------------------------------

  /**
    The number of hundredths `toFixed(2)` prints for a non-negative value:
    the nearest integer to 100 * x, the larger one on a tie.
   */
  function RoundCents(x: real): (c: nat)
    requires x >= 0.0
    ensures c as real - 0.5 <= 100.0 * x < c as real + 0.5
  {
    (100.0 * x + 0.5).Floor
  }

  /** Two decimal digits denote the number they spell. */
  lemma TwoDigitsValue(d: nat)
    requires d < 100
    ensures DigitsValue([DigitChar(d / 10), DigitChar(d % 10)]) == d
  {
    var t := [DigitChar(d / 10), DigitChar(d % 10)];
    assert t[..1] == [DigitChar(d / 10)] && t[..1][..0] == [];
    assert DigitsValue(t[..1]) == d / 10;
    assert DigitsValue(t) == 10 * (d / 10) + d % 10;
  }

  /**
    `t` spells `c` hundredths: the whole part without leading zeros, a
    point, and two decimals.
   */
  predicate SpellsCents(t: string, c: nat) {
    && |t| >= 4 && t[|t| - 3] == '.'
    && AllDigits(t[..|t| - 3]) && AllDigits(t[|t| - 2..])
    && (|t| > 4 ==> t[0] != '0')
    && DigitsValue(t[..|t| - 3]) * 100 + DigitsValue(t[|t| - 2..]) == c
  }

  /** `toFixed(2)` of a non-negative value: the rounded number of hundredths, spelled out. */
  function Fixed2NonNegative(x: real): (s: string)
    requires x >= 0.0
    ensures SpellsCents(s, RoundCents(x))
  {
    var c := RoundCents(x);
    var whole, cents := NatToString(c / 100), [DigitChar(c % 100 / 10), DigitChar(c % 10)];
    var s := whole + "." + cents;
    assert s[..|s| - 3] == whole && s[|s| - 2..] == cents;
    NatToStringValue(c / 100);
    assert c % 10 == c % 100 % 10;
    TwoDigitsValue(c % 100);
    s
  }

  /**
    `x.toFixed(2)`: a minus sign exactly for negative values, followed by
    the magnitude rounded to the nearest hundredth, spelled out.
   */
  function Fixed2(x: real): (s: string)
    ensures s != "" && (s[0] == '-' <==> x < 0.0)
    ensures x < 0.0 ==> SpellsCents(s[1..], RoundCents(-x))
    ensures x >= 0.0 ==> SpellsCents(s, RoundCents(x))
  {
    if x < 0.0 then
      var t := Fixed2NonNegative(-x);
      assert ("-" + t)[1..] == t;
      "-" + t
    else
      var s := Fixed2NonNegative(x);
      assert s[0] == s[..|s| - 3][0];
      s
  }
}
