/** String helpers shared by the modules: white-space trimming, ASCII case
    folding, substring search, and decimal rendering of natural numbers.
    Strings are sequences of characters; case folding covers ASCII only. */
module Text {
  import opened Wrappers

  /** The characters `trim` removes: the white space and line terminators of
      ECMAScript, that is tab, vertical tab, form feed, the byte-order mark,
      the Unicode space separators, and line feed, carriage return, and the
      line and paragraph separators. */
  predicate IsSpace(c: char) {
    c == '\t' || c == '\U{0B}' || c == '\U{0C}' || c == '\U{FEFF}'
    || c == ' ' || c == '\U{A0}' || c == '\U{1680}' || ('\U{2000}' <= c <= '\U{200A}')
    || c == '\U{202F}' || c == '\U{205F}' || c == '\U{3000}'
    || c == '\n' || c == '\r' || c == '\U{2028}' || c == '\U{2029}'
  }

  predicate AllSpace(s: string) {
    forall i :: 0 <= i < |s| ==> IsSpace(s[i])
  }

  /** Drops the leading white space. */
  function TrimStart(s: string): string {
    if s != [] && IsSpace(s[0]) then TrimStart(s[1..]) else s
  }

  /** Drops the trailing white space. */
  function TrimEnd(s: string): string {
    if s != [] && IsSpace(s[|s| - 1]) then TrimEnd(s[..|s| - 1]) else s
  }

  /** `String.prototype.trim`. */
  function Trim(s: string): string {
    TrimEnd(TrimStart(s))
  }

  /** `TrimStart` keeps a suffix and drops only white space before it, up to
      the first character that is not white space. */
  lemma {:induction false} TrimStartDropsSpace(s: string)
    ensures |TrimStart(s)| <= |s| && TrimStart(s) == s[|s| - |TrimStart(s)|..]
    ensures AllSpace(s[..|s| - |TrimStart(s)|])
    ensures TrimStart(s) == [] || !IsSpace(TrimStart(s)[0])
    decreases |s|
  {
    if s != [] && IsSpace(s[0]) {
      var r := TrimStart(s[1..]);
      TrimStartDropsSpace(s[1..]);
      assert s[1..][..|s[1..]| - |r|] == s[1..|s| - |r|];
    }
  }

  /** `TrimEnd` keeps a prefix and drops only white space after it, back to
      the last character that is not white space. */
  lemma {:induction false} TrimEndDropsSpace(s: string)
    ensures |TrimEnd(s)| <= |s| && TrimEnd(s) == s[..|TrimEnd(s)|]
    ensures AllSpace(s[|TrimEnd(s)|..])
    ensures TrimEnd(s) == [] || !IsSpace(TrimEnd(s)[|TrimEnd(s)| - 1])
    decreases |s|
  {
    if s != [] && IsSpace(s[|s| - 1]) {
      var r := TrimEnd(s[..|s| - 1]);
      TrimEndDropsSpace(s[..|s| - 1]);
      assert s[|r|..] == s[..|s| - 1][|r|..] + [s[|s| - 1]];
    }
  }

  /** A string of white space trims to nothing. */
  lemma {:induction false} TrimStartOfSpace(s: string)
    requires AllSpace(s)
    ensures TrimStart(s) == []
    decreases |s|
  {
    if s != [] {
      assert IsSpace(s[0]);
      TrimStartOfSpace(s[1..]);
    }
  }

  /** A string trims to nothing exactly when it is all white space. */
  lemma TrimEmptyIffAllSpace(s: string)
    ensures Trim(s) == [] <==> AllSpace(s)
  {
    if AllSpace(s) {
      TrimStartOfSpace(s);
    }
    var a := TrimStart(s);
    if Trim(s) == [] {
      TrimStartDropsSpace(s);
      TrimEndDropsSpace(a);
      assert AllSpace(a[0..]);
      assert a == [];
      assert s[..|s|] == s;
    }
  }

  /** Trimming leaves a string without surrounding white space untouched. */
  lemma TrimKeepsTrimmed(s: string)
    requires s == [] || (!IsSpace(s[0]) && !IsSpace(s[|s| - 1]))
    ensures Trim(s) == s
  {
  }

  /** Leading white space does not change the trimmed result. */
  lemma {:induction false} TrimIgnoresLeadingSpace(w: string, s: string)
    requires AllSpace(w)
    ensures TrimStart(w + s) == TrimStart(s)
    decreases |w|
  {
    if w != [] {
      var ws := w + s;
      assert ws[0] == w[0] && IsSpace(w[0]);
      assert ws[1..] == w[1..] + s;
      assert TrimStart(ws) == TrimStart(ws[1..]);
      TrimIgnoresLeadingSpace(w[1..], s);
    } else {
      assert w + s == s;
    }
  }

  /** Trailing white space does not change the end-trimmed result. */
  lemma {:induction false} TrimEndIgnoresTrailingSpace(s: string, w: string)
    requires AllSpace(w)
    ensures TrimEnd(s + w) == TrimEnd(s)
    decreases |w|
  {
    if w == [] {
      assert s + w == s;
    } else {
      var sw := s + w;
      assert sw[|sw| - 1] == w[|w| - 1];
      assert sw[..|sw| - 1] == s + w[..|w| - 1];
      TrimEndIgnoresTrailingSpace(s, w[..|w| - 1]);
    }
  }

  /** Trimming a string without surrounding white space, wrapped in white
      space, gives the string back. */
  lemma TrimUnwraps(w1: string, s: string, w2: string)
    requires AllSpace(w1) && AllSpace(w2)
    requires s == [] || (!IsSpace(s[0]) && !IsSpace(s[|s| - 1]))
    ensures Trim(w1 + s + w2) == s
  {
    assert w1 + s + w2 == w1 + (s + w2);
    TrimIgnoresLeadingSpace(w1, s + w2);
    if s == [] {
      assert s + w2 == w2;
      TrimStartOfSpace(w2);
    } else {
      assert (s + w2)[0] == s[0];
      TrimEndIgnoresTrailingSpace(s, w2);
    }
  }

  /** ASCII `toLowerCase` of one character. */
  function LowerChar(c: char): (d: char)
    ensures 'A' <= c <= 'Z' ==> 'a' <= d <= 'z' && d as int - c as int == 32
    ensures !('A' <= c <= 'Z') ==> d == c
  {
    if 'A' <= c <= 'Z' then (c as int + 32) as char else c
  }

  /** ASCII `toLowerCase` of a string: same length, each character folded. */
  function Lower(s: string): (r: string)
    ensures |r| == |s|
    ensures forall i :: 0 <= i < |s| ==> r[i] == LowerChar(s[i])
  {
    seq(|s|, i requires 0 <= i < |s| => LowerChar(s[i]))
  }

  /** Folding twice folds once. */
  lemma LowerIdempotent(s: string)
    ensures Lower(Lower(s)) == Lower(s)
  {
  }

  /** `t` occurs in `s` starting at index `i`. */
  predicate OccursAt(s: string, t: string, i: int) {
    0 <= i && i + |t| <= |s| && s[i..i + |t|] == t
  }

  /** `String.prototype.includes`: a scan over the start positions. */
  function Contains(s: string, t: string): bool
    decreases |s|
  {
    if |t| > |s| then false
    else if s[..|t|] == t then true
    else Contains(s[1..], t)
  }

  /** The scan finds `t` exactly when `t` occurs somewhere in `s`. */
  lemma {:induction false} ContainsIff(s: string, t: string)
    ensures Contains(s, t) <==> exists i :: OccursAt(s, t, i)
    decreases |s|
  {
    if |t| <= |s| && s[..|t|] != t {
      var rest := s[1..];
      ContainsIff(rest, t);
      if Contains(s, t) {
        var i :| OccursAt(rest, t, i);
        assert rest[i..i + |t|] == s[i + 1..i + 1 + |t|];
        assert OccursAt(s, t, i + 1);
      }
      if exists i :: OccursAt(s, t, i) {
        var i :| OccursAt(s, t, i);
        assert i != 0;
        assert rest[i - 1..i - 1 + |t|] == s[i..i + |t|];
        assert OccursAt(rest, t, i - 1);
      }
    } else if |t| <= |s| {
      assert OccursAt(s, t, 0);
    }
  }

  /** The empty string occurs in every string. */
  lemma ContainsEmpty(s: string)
    ensures Contains(s, [])
  {
    ContainsIff(s, []);
    assert OccursAt(s, [], 0);
  }

  /** Every string contains itself. */
  lemma ContainsSelf(s: string)
    ensures Contains(s, s)
  {
    ContainsIff(s, s);
    assert OccursAt(s, s, 0);
  }

  function DigitChar(d: nat): (c: char)
    requires d < 10
    ensures '0' <= c <= '9' && c as int - '0' as int == d
  {
    ('0' as int + d) as char
  }

  predicate IsDigit(c: char) {
    '0' <= c <= '9'
  }

  predicate AllDigits(s: string) {
    forall i :: 0 <= i < |s| ==> IsDigit(s[i])
  }

  /** `Number.prototype.toString()` for a natural number: its decimal digits,
      most significant first, without leading zeros. */
  function NatToString(n: nat): (s: string)
    ensures 1 <= |s| && AllDigits(s)
    ensures s[0] == '0' <==> n == 0
    ensures n < 10 <==> |s| == 1
    decreases n
  {
    if n < 10 then [DigitChar(n)]
    else NatToString(n / 10) + [DigitChar(n % 10)]
  }

  /** The number a string of decimal digits denotes. */
  function DecimalValue(s: string): nat
    requires AllDigits(s)
  {
    if s == [] then 0
    else DecimalValue(s[..|s| - 1]) * 10 + (s[|s| - 1] as int - '0' as int)
  }

  /** Rendering a number in decimal and reading it back gives the number. */
  lemma {:induction false} DecimalRoundTrip(n: nat)
    ensures DecimalValue(NatToString(n)) == n
    decreases n
  {
    if n >= 10 {
      var s := NatToString(n);
      assert s[..|s| - 1] == NatToString(n / 10);
      DecimalRoundTrip(n / 10);
    }
  }

  /** Decimal rendering is one-to-one. */
  lemma NatToStringInjective(m: nat, n: nat)
    requires NatToString(m) == NatToString(n)
    ensures m == n
  {
    DecimalRoundTrip(m);
    DecimalRoundTrip(n);
  }

  /** `padStart(2, '0')`: strings shorter than two characters get one leading zero. */
  function PadTwo(s: string): (r: string)
    ensures |s| < 2 ==> r == ['0'] + s
    ensures |s| >= 2 ==> r == s
  {
    if |s| < 2 then ['0'] + s else s
  }

  /** A number below 100 renders, zero-padded, as exactly two digits that read back as it. */
  lemma PadTwoOfSmall(n: nat)
    requires n < 100
    ensures |PadTwo(NatToString(n))| == 2
    ensures AllDigits(PadTwo(NatToString(n)))
    ensures DecimalValue(PadTwo(NatToString(n))) == n
  {
    var s := NatToString(n);
    DecimalRoundTrip(n);
    if n < 10 {
      var p := PadTwo(s);
      assert p[..1] == "0";
      assert p[..1][..0] == [];
    } else {
      assert NatToString(n / 10) == [DigitChar(n / 10)];
    }
  }

  /** The number of leading decimal digits of `s`. */
  function DigitRun(s: string): (k: nat)
    ensures k <= |s| && AllDigits(s[..k])
    ensures k == |s| || !IsDigit(s[k])
  {
    if s != [] && IsDigit(s[0]) then
      var k := DigitRun(s[1..]) + 1;
      assert s[..k] == [s[0]] + s[1..][..k - 1];
      k
    else 0
  }

  /** The digit run of a digit string followed by a non-digit is that string. */
  lemma {:induction false} DigitRunOfDigits(d: string, rest: string)
    requires AllDigits(d)
    requires rest == [] || !IsDigit(rest[0])
    ensures DigitRun(d + rest) == |d|
    decreases |d|
  {
    if d == [] {
      assert d + rest == rest;
    } else {
      assert (d + rest)[0] == d[0];
      assert (d + rest)[1..] == d[1..] + rest;
      DigitRunOfDigits(d[1..], rest);
    }
  }

  /** Reads a decimal number followed by the separator `sep`, returning the
      number and what follows the separator. */
  function ReadNumber(t: string, sep: string): Option<(nat, string)> {
    var k := DigitRun(t);
    if k == 0 || k + |sep| > |t| || t[k..k + |sep|] != sep then None
    else Some((DecimalValue(t[..k]), t[k + |sep|..]))
  }

  /** `ReadNumber` undoes the rendering of a number followed by a separator
      that does not start with a digit. */
  lemma ReadNumberRoundTrip(n: nat, sep: string, rest: string)
    requires sep != [] && !IsDigit(sep[0])
    ensures ReadNumber(NatToString(n) + (sep + rest), sep) == Some((n, rest))
  {
    var d := NatToString(n);
    var t := d + (sep + rest);
    DigitRunOfDigits(d, sep + rest);
    assert t[..|d|] == d;
    assert t[|d|..|d| + |sep|] == sep;
    assert t[|d| + |sep|..] == rest;
    DecimalRoundTrip(n);
  }
}
