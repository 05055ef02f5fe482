/** The JavaScript string built-ins the core relies on, stated on `seq<char>`:
    `Number.prototype.toString` and `parseInt` on decimal digits,
    `padStart`, `Array.prototype.join`, `String.prototype.replace` with a
    string pattern, the trailing-digits regular expression `(\d+)$`,
    `trim` and `toUpperCase`. */
module Text {

  // ---------------------------------------------------------------------
  // Decimal digits
  // ---------------------------------------------------------------------

  /** The characters matched by `\d` in a JavaScript regular expression. */
  predicate IsDigit(c: char) {
    '0' <= c <= '9'
  }

  predicate AllDigits(s: string) {
    forall i :: 0 <= i < |s| ==> IsDigit(s[i])
  }

  function DigitChar(d: nat): (c: char)
    requires d < 10
    ensures IsDigit(c)
  {
    ('0' as int + d) as char
  }

  function DigitValue(c: char): (d: nat)
    requires IsDigit(c)
    ensures d < 10 && DigitChar(d) == c
  {
    c as int - '0' as int
  }

  /** `parseInt` applied to a string made only of decimal digits
      (the empty string reads as 0, which is also how `padStart` treats the
      `NaN` that `parseInt("")` yields). */
  function ParseDigits(s: string): nat
    requires AllDigits(s)
  {
    if s == [] then 0 else ParseDigits(s[..|s| - 1]) * 10 + DigitValue(s[|s| - 1])
  }

  /** `n.toString()` for a non-negative integer: its shortest decimal spelling.
      Reading the spelling back gives `n`. */
  function Decimal(n: nat): (r: string)
    ensures |r| >= 1 && AllDigits(r)
    ensures ParseDigits(r) == n
    ensures n < 10 <==> |r| == 1
    ensures r[0] == '0' <==> n == 0
  {
    if n < 10 then [DigitChar(n)]
    else
      var r := Decimal(n / 10) + [DigitChar(n % 10)];
      assert r[..|r| - 1] == Decimal(n / 10);
      r
  }

  /** `parseInt` reads 0 exactly from a run of zeros. */
  lemma {:induction false} ParseDigitsZero(s: string)
    requires AllDigits(s)
    ensures ParseDigits(s) == 0 <==> forall i :: 0 <= i < |s| ==> s[i] == '0'
  {
    if s != [] {
      var p := s[..|s| - 1];
      ParseDigitsZero(p);
      assert forall i :: 0 <= i < |p| ==> p[i] == s[i];
    }
  }

  function Repeat(c: char, k: nat): (r: string)
    ensures |r| == k && forall i :: 0 <= i < k ==> r[i] == c
  {
    if k == 0 then [] else [c] + Repeat(c, k - 1)
  }

  /** A leading zero does not change the value read by `parseInt`. */
  lemma {:induction false} ParseDigitsLeadingZero(s: string)
    requires AllDigits(s)
    ensures AllDigits(['0'] + s) && ParseDigits(['0'] + s) == ParseDigits(s)
  {
    if s != [] {
      var t := ['0'] + s;
      assert t[..|t| - 1] == ['0'] + s[..|s| - 1];
      ParseDigitsLeadingZero(s[..|s| - 1]);
    }
  }

  /** Any number of leading zeros does not change the value read by `parseInt`. */
  lemma {:induction false} ParseDigitsLeadingZeros(k: nat, s: string)
    requires AllDigits(s)
    ensures AllDigits(Repeat('0', k) + s)
    ensures ParseDigits(Repeat('0', k) + s) == ParseDigits(s)
  {
    if k > 0 {
      var t := Repeat('0', k - 1) + s;
      ParseDigitsLeadingZeros(k - 1, s);
      ParseDigitsLeadingZero(t);
      assert Repeat('0', k) == ['0'] + Repeat('0', k - 1);
      assert Repeat('0', k) + s == ['0'] + t;
      assert ParseDigits(Repeat('0', k) + s) == ParseDigits(['0'] + t);
    } else {
      assert Repeat('0', k) + s == s;
    }
  }

  // ---------------------------------------------------------------------
  // padStart
  // ---------------------------------------------------------------------

  /** `s.padStart(width, fill)` with a one-character fill string: the fill
      is repeated in front of `s` up to `width` characters; a string that is
      already as long as `width` is returned unchanged, never truncated. */
  function PadStart(s: string, width: nat, fill: char): (r: string)
    ensures |r| == if |s| >= width then |s| else width
    ensures r[|r| - |s|..] == s
    ensures forall i :: 0 <= i < |r| - |s| ==> r[i] == fill
  {
    if |s| >= width then s else Repeat(fill, width - |s|) + s
  }

  /** Padding a decimal spelling with zeros keeps it a decimal spelling of
      the same number. */
  lemma ZeroPaddedDecimal(n: nat, width: nat)
    ensures AllDigits(PadStart(Decimal(n), width, '0'))
    ensures ParseDigits(PadStart(Decimal(n), width, '0')) == n
  {
    var d := Decimal(n);
    if |d| < width {
      ParseDigitsLeadingZeros(width - |d|, d);
    }
  }

  // ---------------------------------------------------------------------
  // The regular expression (\d+)$
  // ---------------------------------------------------------------------

  /** The longest suffix of `s` made of decimal digits: what `(\d+)$`
      captures, or the empty string when it does not match. */
  function TrailingDigits(s: string): (r: string)
    ensures AllDigits(r) && |r| <= |s| && r == s[|s| - |r|..]
    ensures |r| < |s| ==> !IsDigit(s[|s| - |r| - 1])
  {
    if s == [] || !IsDigit(s[|s| - 1]) then []
    else TrailingDigits(s[..|s| - 1]) + [s[|s| - 1]]
  }

  /** Behind a non-digit separator, a digit string is exactly what `(\d+)$` captures. */
  lemma {:induction false} TrailingDigitsAfterSeparator(head: string, sep: char, digits: string)
    requires !IsDigit(sep) && AllDigits(digits)
    ensures TrailingDigits(head + [sep] + digits) == digits
  {
    var s := head + [sep] + digits;
    if digits == [] {
    } else {
      var d' := digits[..|digits| - 1];
      assert s[..|s| - 1] == head + [sep] + d';
      TrailingDigitsAfterSeparator(head, sep, d');
      assert digits == d' + [digits[|digits| - 1]];
    }
  }

  // ---------------------------------------------------------------------
  // join
  // ---------------------------------------------------------------------

  /** `parts.join(sep)`: the first part at the front, and every later part
      behind a separator; a single part is returned as it is. */
  function Join(parts: seq<string>, sep: string): (r: string)
    ensures |parts| == 0 ==> r == ""
    ensures |parts| == 1 ==> r == parts[0]
    ensures |parts| > 0 ==> |r| >= |parts[0]| && r[..|parts[0]|] == parts[0]
    ensures |parts| > 0 ==> |r| >= |parts[|parts| - 1]|
    ensures |parts| > 1 ==> |r| >= |sep| + |parts[|parts| - 1]|
                            && r[|r| - |sep| - |parts[|parts| - 1]|..] == sep + parts[|parts| - 1]
  {
    if |parts| == 0 then ""
    else if |parts| == 1 then parts[0]
    else Join(parts[..|parts| - 1], sep) + sep + parts[|parts| - 1]
  }

  // ---------------------------------------------------------------------
  // replace with a string pattern
  // ---------------------------------------------------------------------

  /** `pat` occurs in `s` starting at index `i`. */
  predicate OccursAt(s: string, pat: string, i: nat) {
    i + |pat| <= |s| && s[i..i + |pat|] == pat
  }

  /** `s.replace(pat, rep)` with a non-empty string pattern: only the first
      occurrence of `pat` is replaced. */
  function ReplaceFirst(s: string, pat: string, rep: string): string
    requires |pat| > 0
    decreases |s|
  {
    if |s| < |pat| then s
    else if s[..|pat|] == pat then rep + s[|pat|..]
    else [s[0]] + ReplaceFirst(s[1..], pat, rep)
  }

  /** Shifting the start of the search by one character. */
  lemma OccursAtShift(s: string, pat: string, i: nat)
    requires |s| > 0
    ensures OccursAt(s, pat, i + 1) <==> OccursAt(s[1..], pat, i)
  {
    if i + 1 + |pat| <= |s| {
      assert s[i + 1..i + 1 + |pat|] == s[1..][i..i + |pat|];
    }
  }

  /** Without an occurrence of `pat`, `ReplaceFirst` returns `s` unchanged. */
  lemma {:induction false} ReplaceFirstAbsent(s: string, pat: string, rep: string)
    requires |pat| > 0
    requires forall i: nat :: !OccursAt(s, pat, i)
    ensures ReplaceFirst(s, pat, rep) == s
    decreases |s|
  {
    if |s| >= |pat| {
      assert !OccursAt(s, pat, 0);
      forall i: nat ensures !OccursAt(s[1..], pat, i) {
        OccursAtShift(s, pat, i);
      }
      ReplaceFirstAbsent(s[1..], pat, rep);
      assert s == [s[0]] + s[1..];
    }
  }

  /** `ReplaceFirst` splices `rep` in place of the leftmost occurrence of `pat`. */
  lemma {:induction false} ReplaceFirstLeftmost(s: string, pat: string, rep: string, i: nat)
    requires |pat| > 0
    requires OccursAt(s, pat, i)
    requires forall j: nat :: j < i ==> !OccursAt(s, pat, j)
    ensures ReplaceFirst(s, pat, rep) == s[..i] + rep + s[i + |pat|..]
    decreases i
  {
    if i == 0 {
      assert s[..|pat|] == pat;
    } else {
      assert !OccursAt(s, pat, 0);
      var r1 := ReplaceFirst(s[1..], pat, rep);
      assert ReplaceFirst(s, pat, rep) == [s[0]] + r1;
      LeftmostShift(s, pat, i);
      ReplaceFirstLeftmost(s[1..], pat, rep, i - 1);
      assert r1 == s[1..][..i - 1] + rep + s[1..][i - 1 + |pat|..];
      assert s[1..][..i - 1] == s[1..i];
      assert s[1..][i - 1 + |pat|..] == s[i + |pat|..];
      assert s[..i] == [s[0]] + s[1..i];
    }
  }

  lemma LeftmostShift(s: string, pat: string, i: nat)
    requires 0 < i && OccursAt(s, pat, i)
    requires forall j: nat :: j < i ==> !OccursAt(s, pat, j)
    ensures OccursAt(s[1..], pat, i - 1)
    ensures forall j: nat :: j < i - 1 ==> !OccursAt(s[1..], pat, j)
  {
    OccursAtShift(s, pat, i - 1);
    forall j: nat | j < i - 1 ensures !OccursAt(s[1..], pat, j) {
      OccursAtShift(s, pat, j);
    }
  }

  /** A replacement in `tail` is not disturbed by a `head` that cannot hold
      the start of the pattern. */
  lemma {:induction false} ReplaceFirstAfterHead(head: string, tail: string, pat: string, rep: string)
    requires |pat| > 0 && pat[0] !in head
    ensures ReplaceFirst(head + tail, pat, rep) == head + ReplaceFirst(tail, pat, rep)
  {
    if head != [] {
      var s := head + tail;
      assert s[0] == head[0] && s[0] != pat[0];
      assert s[1..] == head[1..] + tail;
      ReplaceFirstAfterHead(head[1..], tail, pat, rep);
      if |s| >= |pat| {
        assert s[..|pat|][0] != pat[0];
        assert ReplaceFirst(s, pat, rep) == [s[0]] + ReplaceFirst(s[1..], pat, rep);
        assert head == [head[0]] + head[1..];
      } else {
        assert ReplaceFirst(tail, pat, rep) == tail;
      }
    } else {
      assert head + tail == tail;
    }
  }

  /** A string that starts with the pattern has that occurrence replaced. */
  lemma ReplaceFirstAtStart(pat: string, tail: string, rep: string)
    requires |pat| > 0
    ensures ReplaceFirst(pat + tail, pat, rep) == rep + tail
  {
    var s := pat + tail;
    assert s[..|pat|] == pat;
    assert s[|pat|..] == tail;
  }

  // ---------------------------------------------------------------------
  // trim and toUpperCase
  // ---------------------------------------------------------------------

  /** The characters `String.prototype.trim` removes: the ECMAScript
      WhiteSpace and LineTerminator code points. */
  predicate IsJsWhitespace(c: char) {
    c == '\t' || c == '\n' || c == '\U{000B}' || c == '\U{000C}' || c == '\r' || c == ' '
    || c == '\U{00A0}' || c == '\U{1680}' || ('\U{2000}' <= c <= '\U{200A}')
    || c == '\U{2028}' || c == '\U{2029}' || c == '\U{202F}' || c == '\U{205F}'
    || c == '\U{3000}' || c == '\U{FEFF}'
  }

  predicate IsBlank(s: string) {
    forall i :: 0 <= i < |s| ==> IsJsWhitespace(s[i])
  }

  function TrimStart(s: string): (r: string)
    ensures |r| <= |s| && r == s[|s| - |r|..]
    ensures r != [] ==> !IsJsWhitespace(r[0])
    ensures IsBlank(s[..|s| - |r|])
  {
    if s != [] && IsJsWhitespace(s[0]) then
      var r := TrimStart(s[1..]);
      assert s[..|s| - |r|] == [s[0]] + s[1..][..|s| - 1 - |r|];
      r
    else s
  }

  function TrimEnd(s: string): (r: string)
    ensures |r| <= |s| && r == s[..|r|]
    ensures r != [] ==> !IsJsWhitespace(r[|r| - 1])
    ensures IsBlank(s[|r|..])
  {
    if s != [] && IsJsWhitespace(s[|s| - 1]) then
      var r := TrimEnd(s[..|s| - 1]);
      assert s[|r|..] == s[..|s| - 1][|r|..] + [s[|s| - 1]];
      r
    else s
  }

  /** `s.trim()`: leading and trailing white space removed; what is left
      is the piece of `s` between a blank head and a blank tail, and it
      neither starts nor ends with white space. */
  function Trim(s: string): (r: string)
    ensures |r| <= |s|
    ensures exists i, j :: 0 <= i <= j <= |s| && r == s[i..j] && IsBlank(s[..i]) && IsBlank(s[j..])
    ensures r != [] ==> !IsJsWhitespace(r[0]) && !IsJsWhitespace(r[|r| - 1])
  {
    var t := TrimStart(s);
    var trimmed := TrimEnd(t);
    assert trimmed != [] ==> trimmed[0] == t[0];
    var i := |s| - |t|;
    var j := i + |trimmed|;
    assert s[i..j] == trimmed;
    assert s[j..] == t[|trimmed|..];
    trimmed
  }

  lemma {:induction false} TrimStartOfBlank(s: string)
    requires IsBlank(s)
    ensures TrimStart(s) == []
  {
    if s != [] {
      TrimStartOfBlank(s[1..]);
    }
  }

  /** Trimming leaves nothing exactly when the string is all white space. */
  lemma TrimEmptyIffBlank(s: string)
    ensures Trim(s) == "" <==> IsBlank(s)
  {
    var t := TrimStart(s);
    if IsBlank(s) {
      TrimStartOfBlank(s);
    }
    if Trim(s) == "" {
      assert IsBlank(t[0..]);
      assert s == s[..|s| - |t|] + t;
    }
  }

  /** `toUpperCase` on the ASCII letters; other characters are kept. */
  function ToUpperAscii(s: string): (r: string)
    ensures |r| == |s|
    ensures forall i :: 0 <= i < |s| ==>
      r[i] == if 'a' <= s[i] <= 'z' then (s[i] as int - 32) as char else s[i]
  {
    if s == [] then []
    else [if 'a' <= s[0] <= 'z' then (s[0] as int - 32) as char else s[0]] + ToUpperAscii(s[1..])
  }

  /** `s.substring(0, n)`: the first `n` characters, or all of `s` if shorter. */
  function Take(s: string, n: nat): (r: string)
    ensures |r| == if |s| < n then |s| else n
    ensures r == s[..|r|]
  {
    if |s| <= n then s else s[..n]
  }
}
