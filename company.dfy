/** Company-level formatting (backend/models/Company.js): the one-line postal
    address and the template-driven invoice and purchase-order numbers. */
module Companies {
  import opened Wrappers
  import opened Text

  /** The columns the formatting reads. Address parts are nullable; the
      year and the sequence number are passed to the generators. */
  datatype Company = Company(
    addressLine1: Option<string>,
    addressLine2: Option<string>,
    city: Option<string>,
    stateProvince: Option<string>,
    postalCode: Option<string>,
    country: Option<string>,
    invoiceNumberingPrefix: string,
    invoiceNumberingFormat: string,
    poNumberingPrefix: string,
    poNumberingFormat: string)

  /** The column default of both numbering formats. */
  const DefaultNumberingFormat: string := "{prefix}-{year}-{number:0000}"

  // ---------------------------------------------------------------------
  // getFullAddress
  // ---------------------------------------------------------------------

  /** The address parts in their fixed order. */
  function AddressParts(c: Company): seq<Option<string>> {
    [c.addressLine1, c.addressLine2, c.city, c.stateProvince, c.postalCode, c.country]
  }

  /** A part survives the filter: present and not blank. */
  predicate Kept(part: Option<string>) {
    part.Some? && !IsBlank(part.value)
  }

  /** `part && part.trim()` is truthy exactly for the kept parts: null and
      "" are falsy, and so is a trimmed value that is empty. */
  lemma KeptIsTruthyTrim(part: Option<string>)
    ensures Kept(part) <==> part.Some? && part.value != "" && Trim(part.value) != ""
  {
    if part.Some? {
      TrimEmptyIffBlank(part.value);
    }
  }

  /** The kept parts, in order, with their untrimmed values. */
  function KeptParts(parts: seq<Option<string>>): (r: seq<string>)
    ensures |r| <= |parts|
  {
    if parts == [] then []
    else (if Kept(parts[0]) then [parts[0].value] else []) + KeptParts(parts[1..])
  }

  /** Every kept value is one of the parts, and is not blank. */
  lemma {:induction false} KeptPartsAreKept(parts: seq<Option<string>>)
    ensures forall v :: v in KeptParts(parts) ==> Some(v) in parts && !IsBlank(v)
  {
    if parts != [] {
      KeptPartsAreKept(parts[1..]);
    }
  }

  /** Nothing is kept exactly when every part is missing or blank. */
  lemma {:induction false} KeptPartsEmpty(parts: seq<Option<string>>)
    ensures KeptParts(parts) == [] <==> forall p :: p in parts ==> !Kept(p)
  {
    if parts != [] {
      KeptPartsEmpty(parts[1..]);
      assert forall p :: p in parts ==> p == parts[0] || p in parts[1..];
    }
  }

  /** Filtering distributes over concatenation. */
  lemma {:induction false} KeptPartsAppend(a: seq<Option<string>>, b: seq<Option<string>>)
    ensures KeptParts(a + b) == KeptParts(a) + KeptParts(b)
  {
    if a == [] {
      assert a + b == b;
    } else {
      assert (a + b)[0] == a[0] && (a + b)[1..] == a[1..] + b;
      KeptPartsAppend(a[1..], b);
      var h := if Kept(a[0]) then [a[0].value] else [];
      assert KeptParts(a + b) == h + KeptParts(a[1..] + b);
      assert KeptParts(a) == h + KeptParts(a[1..]);
    }
  }

  /** A missing or blank part contributes nothing: it is as if it were null. */
  lemma UnkeptPartIsSkipped(a: seq<Option<string>>, p: Option<string>, b: seq<Option<string>>)
    requires p.None? || IsBlank(p.value)
    ensures KeptParts(a + [p] + b) == KeptParts(a + b)
  {
    KeptPartsAppend(a + [p], b);
    KeptPartsAppend(a, [p]);
    KeptPartsAppend(a, b);
    assert !Kept(p);
    assert KeptParts([p]) == [] + KeptParts([p][1..]);
    assert KeptParts([p]) == [];
  }

  /** `getFullAddress`: the kept parts joined with ", "; empty exactly when
      no part is kept. */
  function FullAddress(c: Company): (r: string)
    ensures r == "" <==> forall p :: p in AddressParts(c) ==> !Kept(p)
  {
    JoinedKeptPartsEmpty(AddressParts(c));
    KeptPartsEmpty(AddressParts(c));
    Join(KeptParts(AddressParts(c)), ", ")
  }

  /** Kept parts are never empty, so their join is empty only when there
      are none. */
  lemma JoinedKeptPartsEmpty(parts: seq<Option<string>>)
    ensures Join(KeptParts(parts), ", ") == "" <==> KeptParts(parts) == []
  {
    var kept := KeptParts(parts);
    if kept != [] {
      KeptPartsAreKept(parts);
      assert kept[|kept| - 1] in kept;
      assert kept[|kept| - 1] != "";
    }
  }

  /** With every part filled in, the address lists all six, untrimmed, in
      order. */
  lemma FullAddressAllParts(c: Company)
    requires Kept(c.addressLine1) && Kept(c.addressLine2) && Kept(c.city)
    requires Kept(c.stateProvince) && Kept(c.postalCode) && Kept(c.country)
    ensures FullAddress(c)
            == c.addressLine1.value + ", " + c.addressLine2.value + ", " + c.city.value + ", "
               + c.stateProvince.value + ", " + c.postalCode.value + ", " + c.country.value
  {
    var ps := AddressParts(c);
    var vs := [c.addressLine1.value, c.addressLine2.value, c.city.value,
               c.stateProvince.value, c.postalCode.value, c.country.value];
    assert KeptParts(ps[6..]) == [];
    assert KeptParts(ps[5..]) == vs[5..];
    assert KeptParts(ps[4..]) == vs[4..];
    assert KeptParts(ps[3..]) == vs[3..];
    assert KeptParts(ps[2..]) == vs[2..];
    assert KeptParts(ps[1..]) == vs[1..];
    assert KeptParts(ps) == vs;
    var sep := ", ";
    assert Join(vs[..1], sep) == vs[0];
    assert vs[..2][..1] == vs[..1];
    assert Join(vs[..2], sep) == vs[0] + sep + vs[1];
    assert vs[..3][..2] == vs[..2];
    assert Join(vs[..3], sep) == vs[0] + sep + vs[1] + sep + vs[2];
    assert vs[..4][..3] == vs[..3];
    assert Join(vs[..4], sep) == vs[0] + sep + vs[1] + sep + vs[2] + sep + vs[3];
    assert vs[..5][..4] == vs[..4];
    assert Join(vs[..5], sep) == vs[0] + sep + vs[1] + sep + vs[2] + sep + vs[3] + sep + vs[4];
    assert vs[..5] == vs[..|vs| - 1];
  }

  // ---------------------------------------------------------------------
  // The `{number:D}` tokens
  // ---------------------------------------------------------------------

  const NumberOpen: string := "{number:"

  /** The longest prefix of `s` made of digits. */
  function LeadingDigits(s: string): (r: string)
    ensures AllDigits(r) && |r| <= |s| && r == s[..|r|]
    ensures |r| < |s| ==> !IsDigit(s[|r|])
  {
    if s == [] || !IsDigit(s[0]) then [] else [s[0]] + LeadingDigits(s[1..])
  }

  /** The digits `D` when `s` starts with a match of `/{number:(\d+)}/`. */
  function NumberTokenAt(s: string): (r: Option<string>)
    ensures r.Some? ==> |r.value| > 0 && AllDigits(r.value)
                        && |s| >= 9 + |r.value| && s[..9 + |r.value|] == NumberOpen + r.value + "}"
  {
    if |s| < 8 || s[..8] != NumberOpen then None
    else
      var d := LeadingDigits(s[8..]);
      if d != [] && 8 + |d| < |s| && s[8 + |d|] == '}' then
        assert s[..9 + |d|] == s[..8] + s[8..][..|d|] + [s[8 + |d|]];
        Some(d)
      else None
  }

  /** A well-formed token is recognised with exactly its digits. */
  lemma NumberTokenRecognised(d: string, rest: string)
    requires |d| > 0 && AllDigits(d)
    ensures NumberTokenAt(NumberOpen + d + "}" + rest) == Some(d)
  {
    var s := NumberOpen + d + "}" + rest;
    assert s == NumberOpen + (d + ("}" + rest));
    assert s[..8] == NumberOpen;
    assert s[8..] == d + ("}" + rest);
    LeadingDigitsBefore(d, "}" + rest);
    assert s[8 + |d|] == '}';
  }

  lemma {:induction false} LeadingDigitsBefore(d: string, rest: string)
    requires AllDigits(d) && rest != [] && !IsDigit(rest[0])
    ensures LeadingDigits(d + rest) == d
  {
    if d != [] {
      assert (d + rest)[0] == d[0] && (d + rest)[1..] == d[1..] + rest;
      LeadingDigitsBefore(d[1..], rest);
    }
  }

  /** `.replace(/{number:(\d+)}/g, f)`: scanning left to right, every match
      is replaced by the sequence number left-padded with '0' to the width
      `width` gives for its digits; the scan resumes after the match. */
  function ExpandNumberTokens(s: string, n: nat, width: string -> nat): string
    decreases |s|
  {
    if s == [] then []
    else match NumberTokenAt(s)
      case Some(d) => PadStart(Decimal(n), width(d), '0') + ExpandNumberTokens(s[9 + |d|..], n, width)
      case None => [s[0]] + ExpandNumberTokens(s[1..], n, width)
  }

  /** Text before the first '{' is copied unchanged. */
  lemma {:induction false} ExpandAfterHead(head: string, tail: string, n: nat, width: string -> nat)
    requires '{' !in head
    ensures ExpandNumberTokens(head + tail, n, width) == head + ExpandNumberTokens(tail, n, width)
  {
    if head != [] {
      var s := head + tail;
      assert s[0] == head[0] && s[1..] == head[1..] + tail;
      assert head[0] in head;
      NoTokenWithoutBrace(s);
      ExpandPlainStep(s, n, width);
      ExpandAfterHead(head[1..], tail, n, width);
      assert [head[0]] + head[1..] == head;
    } else {
      assert head + tail == tail;
    }
  }

  /** Where no token starts, one character is copied. */
  lemma ExpandPlainStep(s: string, n: nat, width: string -> nat)
    requires s != [] && NumberTokenAt(s) == None
    ensures ExpandNumberTokens(s, n, width) == [s[0]] + ExpandNumberTokens(s[1..], n, width)
  {
  }

  /** A token starts with '{'. */
  lemma NoTokenWithoutBrace(s: string)
    requires s != [] && s[0] != '{'
    ensures NumberTokenAt(s) == None
  {
    if |s| >= 8 {
      assert s[..8][0] == s[0];
    }
  }

  /** A text with no '{' has no token and is returned unchanged. */
  lemma ExpandWithoutBrace(s: string, n: nat, width: string -> nat)
    requires '{' !in s
    ensures ExpandNumberTokens(s, n, width) == s
  {
    ExpandAfterHead(s, [], n, width);
    assert s + [] == s;
  }

  /** A token is replaced by the padded number and the scan goes on after it. */
  lemma ExpandToken(d: string, rest: string, n: nat, width: string -> nat)
    requires |d| > 0 && AllDigits(d)
    ensures ExpandNumberTokens(NumberOpen + d + "}" + rest, n, width)
            == PadStart(Decimal(n), width(d), '0') + ExpandNumberTokens(rest, n, width)
  {
    var s := NumberOpen + d + "}" + rest;
    NumberTokenRecognised(d, rest);
    assert s[9 + |d|..] == rest;
  }

  /** The width the code computes: `parseInt(padding.slice(1))`. The first
      digit is dropped; an empty remainder parses as NaN, which `padStart`
      treats as 0. So the width is 0, and nothing is padded, exactly when
      every digit after the first is a zero, as in `{number:0000}`. */
  function WidthAsWritten(d: string): (w: nat)
    requires AllDigits(d)
    ensures w == 0 <==> forall i :: 1 <= i < |d| ==> d[i] == '0'
  {
    if |d| <= 1 then 0
    else
      ParseDigitsZero(d[1..]);
      assert forall i :: 1 <= i < |d| ==> d[i] == d[1..][i - 1];
      ParseDigits(d[1..])
  }

  /** The first digit of a token has no say in the width the code computes:
      `{number:1000}` and `{number:9000}` pad alike. */
  lemma WidthAsWrittenIgnoresFirstDigit(c: char, c': char, rest: string)
    requires IsDigit(c) && IsDigit(c') && AllDigits(rest)
    ensures AllDigits([c] + rest) && AllDigits([c'] + rest)
    ensures WidthAsWritten([c] + rest) == WidthAsWritten([c'] + rest)
  {
    assert ([c] + rest)[1..] == rest && ([c'] + rest)[1..] == rest;
  }

  /** The width the `{number:0000}` notation denotes: one place per digit. */
  function Width(d: string): nat {
    |d|
  }

  /** With the meant width, the number fills at least as many places as the
      token has digits, is never cut, and reads back unchanged. */
  lemma PaddedToTokenWidth(d: string, n: nat)
    ensures |PadStart(Decimal(n), Width(d), '0')| == if |Decimal(n)| >= |d| then |Decimal(n)| else |d|
    ensures AllDigits(PadStart(Decimal(n), Width(d), '0'))
    ensures ParseDigits(PadStart(Decimal(n), Width(d), '0')) == n
  {
    ZeroPaddedDecimal(n, Width(d));
  }

  /** `WidthAsWritten` is total on token digits; elsewhere it is 0. */
  function WidthAsWrittenOrZero(d: string): nat {
    if AllDigits(d) then WidthAsWritten(d) else 0
  }

  /** The two widths disagree on the default token, so the default format
      does not pad. */
  lemma DefaultTokenWidths()
    ensures WidthAsWrittenOrZero("0000") == 0
    ensures Width("0000") == 4
  {
    assert "0000"[1..] == "000";
    assert "000"[..2] == "00" && "00"[..1] == "0" && "0"[..0] == "";
  }

  // ---------------------------------------------------------------------
  // generateInvoiceNumber / generatePONumber
  // ---------------------------------------------------------------------

  /** The shared chain: first `{prefix}`, then first `{year}`, then every
      `{number:D}`. */
  function ExpandTemplate(format: string, prefix: string, year: nat, n: nat, width: string -> nat): string {
    ExpandNumberTokens(ReplaceFirst(ReplaceFirst(format, "{prefix}", prefix), "{year}", Decimal(year)), n, width)
  }

  /** No replacement can apply to a text without '{'. */
  lemma NoBraceNoOccurrence(s: string, pat: string)
    requires |pat| > 0 && pat[0] == '{' && '{' !in s
    ensures forall i: nat :: !OccursAt(s, pat, i)
  {
    forall i: nat
      ensures !OccursAt(s, pat, i)
    {
      if i + |pat| <= |s| {
        assert s[i] in s;
        assert s[i..i + |pat|][0] != pat[0];
      }
    }
  }

  /** A format with no '{' is returned as it is. */
  lemma TemplateWithoutBrace(format: string, prefix: string, year: nat, n: nat, width: string -> nat)
    ensures '{' !in format ==> ExpandTemplate(format, prefix, year, n, width) == format
  {
    if '{' !in format {
      NoBraceNoOccurrence(format, "{prefix}");
      ReplaceFirstAbsent(format, "{prefix}", prefix);
      NoBraceNoOccurrence(format, "{year}");
      ReplaceFirstAbsent(format, "{year}", Decimal(year));
      ExpandWithoutBrace(format, n, width);
    }
  }

  lemma DigitsHaveNoBrace(s: string)
    requires AllDigits(s)
    ensures '{' !in s
  {
  }

  /** The layout `{prefix}S{year}T{number:D}U`, whose separators hold no
      '{' and whose prefix holds none either, becomes prefix, S, year, T,
      the number padded to the width of D, and U. */
  lemma TemplateLayout(prefix: string, s: string, t: string, d: string, u: string,
                       year: nat, n: nat, width: string -> nat)
    requires '{' !in prefix && '{' !in s && '{' !in t && '{' !in u
    requires |d| > 0 && AllDigits(d)
    ensures ExpandTemplate("{prefix}" + s + "{year}" + t + NumberOpen + d + "}" + u, prefix, year, n, width)
            == prefix + s + Decimal(year) + t + PadStart(Decimal(n), width(d), '0') + u
  {
    var y := Decimal(year);
    var token := NumberOpen + d + "}";
    var rest := t + token + u;
    assert "{prefix}" + s + "{year}" + t + NumberOpen + d + "}" + u == "{prefix}" + s + "{year}" + rest;
    PrefixAndYearReplaced(prefix, s, y, rest);
    DigitsHaveNoBrace(y);
    var head := prefix + s + y + t;
    assert prefix + s + y + rest == head + token + u;
    NumberTokenExpanded(head, d, u, n, width);
    assert head + PadStart(Decimal(n), width(d), '0') + u
        == prefix + s + y + t + PadStart(Decimal(n), width(d), '0') + u;
  }

  /** The first `{prefix}` and then the first `{year}` are replaced. */
  lemma PrefixAndYearReplaced(prefix: string, s: string, y: string, rest: string)
    requires '{' !in prefix && '{' !in s
    ensures ReplaceFirst(ReplaceFirst("{prefix}" + s + "{year}" + rest, "{prefix}", prefix), "{year}", y)
            == prefix + s + y + rest
  {
    var format := "{prefix}" + s + "{year}" + rest;
    assert format == "{prefix}" + (s + "{year}" + rest);
    ReplaceFirstAtStart("{prefix}", s + "{year}" + rest, prefix);
    var step1 := prefix + (s + "{year}" + rest);
    assert step1 == (prefix + s) + ("{year}" + rest);
    assert '{' !in prefix + s;
    ReplaceFirstAfterHead(prefix + s, "{year}" + rest, "{year}", y);
    ReplaceFirstAtStart("{year}", rest, y);
    assert (prefix + s) + (y + rest) == prefix + s + y + rest;
  }

  /** A text whose only '{' opens one token expands to the padded number
      in its place. */
  lemma NumberTokenExpanded(head: string, d: string, u: string, n: nat, width: string -> nat)
    requires '{' !in head && '{' !in u && |d| > 0 && AllDigits(d)
    ensures ExpandNumberTokens(head + (NumberOpen + d + "}") + u, n, width)
            == head + PadStart(Decimal(n), width(d), '0') + u
  {
    var token := NumberOpen + d + "}";
    assert head + token + u == head + (token + u);
    ExpandAfterHead(head, token + u, n, width);
    assert token + u == NumberOpen + d + "}" + u;
    ExpandToken(d, u, n, width);
    ExpandWithoutBrace(u, n, width);
  }

  /** `generateInvoiceNumber` as the code computes the padding width. */
  function GenerateInvoiceNumberAsWritten(c: Company, year: nat, sequenceNumber: nat): (r: string)
    ensures '{' !in c.invoiceNumberingFormat ==> r == c.invoiceNumberingFormat
  {
    TemplateWithoutBrace(c.invoiceNumberingFormat, c.invoiceNumberingPrefix, year, sequenceNumber, WidthAsWrittenOrZero);
    ExpandTemplate(c.invoiceNumberingFormat, c.invoiceNumberingPrefix, year, sequenceNumber, WidthAsWrittenOrZero)
  }

  /** `generateInvoiceNumber` with the width the token denotes. */
  function GenerateInvoiceNumber(c: Company, year: nat, sequenceNumber: nat): (r: string)
    ensures '{' !in c.invoiceNumberingFormat ==> r == c.invoiceNumberingFormat
  {
    TemplateWithoutBrace(c.invoiceNumberingFormat, c.invoiceNumberingPrefix, year, sequenceNumber, Width);
    ExpandTemplate(c.invoiceNumberingFormat, c.invoiceNumberingPrefix, year, sequenceNumber, Width)
  }

  /** `generatePONumber`: the same chain over the purchase-order columns. */
  function GeneratePONumber(c: Company, year: nat, sequenceNumber: nat): (r: string)
    ensures '{' !in c.poNumberingFormat ==> r == c.poNumberingFormat
  {
    TemplateWithoutBrace(c.poNumberingFormat, c.poNumberingPrefix, year, sequenceNumber, Width);
    ExpandTemplate(c.poNumberingFormat, c.poNumberingPrefix, year, sequenceNumber, Width)
  }

  /** `generatePONumber` as the code computes the padding width. */
  function GeneratePONumberAsWritten(c: Company, year: nat, sequenceNumber: nat): (r: string)
    ensures '{' !in c.poNumberingFormat ==> r == c.poNumberingFormat
  {
    TemplateWithoutBrace(c.poNumberingFormat, c.poNumberingPrefix, year, sequenceNumber, WidthAsWrittenOrZero);
    ExpandTemplate(c.poNumberingFormat, c.poNumberingPrefix, year, sequenceNumber, WidthAsWrittenOrZero)
  }

  /** The default format in the layout `TemplateLayout` expects. */
  lemma DefaultFormatLayout()
    ensures DefaultNumberingFormat == "{prefix}" + "-" + "{year}" + "-" + NumberOpen + "0000" + "}" + ""
  {
  }

  /** With the default format, the code leaves the number unpadded:
      prefix, year and number joined by '-'. */
  lemma DefaultInvoiceNumberAsWritten(c: Company, year: nat, n: nat)
    requires c.invoiceNumberingFormat == DefaultNumberingFormat && '{' !in c.invoiceNumberingPrefix
    ensures GenerateInvoiceNumberAsWritten(c, year, n)
            == c.invoiceNumberingPrefix + "-" + Decimal(year) + "-" + Decimal(n)
  {
    DefaultFormatLayout();
    TemplateLayout(c.invoiceNumberingPrefix, "-", "-", "0000", "", year, n, WidthAsWrittenOrZero);
    DefaultTokenWidths();
  }

  /** Sequence number 7 in 2024 with the default format: the code gives
      "INV-2024-7" where "INV-2024-0007" is meant. */
  lemma DefaultInvoiceNumberExample(c: Company)
    requires c.invoiceNumberingFormat == DefaultNumberingFormat && c.invoiceNumberingPrefix == "INV"
    ensures GenerateInvoiceNumberAsWritten(c, 2024, 7) == "INV-2024-7"
    ensures GenerateInvoiceNumber(c, 2024, 7) == "INV-2024-0007"
  {
    DefaultInvoiceNumberAsWritten(c, 2024, 7);
    DefaultInvoiceNumber(c, 2024, 7);
    SpelledExample();
    SpelledNumbers();
  }

  lemma SpelledNumbers()
    ensures "INV" + "-" + "2024" + "-" + "7" == "INV-2024-7"
    ensures "INV" + "-" + "2024" + "-" + "0007" == "INV-2024-0007"
  {
  }

  lemma SpelledExample()
    ensures Decimal(7) == "7" && Decimal(2024) == "2024"
    ensures PadStart("7", 4, '0') == "0007"
  {
    assert Decimal(2) == "2";
    assert Decimal(20) == "20";
    assert Decimal(202) == "202";
    assert Repeat('0', 3) == "000";
  }

  /** With the default format, the intended result pads the number to four
      digits, and its number reads back from the trailing digits. */
  lemma DefaultInvoiceNumber(c: Company, year: nat, n: nat)
    requires c.invoiceNumberingFormat == DefaultNumberingFormat && '{' !in c.invoiceNumberingPrefix
    ensures GenerateInvoiceNumber(c, year, n)
            == c.invoiceNumberingPrefix + "-" + Decimal(year) + "-" + PadStart(Decimal(n), 4, '0')
  {
    DefaultFormatLayout();
    TemplateLayout(c.invoiceNumberingPrefix, "-", "-", "0000", "", year, n, Width);
  }

  /** The sequence number reads back from the trailing digits of the
      intended default-format invoice number. */
  lemma DefaultInvoiceNumberReadsBack(c: Company, year: nat, n: nat)
    requires c.invoiceNumberingFormat == DefaultNumberingFormat && '{' !in c.invoiceNumberingPrefix
    ensures TrailingDigits(GenerateInvoiceNumber(c, year, n)) == PadStart(Decimal(n), 4, '0')
    ensures ParseDigits(TrailingDigits(GenerateInvoiceNumber(c, year, n))) == n
  {
    DefaultInvoiceNumber(c, year, n);
    ZeroPaddedDecimal(n, 4);
    TrailingDigitsAfterSeparator(c.invoiceNumberingPrefix + "-" + Decimal(year), '-', PadStart(Decimal(n), 4, '0'));
  }

  /** The purchase-order numbers follow the invoice rules over their own
      columns. */
  lemma PONumberMirrorsInvoiceNumber(c: Company, year: nat, n: nat)
    ensures GeneratePONumber(c, year, n)
            == GenerateInvoiceNumber(c.(invoiceNumberingPrefix := c.poNumberingPrefix,
                                        invoiceNumberingFormat := c.poNumberingFormat), year, n)
    ensures GeneratePONumberAsWritten(c, year, n)
            == GenerateInvoiceNumberAsWritten(c.(invoiceNumberingPrefix := c.poNumberingPrefix,
                                                  invoiceNumberingFormat := c.poNumberingFormat), year, n)
  {
  }
}
