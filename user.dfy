/** The user record (backend/models/User.js): its role, the field rules
    checked before a user is saved, the display name, and the redacted
    copy sent to clients. */
module Users {
  import opened Json

  datatype Role = Admin | Accountant | Sales | Inventory | Viewer

  // ---------------------------------------------------------------------
  // Field rules
  // ---------------------------------------------------------------------

  /** A character of the class `[a-zA-Z0-9_]`. */
  predicate IsWordChar(c: char) {
    ('a' <= c <= 'z') || ('A' <= c <= 'Z') || ('0' <= c <= '9') || c == '_'
  }

  /** `/^[a-zA-Z0-9_]+$/`, matched one character at a time: one word
      character, then either the end or another match. */
  predicate MatchesWordChars(s: string) {
    s != [] && IsWordChar(s[0]) && (|s| == 1 || MatchesWordChars(s[1..]))
  }

  /** The pattern accepts exactly the non-empty strings of word characters. */
  lemma {:induction false} MatchesWordCharsIff(s: string)
    ensures MatchesWordChars(s) <==> s != [] && forall i :: 0 <= i < |s| ==> IsWordChar(s[i])
  {
    if |s| > 1 {
      MatchesWordCharsIff(s[1..]);
      assert forall i :: 1 <= i < |s| ==> s[i] == s[1..][i - 1];
    }
  }

  /** `username`: 3 to 50 characters, all of them word characters. */
  predicate ValidUsername(u: string) {
    3 <= |u| <= 50 && MatchesWordChars(u)
  }

  /** `password`, before hashing: 6 to 255 characters. */
  predicate ValidPassword(p: string) {
    6 <= |p| <= 255
  }

  /** `first_name` and `last_name`: 1 to 100 characters. */
  predicate ValidName(n: string) {
    1 <= |n| <= 100
  }

  /** A username is valid exactly when it has 3 to 50 characters and every
      one of them is a letter, a digit or '_'. */
  lemma ValidUsernameCharacters(u: string)
    ensures ValidUsername(u) <==> 3 <= |u| <= 50 && forall i :: 0 <= i < |u| ==> IsWordChar(u[i])
  {
    MatchesWordCharsIff(u);
  }

  // ---------------------------------------------------------------------
  // getFullName
  // ---------------------------------------------------------------------

  /** `getFullName`: first name, one space, last name. */
  function FullName(first: string, last: string): (r: string)
    ensures |r| == |first| + 1 + |last|
    ensures r[..|first|] == first && r[|first|] == ' ' && r[|first| + 1..] == last
  {
    first + " " + last
  }

  /** The text before the first space, or all of `s` when it has none. */
  function BeforeFirstSpace(s: string): (r: string)
    ensures |r| <= |s| && r == s[..|r|] && ' ' !in r
    ensures |r| < |s| ==> s[|r|] == ' '
  {
    if s == [] || s[0] == ' ' then [] else [s[0]] + BeforeFirstSpace(s[1..])
  }

  /** When the first name holds no space, it is recovered from the full
      name as the text before the first space, and the last name as the
      rest after that space. */
  lemma FullNameSplits(first: string, last: string)
    requires ' ' !in first
    ensures BeforeFirstSpace(FullName(first, last)) == first
    ensures FullName(first, last)[|first| + 1..] == last
  {
    assert FullName(first, last) == first + (" " + last);
    BeforeFirstSpaceOf(first, " " + last);
  }

  lemma {:induction false} BeforeFirstSpaceOf(word: string, rest: string)
    requires ' ' !in word && rest != [] && rest[0] == ' '
    ensures BeforeFirstSpace(word + rest) == word
  {
    if word != [] {
      assert (word + rest)[0] == word[0] && (word + rest)[1..] == word[1..] + rest;
      assert word[0] in word;
      BeforeFirstSpaceOf(word[1..], rest);
    }
  }

  // ---------------------------------------------------------------------
  // toSafeJSON
  // ---------------------------------------------------------------------

  /** The columns never sent to a client. */
  const SensitiveKeys: set<string> :=
    {"password", "password_reset_token", "password_reset_expires", "email_verification_token"}

  /** `toSafeJSON`: a copy of the record with the four sensitive keys
      deleted one after another. Every other key keeps its value. */
  method ToSafeJson(user: map<string, Json>) returns (safe: map<string, Json>)
    ensures forall k :: k in SensitiveKeys ==> k !in safe
    ensures forall k :: k in user && k !in SensitiveKeys ==> k in safe && safe[k] == user[k]
    ensures forall k :: k in safe ==> k in user
  {
    safe := user;
    safe := safe - {"password"};
    safe := safe - {"password_reset_token"};
    safe := safe - {"password_reset_expires"};
    safe := safe - {"email_verification_token"};
  }
}
