/** The JavaScript values and String builtins the diagram generator relies on:
    an absent property (`undefined`), a thrown TypeError, and the String methods
    `trim`, `split(".").pop()`, `indexOf`, `substring`, `toLowerCase` and joining. */
module Js {

  /** A property that may be `undefined`. */
  datatype Option<+T> = None | Some(value: T)

  /** The TypeErrors the generator can throw. */
  datatype TypeError =
    | NoArrayPattern(text: string)  // `text.match(...)` gave null and `[1]` was read from it
    | FirstTypeNameUndefined        // `names[0].indexOf` on an empty `names` array

  /** A computation that either yields a value or throws. */
  datatype Result<+T> = Ok(value: T) | Throw(error: TypeError)

  /** True when a string property is present and non-empty, that is, truthy. */
  predicate Truthy(s: Option<string>) {
    s.Some? && s.value != ""
  }

  /** ECMAScript WhiteSpace and LineTerminator code points: what `trim` removes. */
  predicate IsWhiteSpace(c: char) {
    c == '\t' || c == '\n' || c == '\U{000B}' || c == '\U{000C}' || c == '\r' || c == ' '
    || c == '\U{00A0}' || c == '\U{1680}' || ('\U{2000}' <= c <= '\U{200A}')
    || c == '\U{2028}' || c == '\U{2029}' || c == '\U{202F}' || c == '\U{205F}'
    || c == '\U{3000}' || c == '\U{FEFF}'
  }

  /** LineTerminator code points: the characters a regular-expression `.` does not match. */
  predicate IsLineTerminator(c: char) {
    c == '\n' || c == '\r' || c == '\U{2028}' || c == '\U{2029}'
  }

  function TrimStart(s: string): (r: string)
    ensures |r| <= |s|
    ensures r == [] || !IsWhiteSpace(r[0])
  {
    if s != [] && IsWhiteSpace(s[0]) then TrimStart(s[1..]) else s
  }

  /** `TrimStart` drops a prefix of white space and nothing else. */
  lemma {:induction false} TrimStartDrops(s: string)
    ensures TrimStart(s) == s[|s| - |TrimStart(s)|..]
    ensures forall j :: 0 <= j < |s| - |TrimStart(s)| ==> IsWhiteSpace(s[j])
  {
    if s != [] && IsWhiteSpace(s[0]) {
      TrimStartDrops(s[1..]);
      assert s[1..][|s| - 1 - |TrimStart(s)|..] == s[|s| - |TrimStart(s)|..];
      forall j | 1 <= j < |s| - |TrimStart(s)| ensures IsWhiteSpace(s[j]) {
        assert s[1..][j - 1] == s[j];
      }
    }
  }

  function TrimEnd(s: string): (r: string)
    ensures |r| <= |s|
    ensures r == [] || !IsWhiteSpace(r[|r| - 1])
  {
    if s != [] && IsWhiteSpace(s[|s| - 1]) then TrimEnd(s[..|s| - 1]) else s
  }

  /** `TrimEnd` drops a suffix of white space and nothing else. */
  lemma {:induction false} TrimEndDrops(s: string)
    ensures TrimEnd(s) == s[..|TrimEnd(s)|]
    ensures forall j :: |TrimEnd(s)| <= j < |s| ==> IsWhiteSpace(s[j])
  {
    if s != [] && IsWhiteSpace(s[|s| - 1]) {
      TrimEndDrops(s[..|s| - 1]);
    }
  }

  /** `String.prototype.trim`. */
  function Trim(s: string): (r: string)
    ensures r == [] || (!IsWhiteSpace(r[0]) && !IsWhiteSpace(r[|r| - 1]))
  {
    TrimEndDrops(TrimStart(s));
    TrimEnd(TrimStart(s))
  }

  /** A string that starts and ends with a non-white-space character is its own trim. */
  lemma TrimOfTrimmed(s: string)
    requires s == [] || (!IsWhiteSpace(s[0]) && !IsWhiteSpace(s[|s| - 1]))
    ensures Trim(s) == s
  {
  }

  /** The text after the last '.', which is what `s.split(".").pop()` returns. */
  function LastSegment(s: string): (r: string)
    ensures |r| <= |s|
  {
    if s == [] then []
    else if s[|s| - 1] == '.' then []
    else LastSegment(s[..|s| - 1]) + [s[|s| - 1]]
  }

  /** The last segment is a suffix holding no '.', and a '.' stands right before it
      unless it is the whole string. */
  lemma {:induction false} LastSegmentSuffix(s: string)
    ensures LastSegment(s) == s[|s| - |LastSegment(s)|..]
    ensures |LastSegment(s)| < |s| ==> s[|s| - |LastSegment(s)| - 1] == '.'
    ensures '.' !in LastSegment(s)
  {
    if s != [] && s[|s| - 1] != '.' {
      var init := s[..|s| - 1];
      LastSegmentSuffix(init);
      assert LastSegment(s) == LastSegment(init) + [s[|s| - 1]];
      assert init[|init| - |LastSegment(init)|..] + [s[|s| - 1]] == s[|s| - |LastSegment(s)|..];
      if |LastSegment(init)| < |init| {
        assert init[|init| - |LastSegment(init)| - 1] == s[|s| - |LastSegment(s)| - 1];
      }
    }
  }

  /** `pat` occurs in `s` at index `j`. */
  predicate OccursAt(s: string, pat: string, j: int) {
    0 <= j && j + |pat| <= |s| && s[j..j + |pat|] == pat
  }

  function IndexOfFrom(s: string, pat: string, from: nat): (r: int)
    decreases |s| - from
    ensures r == -1 || from <= r
  {
    if from + |pat| > |s| then -1
    else if s[from..from + |pat|] == pat then from
    else IndexOfFrom(s, pat, from + 1)
  }

  /** The search from `from` stops at the first occurrence, and gives -1 only when there
      is none. */
  lemma {:induction false} IndexOfFromFirst(s: string, pat: string, from: nat)
    decreases |s| - from
    ensures var r := IndexOfFrom(s, pat, from);
      && (r == -1 || OccursAt(s, pat, r))
      && forall j :: from <= j && (r == -1 || j < r) ==> !OccursAt(s, pat, j)
  {
    if from + |pat| <= |s| && s[from..from + |pat|] != pat {
      IndexOfFromFirst(s, pat, from + 1);
    }
  }

  /** `s.indexOf(pat)`: the first index at which `pat` occurs, or -1. */
  function IndexOf(s: string, pat: string): (r: int)
    ensures r >= -1
  {
    IndexOfFrom(s, pat, 0)
  }

  /** `indexOf` finds the first occurrence, and gives -1 only when there is none. */
  lemma IndexOfFirst(s: string, pat: string)
    ensures IndexOf(s, pat) == -1 || OccursAt(s, pat, IndexOf(s, pat))
    ensures forall j :: 0 <= j && (IndexOf(s, pat) == -1 || j < IndexOf(s, pat)) ==> !OccursAt(s, pat, j)
  {
    IndexOfFromFirst(s, pat, 0);
  }

  function Clamp(i: int, len: nat): (r: nat)
    ensures r <= len
    ensures 0 <= i <= len ==> r == i
  {
    if i < 0 then 0 else if i > len then len else i
  }

  /** `s.substring(start, end)`: both bounds clamped to [0, |s|], then swapped if out of order. */
  function Substring(s: string, start: int, end: int): (r: string)
    ensures |r| <= |s|
  {
    var a, b := Clamp(start, |s|), Clamp(end, |s|);
    if a <= b then s[a..b] else s[b..a]
  }

  /** `s.substring(1, s.length - 1)`, used to drop a first and a last character. On a
      string of one character the bounds are swapped and the whole string is kept. */
  function StripOuter(s: string): (r: string)
  {
    Substring(s, 1, |s| - 1)
  }

  lemma StripOuterCases(s: string)
    ensures |s| >= 2 ==> StripOuter(s) == s[1..|s| - 1]
    ensures |s| == 1 ==> StripOuter(s) == s
    ensures |s| == 0 ==> StripOuter(s) == ""
  {
  }

  predicate IsUpper(c: char) {
    ('A' <= c <= 'Z') || ('\U{00C0}' <= c <= '\U{00DE}' && c != '\U{00D7}')
  }

  function LowerChar(c: char): (r: char)
    ensures !IsUpper(r)
    ensures !IsUpper(c) ==> r == c
  {
    if IsUpper(c) then (c as int + 32) as char else c
  }

  /** `s.toLowerCase()` for the Basic Latin and Latin-1 letters. */
  function ToLowerCase(s: string): (r: string)
    ensures |r| == |s|
  {
    seq(|s|, i requires 0 <= i < |s| => LowerChar(s[i]))
  }

  /** The lower-cased text holds no upper-case letter and keeps every other character. */
  lemma ToLowerCaseLowers(s: string)
    ensures forall i :: 0 <= i < |s| ==> !IsUpper(ToLowerCase(s)[i])
    ensures forall i :: 0 <= i < |s| && !IsUpper(s[i]) ==> ToLowerCase(s)[i] == s[i]
  {
    forall i | 0 <= i < |s| ensures ToLowerCase(s)[i] == LowerChar(s[i]) {
    }
  }

  /** `parts.join(sep)`. */
  function Join(parts: seq<string>, sep: string): (r: string)
    ensures |parts| == 1 ==> r == parts[0]
  {
    if parts == [] then ""
    else if |parts| == 1 then parts[0]
    else Join(parts[..|parts| - 1], sep) + sep + parts[|parts| - 1]
  }
}
