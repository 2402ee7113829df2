/** Parsing of an enumeration's source text into its values, as `manageEnum` does it:
    drop the outer characters, lower-case, split at ',' or ':' followed by a non-digit,
    and keep the first occurrence of each piece. */
module EnumValues {
  import opened Js

  predicate IsDigit(c: char) {
    '0' <= c <= '9'
  }

  /** The regular expression `/[,:](?=[^0-9])/` matches `s` at index `k`. */
  predicate IsSeparatorAt(s: string, k: int) {
    0 <= k && k + 1 < |s| && (s[k] == ',' || s[k] == ':') && !IsDigit(s[k + 1])
  }

  /** The lookahead only inspects the next character, so a suffix has the same separators. */
  lemma SeparatorShift(s: string, m: nat, k: nat)
    requires m <= |s|
    ensures IsSeparatorAt(s[m..], k) <==> IsSeparatorAt(s, m + k)
  {
    if m + k + 1 < |s| {
      assert s[m..][k] == s[m + k] && s[m..][k + 1] == s[m + k + 1];
    }
  }

  function FirstSeparator(s: string, from: nat): (r: Option<nat>)
    decreases |s| - from
    ensures r.Some? ==> from <= r.value < |s|
  {
    if from + 1 >= |s| then None
    else if IsSeparatorAt(s, from) then Some(from)
    else FirstSeparator(s, from + 1)
  }

  /** The scan stops at the first separator at or after `from`, and finds none only
      when there is none. */
  lemma {:induction false} FirstSeparatorIsFirst(s: string, from: nat)
    decreases |s| - from
    ensures var r := FirstSeparator(s, from);
      && (r.Some? ==> IsSeparatorAt(s, r.value))
      && forall j :: from <= j && (r.None? || j < r.value) ==> !IsSeparatorAt(s, j)
  {
    if from + 1 < |s| && !IsSeparatorAt(s, from) {
      FirstSeparatorIsFirst(s, from + 1);
    }
  }

  /** `s.split(/[,:](?=[^0-9])/)`: the pieces between separators. */
  function Split(s: string): (r: seq<string>)
    decreases |s|
    ensures |r| >= 1
  {
    match FirstSeparator(s, 0)
    case None => [s]
    case Some(k) => [s[..k]] + Split(s[k + 1..])
  }

  /** No piece contains a separator. */
  lemma {:induction false} SplitPiecesClean(s: string)
    decreases |s|
    ensures forall i, j :: 0 <= i < |Split(s)| ==> !IsSeparatorAt(Split(s)[i], j)
  {
    FirstSeparatorIsFirst(s, 0);
    match FirstSeparator(s, 0)
    case None =>
    case Some(k) =>
      SplitPiecesClean(s[k + 1..]);
      forall j ensures !IsSeparatorAt(s[..k], j) {
        if 0 <= j && j + 1 < k {
          assert !IsSeparatorAt(s, j);
          assert s[..k][j] == s[j] && s[..k][j + 1] == s[j + 1];
        }
      }
      assert Split(s) == [s[..k]] + Split(s[k + 1..]);
  }

  /** Where piece `i` starts in the text: after the earlier pieces and one separator
      character after each. */
  function Offset(pieces: seq<string>, i: nat): nat
    requires i <= |pieces|
  {
    if i == 0 then 0 else |pieces[0]| + 1 + Offset(pieces[1..], i - 1)
  }

  /** Piece `i` of `pieces` is the text of `s` at its offset, holds no index where the
      text itself has a separator, and is cut off by a separator of the text, or by the
      end of the text when it is the last piece. */
  ghost predicate PieceAt(s: string, pieces: seq<string>, i: nat)
    requires i < |pieces|
  {
    var o := Offset(pieces, i);
    var e := o + |pieces[i]|;
    && e <= |s|
    && pieces[i] == s[o..e]
    && (forall j :: o <= j < e ==> !IsSeparatorAt(s, j))
    && (i < |pieces| - 1 ==> IsSeparatorAt(s, e))
    && (i == |pieces| - 1 ==> e == |s|)
  }

  /** The split cuts the text exactly at its separators, judged on the whole text (the
      lookahead sees the character after the separator even when it starts the next
      piece). */
  lemma {:induction false} SplitCuts(s: string)
    decreases |s|
    ensures forall i :: 0 <= i < |Split(s)| ==> PieceAt(s, Split(s), i)
  {
    FirstSeparatorIsFirst(s, 0);
    match FirstSeparator(s, 0)
    case None =>
      assert Split(s) == [s];
      assert s[0..|s|] == s;
    case Some(k) =>
      var t := s[k + 1..];
      var pieces := Split(s);
      assert pieces == [s[..k]] + Split(t);
      assert pieces[1..] == Split(t);
      SplitCuts(t);
      forall i | 0 <= i < |pieces| ensures PieceAt(s, pieces, i) {
        if i == 0 {
          assert pieces[0] == s[0..k];
        } else {
          PieceShifted(s, k, pieces, i);
        }
      }
  }

  /** A piece after the first separator `k` is where the split of the rest puts it,
      shifted by `k + 1`. */
  lemma PieceShifted(s: string, k: nat, pieces: seq<string>, i: nat)
    requires k < |s| && 0 < i < |pieces|
    requires |pieces[0]| == k
    requires PieceAt(s[k + 1..], pieces[1..], i - 1)
    ensures PieceAt(s, pieces, i)
  {
    var t := s[k + 1..];
    var o' := Offset(pieces[1..], i - 1);
    var e' := o' + |pieces[i]|;
    assert pieces[1..][i - 1] == pieces[i];
    assert Offset(pieces, i) == k + 1 + o';
    assert t[o'..e'] == s[k + 1 + o'..k + 1 + e'];
    forall j | k + 1 + o' <= j < k + 1 + e' ensures !IsSeparatorAt(s, j) {
      SeparatorShift(s, k + 1, j - (k + 1));
    }
    SeparatorShift(s, k + 1, e');
  }

  /** A ',' followed by a digit does not split: `a,,1` gives `a` and `,1`. */
  lemma SplitBeforeDigit()
    ensures Split("a,,1") == ["a", ",1"]
  {
    var s := "a,,1";
    assert !IsSeparatorAt(s, 0) && IsSeparatorAt(s, 1);
    assert FirstSeparator(s, 0) == Some(1);
    var rest := ",1";
    assert s[2..] == rest;
    assert !IsSeparatorAt(rest, 0);
    assert FirstSeparator(rest, 0) == None;
    assert s[..1] == "a";
  }

  /** The separator characters of `s`, left to right (an independent scan of every index). */
  function SeparatorChars(s: string): (r: seq<char>)
    decreases |s|
  {
    if s == [] then []
    else (if IsSeparatorAt(s, 0) then [s[0]] else []) + SeparatorChars(s[1..])
  }

  /** Puts the pieces back together with one separator character between neighbours. */
  function Interleave(pieces: seq<string>, seps: seq<char>): string
    requires |pieces| == |seps| + 1
  {
    if |pieces| == 1 then pieces[0]
    else pieces[0] + [seps[0]] + Interleave(pieces[1..], seps[1..])
  }

  /** Splitting loses nothing: the pieces and the separators rebuild the text. */
  lemma {:induction false} SplitRejoins(s: string)
    decreases |s|
    ensures |Split(s)| == |SeparatorChars(s)| + 1
    ensures Interleave(Split(s), SeparatorChars(s)) == s
  {
    FirstSeparatorIsFirst(s, 0);
    match FirstSeparator(s, 0)
    case None =>
      SeparatorCharsSkip(s, |s|);
      assert s[|s|..] == [];
    case Some(k) =>
      SeparatorCharsSkip(s, k);
      SeparatorShift(s, k, 0);
      assert s[k..][1..] == s[k + 1..];
      assert SeparatorChars(s) == [s[k]] + SeparatorChars(s[k + 1..]);
      SplitRejoins(s[k + 1..]);
      assert s == s[..k] + [s[k]] + s[k + 1..];
  }

  /** Indices without a separator contribute no separator character. */
  lemma {:induction false} SeparatorCharsSkip(s: string, m: nat)
    requires m <= |s|
    requires forall j :: 0 <= j < m ==> !IsSeparatorAt(s, j)
    ensures SeparatorChars(s) == SeparatorChars(s[m..])
  {
    if m > 0 {
      assert !IsSeparatorAt(s, 0);
      forall j | 0 <= j < m - 1 ensures !IsSeparatorAt(s[1..], j) {
        SeparatorShift(s, 1, j);
      }
      SeparatorCharsSkip(s[1..], m - 1);
      assert s[1..][m - 1..] == s[m..];
    }
  }

  /** `s.indexOf(x)` on an array of strings: the first index holding `x`, or -1. */
  function FirstIndex(s: seq<string>, x: string): (r: int)
    ensures -1 <= r < |s|
  {
    FirstIndexFrom(s, x, 0)
  }

  function FirstIndexFrom(s: seq<string>, x: string, k: nat): (r: int)
    decreases |s| - k
    ensures r == -1 || k <= r < |s|
  {
    if k >= |s| then -1
    else if s[k] == x then k
    else FirstIndexFrom(s, x, k + 1)
  }

  /** The index found holds `x` and no earlier index from `k` on does; -1 means no index does. */
  lemma {:induction false} FirstIndexFromIsFirst(s: seq<string>, x: string, k: nat)
    decreases |s| - k
    ensures var r := FirstIndexFrom(s, x, k);
      && (r >= 0 ==> s[r] == x)
      && forall j :: k <= j < |s| && (r == -1 || j < r) ==> s[j] != x
  {
    if k < |s| && s[k] != x {
      FirstIndexFromIsFirst(s, x, k + 1);
    }
  }

  lemma FirstIndexIsFirst(s: seq<string>, x: string)
    ensures FirstIndex(s, x) >= 0 ==> s[FirstIndex(s, x)] == x
    ensures forall j :: 0 <= j < |s| && (FirstIndex(s, x) == -1 || j < FirstIndex(s, x)) ==> s[j] != x
  {
    FirstIndexFromIsFirst(s, x, 0);
  }

  lemma FirstIndexBelow(s: seq<string>, x: string, m: nat)
    requires m <= |s| && x in s[..m]
    ensures 0 <= FirstIndex(s, x) < m
  {
    var i :| 0 <= i < m && s[..m][i] == x;
    assert s[i] == x;
    FirstIndexIsFirst(s, x);
  }

  /** `s.slice(0, n).filter((elem, index, self) => index == self.indexOf(elem))` with
      `self` the whole of `s`: each value at its first occurrence, in that order. */
  function KeepFirst(s: seq<string>, n: nat): (r: seq<string>)
    requires n <= |s|
    ensures |r| <= n
  {
    if n == 0 then []
    else if FirstIndex(s, s[n - 1]) == n - 1 then KeepFirst(s, n - 1) + [s[n - 1]]
    else KeepFirst(s, n - 1)
  }

  /** `r` holds exactly the values of the first `n` of `s`, each at its first occurrence,
      in the order of those occurrences. */
  ghost predicate FirstOccurrences(s: seq<string>, n: nat, r: seq<string>)
    requires n <= |s|
  {
    && (forall x :: x in r <==> x in s[..n])
    && (forall i :: 0 <= i < |r| ==> 0 <= FirstIndex(s, r[i]) < n)
    && (forall i, j :: 0 <= i < j < |r| ==> FirstIndex(s, r[i]) < FirstIndex(s, r[j]))
  }

  /** The values kept are the first occurrences among the first `n`. */
  lemma {:induction false} KeepFirstFirsts(s: seq<string>, n: nat)
    requires n <= |s|
    ensures FirstOccurrences(s, n, KeepFirst(s, n))
  {
    if n > 0 {
      KeepFirstFirsts(s, n - 1);
      var prev := KeepFirst(s, n - 1);
      assert FirstOccurrences(s, n - 1, prev);
      var x := s[n - 1];
      assert s[..n] == s[..n - 1] + [x];
      if FirstIndex(s, x) == n - 1 {
        var r := prev + [x];
        assert KeepFirst(s, n) == r;
        assert forall i :: 0 <= i < |prev| ==> r[i] == prev[i];
        assert r[|prev|] == x;
        forall i | 0 <= i < |r| ensures 0 <= FirstIndex(s, r[i]) < n {
          if i < |prev| {
            assert r[i] == prev[i];
            assert 0 <= FirstIndex(s, prev[i]) < n - 1;
          } else {
            assert r[i] == x;
          }
        }
        forall i, j | 0 <= i < j < |r| ensures FirstIndex(s, r[i]) < FirstIndex(s, r[j]) {
          assert r[i] == prev[i];
          if j < |prev| {
            assert r[j] == prev[j];
          } else {
            assert FirstIndex(s, prev[i]) < n - 1;
          }
        }
      } else {
        assert KeepFirst(s, n) == prev;
        FirstIndexBelow(s, x, n);
        var f := FirstIndex(s, x);
        FirstIndexIsFirst(s, x);
        assert s[..n - 1][f] == x;
      }
    }
  }

  /** Duplicate pieces removed, first occurrences kept in order. */
  function Dedupe(s: seq<string>): (r: seq<string>)
    ensures |r| <= |s|
  {
    KeepFirst(s, |s|)
  }

  /** Deduplication keeps every value once and no other value. */
  lemma DedupeDistinct(s: seq<string>)
    ensures s != [] ==> Dedupe(s) != []
    ensures forall x :: x in Dedupe(s) <==> x in s
    ensures forall i, j :: 0 <= i < j < |Dedupe(s)| ==> Dedupe(s)[i] != Dedupe(s)[j]
  {
    KeepFirstFirsts(s, |s|);
    assert FirstOccurrences(s, |s|, Dedupe(s));
    assert s[..|s|] == s;
    assert s != [] ==> s[0] in s;
  }

  /** A sequence without duplicates is kept as it is. */
  lemma {:induction false} KeepFirstOfDistinct(s: seq<string>, n: nat)
    requires n <= |s|
    requires forall i, j :: 0 <= i < j < |s| ==> s[i] != s[j]
    ensures KeepFirst(s, n) == s[..n]
  {
    if n > 0 {
      KeepFirstOfDistinct(s, n - 1);
      FirstIndexIsFirst(s, s[n - 1]);
      FirstIndexBelow(s, s[n - 1], n);
      var f := FirstIndex(s, s[n - 1]);
      assert f == n - 1;
      assert s[..n] == s[..n - 1] + [s[n - 1]];
    }
  }

  lemma DedupeIdempotent(s: seq<string>)
    ensures Dedupe(Dedupe(s)) == Dedupe(s)
  {
    var d := Dedupe(s);
    DedupeDistinct(s);
    KeepFirstOfDistinct(d, |d|);
    assert d[..|d|] == d;
  }

  /** The values of an enumeration whose source text is `raw`, before each loses its
      first and last character. */
  function Values(raw: string): seq<string> {
    Dedupe(Split(ToLowerCase(StripOuter(raw))))
  }

  /** There is at least one value, no value repeats, and the values are exactly the pieces
      of the lower-cased text between its outer characters. */
  lemma ValuesDistinct(raw: string)
    ensures |Values(raw)| >= 1
    ensures forall i, j :: 0 <= i < j < |Values(raw)| ==> Values(raw)[i] != Values(raw)[j]
    ensures forall x :: x in Values(raw) <==> x in Split(ToLowerCase(StripOuter(raw)))
  {
    var pieces := Split(ToLowerCase(StripOuter(raw)));
    DedupeDistinct(pieces);
    assert Values(raw) == Dedupe(pieces);
  }

  /** A JSDoc value list `("RED","BLUE")` yields the two lower-cased quoted values. */
  lemma ValuesOfQuotedList()
    ensures Values("(\"RED\",\"BLUE\")") == ["\"red\"", "\"blue\""]
  {
    QuotedListLowered();
    SplitQuotedPair();
    KeepFirstOfDistinct(["\"red\"", "\"blue\""], 2);
  }

  lemma QuotedListLowered()
    ensures ToLowerCase(StripOuter("(\"RED\",\"BLUE\")")) == "\"red\",\"blue\""
  {
    var upper, lower := "\"RED\",\"BLUE\"", "\"red\",\"blue\"";
    var raw := "(\"RED\",\"BLUE\")";
    StripOuterCases(raw);
    assert raw[1..|raw| - 1] == upper;
    forall i | 0 <= i < |upper| ensures LowerChar(upper[i]) == lower[i] {
      assert upper[i] in "\",BDELRU";
    }
    assert ToLowerCase(upper) == lower;
  }

  lemma SplitQuotedPair()
    ensures Split("\"red\",\"blue\"") == ["\"red\"", "\"blue\""]
  {
    var lower := "\"red\",\"blue\"";
    assert IsSeparatorAt(lower, 5);
    assert FirstSeparator(lower, 0) == Some(5);
    var second := "\"blue\"";
    assert lower[6..] == second;
    assert FirstSeparator(second, 0) == None;
    assert lower[..5] == "\"red\"";
  }
}
