/** Normalisation of symbol names and of JSDoc type expressions: `cleanName`,
    `cleanArrayType` and `cleanPromiseType` of the generator. */
module TypeNames {
  import opened Js

  /** The characters `cleanName` turns into '.'. */
  predicate IsNameSeparator(c: char) {
    c == '#' || c == '/' || c == '~' || c == '-' || c == ':'
  }

  /** `replace(/(\#|\/|\~|\-|\:)/g, '.')`. */
  function ReplaceSeparators(s: string): (r: string)
    ensures |r| == |s|
  {
    seq(|s|, i requires 0 <= i < |s| => if IsNameSeparator(s[i]) then '.' else s[i])
  }

  /** Every separator becomes '.', every other character stays, and none is left. */
  lemma ReplaceSeparatorsChars(s: string)
    ensures forall i :: 0 <= i < |s| ==> ReplaceSeparators(s)[i] == (if IsNameSeparator(s[i]) then '.' else s[i])
    ensures forall i :: 0 <= i < |s| ==> !IsNameSeparator(ReplaceSeparators(s)[i])
  {
  }

  /** `cleanName`: an absent name becomes "", otherwise the trimmed name with every
      separator character replaced by '.'. */
  function CleanName(text: Option<string>): (r: string)
    ensures text.None? ==> r == ""
    ensures |r| == |Trim(if text.Some? then text.value else "")|
  {
    ReplaceSeparators(Trim(if text.Some? then text.value else ""))
  }

  /** A cleaned name holds no separator character. */
  lemma CleanNameNoSeparators(text: Option<string>)
    ensures forall i :: 0 <= i < |CleanName(text)| ==> !IsNameSeparator(CleanName(text)[i])
  {
    ReplaceSeparatorsChars(Trim(if text.Some? then text.value else ""));
  }

  /** The short name of a symbol: the last '.'-segment of its cleaned name. */
  function ShortName(text: Option<string>): string
  {
    LastSegment(CleanName(text))
  }

  /** The short name is the part of the cleaned name after its last '.': a suffix of it
      holding neither '.' nor any separator. */
  lemma ShortNameSuffix(text: Option<string>)
    ensures var c := CleanName(text); var n := ShortName(text);
      && |n| <= |c| && c[|c| - |n|..] == n
      && (|n| < |c| ==> c[|c| - |n| - 1] == '.')
      && '.' !in n
      && forall i :: 0 <= i < |n| ==> !IsNameSeparator(n[i])
  {
    var c := CleanName(text);
    LastSegmentSuffix(c);
    CleanNameNoSeparators(text);
    var n := ShortName(text);
    forall i | 0 <= i < |n| ensures !IsNameSeparator(n[i]) {
      assert n[i] == c[|c| - |n| + i];
    }
  }

  /** Cleaning a cleaned name changes nothing. */
  lemma CleanNameIdempotent(text: Option<string>)
    ensures CleanName(Some(CleanName(text))) == CleanName(text)
  {
    var t := Trim(if text.Some? then text.value else "");
    var c := ReplaceSeparators(t);
    assert CleanName(text) == c;
    ReplaceSeparatorsChars(t);
    ReplaceSeparatorsChars(c);
    if c != [] {
      assert !IsWhiteSpace(t[0]) && !IsWhiteSpace(t[|t| - 1]);
      assert !IsWhiteSpace(c[0]);
      assert !IsWhiteSpace(c[|c| - 1]);
    }
    TrimOfTrimmed(c);
    assert Trim(c) == c;
    assert ReplaceSeparators(c) == c;
    assert CleanName(Some(c)) == ReplaceSeparators(Trim(c));
  }

  /** Index of the first '>' at or after `k`, or `|t|` when there is none. */
  function CloseAngle(t: string, k: nat): (r: nat)
    requires k <= |t|
    decreases |t| - k
    ensures k <= r <= |t|
  {
    if k == |t| || t[k] == '>' then k else CloseAngle(t, k + 1)
  }

  /** `CloseAngle` stops at the first '>' from `k` on. */
  lemma {:induction false} CloseAngleFirst(t: string, k: nat)
    requires k <= |t|
    decreases |t| - k
    ensures CloseAngle(t, k) < |t| ==> t[CloseAngle(t, k)] == '>'
    ensures forall j :: k <= j < CloseAngle(t, k) ==> t[j] != '>'
  {
    if k < |t| && t[k] != '>' {
      CloseAngleFirst(t, k + 1);
    }
  }

  /** The regular expression `/Array.<([^>]+)>/` matches `t` at index `p`: "Array", one
      character other than a line terminator, '<', then a non-empty run of characters
      other than '>' that is closed by a '>'. */
  predicate MatchesArrayAt(t: string, p: int) {
    0 <= p && p + 7 < |t|
    && t[p..p + 5] == "Array" && !IsLineTerminator(t[p + 5]) && t[p + 6] == '<'
    && t[p + 7] != '>' && CloseAngle(t, p + 7) < |t|
  }

  /** The capture group of the match at `p`: the longest run of non-'>' characters. */
  function ArrayGroup(t: string, p: nat): (g: string)
    requires MatchesArrayAt(t, p)
    ensures |g| > 0
  {
    t[p + 7..CloseAngle(t, p + 7)]
  }

  /** The group holds no '>' and is closed by one. */
  lemma ArrayGroupClosed(t: string, p: nat)
    requires MatchesArrayAt(t, p)
    ensures '>' !in ArrayGroup(t, p)
    ensures p + 7 + |ArrayGroup(t, p)| < |t| && t[p + 7 + |ArrayGroup(t, p)|] == '>'
  {
    CloseAngleFirst(t, p + 7);
    var g := ArrayGroup(t, p);
    forall i | 0 <= i < |g| ensures g[i] != '>' {
      assert g[i] == t[p + 7 + i];
    }
  }

  /** The leftmost match of `/Array.<([^>]+)>/` at or after `from`. */
  function FindArrayMatch(t: string, from: nat): (r: Option<nat>)
    decreases |t| - from
    ensures r.Some? ==> from <= r.value
  {
    if from + 7 >= |t| then None
    else if MatchesArrayAt(t, from) then Some(from)
    else FindArrayMatch(t, from + 1)
  }

  /** The search finds the leftmost match from `from` on, and none only when there is none. */
  lemma {:induction false} FindArrayMatchFirst(t: string, from: nat)
    decreases |t| - from
    ensures FindArrayMatch(t, from).Some? ==> MatchesArrayAt(t, FindArrayMatch(t, from).value)
    ensures FindArrayMatch(t, from).Some? ==> forall q :: from <= q < FindArrayMatch(t, from).value ==> !MatchesArrayAt(t, q)
    ensures FindArrayMatch(t, from).None? ==> forall q :: from <= q ==> !MatchesArrayAt(t, q)
  {
    if from + 7 < |t| && !MatchesArrayAt(t, from) {
      FindArrayMatchFirst(t, from + 1);
    }
  }

  /** `cleanArrayType`: the capture group of the leftmost match followed by "[]". When
      nothing matches, `match` returns null and reading `[1]` from it throws. */
  function CleanArrayType(t: string): Result<string> {
    FindArrayMatchFirst(t, 0);
    match FindArrayMatch(t, 0)
    case None => Throw(NoArrayPattern(t))
    case Some(p) => Ok(ArrayGroup(t, p) + "[]")
  }

  /** `cleanArrayType` throws exactly when the pattern matches nowhere; otherwise it gives
      the group of the leftmost match with "[]" appended, which holds no '>'. */
  lemma CleanArrayTypeMatches(t: string)
    ensures CleanArrayType(t).Throw? <==> forall p :: !MatchesArrayAt(t, p)
    ensures CleanArrayType(t).Ok? ==>
      exists p :: MatchesArrayAt(t, p) && (forall q :: 0 <= q < p ==> !MatchesArrayAt(t, q))
        && CleanArrayType(t).value == ArrayGroup(t, p) + "[]"
    ensures CleanArrayType(t).Ok? ==> '>' !in CleanArrayType(t).value
  {
    FindArrayMatchFirst(t, 0);
    match FindArrayMatch(t, 0)
    case None =>
    case Some(p) =>
      ArrayGroupClosed(t, p);
      var g := ArrayGroup(t, p);
      assert (g + "[]")[|g|] == '[' && (g + "[]")[|g| + 1] == ']';
      assert forall i :: 0 <= i < |g| ==> (g + "[]")[i] == g[i];
  }

  /** The result of `cleanArrayType` is read off the leftmost match. */
  lemma CleanArrayTypeAt(t: string, p: nat)
    requires MatchesArrayAt(t, p) && forall q :: 0 <= q < p ==> !MatchesArrayAt(t, q)
    ensures CleanArrayType(t) == Ok(ArrayGroup(t, p) + "[]")
  {
    FindArrayMatchFirst(t, 0);
  }

  /** `Array.<T>` (any character in place of '.') gives `T[]`, whatever follows. */
  lemma CleanArrayTypeOfWrapper(c: char, inner: string, rest: string)
    requires !IsLineTerminator(c) && |inner| > 0 && '>' !in inner
    ensures CleanArrayType("Array" + [c] + "<" + inner + ">" + rest) == Ok(inner + "[]")
  {
    var t := "Array" + [c] + "<" + inner + ">" + rest;
    assert t[..5] == "Array" && t[5] == c && t[6] == '<';
    assert t[7..7 + |inner|] == inner;
    assert t[7 + |inner|] == '>';
    CloseAngleAt(t, 7, 7 + |inner|);
    assert MatchesArrayAt(t, 0);
    CleanArrayTypeAt(t, 0);
  }

  /** `CloseAngle` finds the first '>' when there is one at `e`. */
  lemma {:induction false} CloseAngleAt(t: string, k: nat, e: nat)
    requires k <= e < |t| && t[e] == '>'
    requires forall j :: k <= j < e ==> t[j] != '>'
    decreases e - k
    ensures CloseAngle(t, k) == e
  {
    if k < e {
      CloseAngleAt(t, k + 1, e);
    }
  }

  /** `text.replace(/<|>/g, "")`. */
  function RemoveAngles(t: string): (r: string)
    ensures |r| <= |t|
  {
    if t == [] then []
    else (if t[0] == '<' || t[0] == '>' then [] else [t[0]]) + RemoveAngles(t[1..])
  }

  /** Removing the angle brackets leaves none. */
  lemma {:induction false} RemoveAnglesDrops(t: string)
    ensures '<' !in RemoveAngles(t) && '>' !in RemoveAngles(t)
  {
    if t != [] {
      RemoveAnglesDrops(t[1..]);
    }
  }

  /** Text without angle brackets is left as it is. */
  lemma {:induction false} RemoveAnglesKeeps(t: string)
    requires '<' !in t && '>' !in t
    ensures RemoveAngles(t) == t
  {
    if t != [] {
      RemoveAnglesKeeps(t[1..]);
      assert t == [t[0]] + t[1..];
    }
  }

  /** `cleanPromiseType`: when "Array." occurs after the first character the leftmost
      array pattern is flattened behind "Promise."; otherwise every '<' and '>' is removed. */
  function CleanPromiseType(t: string): Result<string> {
    if IndexOf(t, "Array.") > 0 then
      match CleanArrayType(t)
      case Ok(a) => Ok("Promise." + a)
      case Throw(e) => Throw(e)
    else Ok(RemoveAngles(t))
  }

  /** `cleanPromiseType` throws only when "Array." occurs after the first character and
      the array pattern matches nowhere. */
  lemma CleanPromiseTypeCases(t: string)
    ensures IndexOf(t, "Array.") <= 0 ==> CleanPromiseType(t) == Ok(RemoveAngles(t))
    ensures IndexOf(t, "Array.") > 0 ==> (CleanPromiseType(t).Ok? <==> exists p :: MatchesArrayAt(t, p))
    ensures IndexOf(t, "Array.") > 0 && CleanArrayType(t).Ok? ==> CleanPromiseType(t) == Ok("Promise." + CleanArrayType(t).value)
  {
    if IndexOf(t, "Array.") > 0 {
      CleanArrayTypeMatches(t);
    }
  }

  /** What `cleanPromiseType` returns holds no '>'. */
  lemma CleanPromiseTypeUnclosed(t: string)
    ensures CleanPromiseType(t).Ok? ==> '>' !in CleanPromiseType(t).value
  {
    if IndexOf(t, "Array.") > 0 {
      CleanArrayTypeMatches(t);
      if CleanArrayType(t).Ok? {
        var a := CleanArrayType(t).value;
        assert "Promise." + a == CleanPromiseType(t).value;
        assert '>' !in "Promise.";
      }
    } else {
      RemoveAnglesDrops(t);
    }
  }

  /** No match of "Array." or of the array pattern can start before the first 'A'. */
  lemma NoMatchBeforeA(t: string, n: nat)
    requires n <= |t| && forall j :: 0 <= j < n ==> t[j] != 'A'
    ensures forall j :: 0 <= j < n ==> !OccursAt(t, "Array.", j) && !MatchesArrayAt(t, j)
  {
    forall j | 0 <= j < n ensures !OccursAt(t, "Array.", j) && !MatchesArrayAt(t, j) {
      if j + 5 <= |t| {
        assert t[j..j + 5][0] == t[j];
      }
      if j + 6 <= |t| {
        assert t[j..j + 6][0] == t[j];
      }
    }
  }

  /** `Promise.<Array.<T>>` flattens to `Promise.T[]`. */
  lemma PromiseOfArrayFlattens(inner: string)
    requires |inner| > 0 && '>' !in inner
    ensures CleanPromiseType("Promise.<Array.<" + inner + ">>") == Ok("Promise." + inner + "[]")
  {
    var t := "Promise.<Array.<" + inner + ">>";
    PromiseOfArrayShape(inner);
    assert CleanArrayType(t) == Ok(inner + "[]");
    assert "Promise." + (inner + "[]") == "Promise." + inner + "[]";
  }

  /** In `Promise.<Array.<T>>`, "Array." first occurs at 9 and the array pattern matches there. */
  lemma PromiseOfArrayShape(inner: string)
    requires |inner| > 0 && '>' !in inner
    ensures IndexOf("Promise.<Array.<" + inner + ">>", "Array.") == 9
    ensures CleanArrayType("Promise.<Array.<" + inner + ">>") == Ok(inner + "[]")
  {
    var t := "Promise.<Array.<" + inner + ">>";
    PromiseOfArrayIndices(inner);
    forall j | 0 <= j < 9 ensures t[j] != 'A' {
      assert t[j] == t[..9][j];
    }
    NoMatchBeforeA(t, 9);
    assert OccursAt(t, "Array.", 9);
    IndexOfFirst(t, "Array.");
    CloseAngleAt(t, 16, 16 + |inner|);
    assert t[9..14] == t[9..15][..5];
    assert MatchesArrayAt(t, 9);
    CleanArrayTypeAt(t, 9);
  }

  lemma PromiseOfArrayIndices(inner: string)
    ensures var t := "Promise.<Array.<" + inner + ">>";
      && |t| == 18 + |inner| && t[..9] == "Promise.<" && t[9..15] == "Array." && t[15] == '<'
      && t[16..16 + |inner|] == inner && t[16 + |inner|] == '>'
      && forall j :: 16 <= j < 16 + |inner| ==> t[j] == inner[j - 16]
  {
  }

  /** `Promise.<T>` with a plain `T` flattens to `Promise.T`. */
  lemma PromiseOfPlainFlattens(inner: string)
    requires '<' !in inner && '>' !in inner && IndexOf(inner, "Array.") == -1
    ensures CleanPromiseType("Promise.<" + inner + ">") == Ok("Promise." + inner)
  {
    PromisePrefix();
    assert "Promise.<" + inner + ">" == "Promise." + "<" + inner + ">" == "Promise.<" + inner + ['>'];
    NoArrayDotAround("Promise.<", inner, '>');
    RemoveAnglesAround("Promise.", inner);
  }

  lemma PromisePrefix()
    ensures 'A' !in "Promise.<" && '<' !in "Promise." && '>' !in "Promise."
    ensures "Promise.<" == "Promise." + "<"
  {
  }

  /** "Array." does not occur in `pre + inner + [c]` when `pre` holds no 'A', `inner`
      holds no "Array." and `c` is not '.'. */
  lemma NoArrayDotAround(pre: string, inner: string, c: char)
    requires 'A' !in pre && c != '.'
    requires IndexOf(inner, "Array.") == -1
    ensures IndexOf(pre + inner + [c], "Array.") == -1
  {
    var t := pre + inner + [c];
    IndexOfFirst(inner, "Array.");
    IndexOfFirst(t, "Array.");
    forall j | 0 <= j ensures !OccursAt(t, "Array.", j) {
      if j + 6 <= |t| {
        if j < |pre| {
          assert t[j..j + 6][0] == t[j] == pre[j];
        } else if j + 6 <= |pre| + |inner| {
          assert t[j..j + 6] == inner[j - |pre|..j - |pre| + 6];
          assert !OccursAt(inner, "Array.", j - |pre|);
        } else {
          assert t[j..j + 6][5] == t[|t| - 1] == c;
        }
      }
    }
  }

  /** Removing the angle brackets of `pre<inner>` leaves `pre` and `inner`. */
  lemma RemoveAnglesAround(pre: string, inner: string)
    requires '<' !in pre && '>' !in pre && '<' !in inner && '>' !in inner
    ensures RemoveAngles(pre + "<" + inner + ">") == pre + inner
  {
    RemoveAnglesOpen(pre);
    RemoveAnglesConcat(pre + "<", inner);
    RemoveAnglesClose(pre + "<" + inner);
    RemoveAnglesKeeps(inner);
  }

  lemma RemoveAnglesOpen(pre: string)
    requires '<' !in pre && '>' !in pre
    ensures RemoveAngles(pre + "<") == pre
  {
    RemoveAnglesOfAngles();
    RemoveAnglesConcat(pre, "<");
    RemoveAnglesKeeps(pre);
    assert pre + "" == pre;
  }

  lemma RemoveAnglesClose(t: string)
    ensures RemoveAngles(t + ">") == RemoveAngles(t)
  {
    RemoveAnglesOfAngles();
    RemoveAnglesConcat(t, ">");
    assert RemoveAngles(t) + "" == RemoveAngles(t);
  }

  /** On one character: an angle bracket is dropped, any other character kept. With
      `RemoveAnglesConcat` this determines the result on every text. */
  lemma RemoveAnglesOfChar(c: char)
    ensures RemoveAngles([c]) == if c == '<' || c == '>' then [] else [c]
  {
    assert [c][1..] == [];
  }

  lemma RemoveAnglesOfAngles()
    ensures RemoveAngles("<") == "" && RemoveAngles(">") == ""
  {
    RemoveAnglesOfChar('<');
    RemoveAnglesOfChar('>');
  }

  lemma {:induction false} RemoveAnglesConcat(a: string, b: string)
    ensures RemoveAngles(a + b) == RemoveAngles(a) + RemoveAngles(b)
  {
    if a != [] {
      assert (a + b)[1..] == a[1..] + b;
      RemoveAnglesConcat(a[1..], b);
    } else {
      assert a + b == b;
    }
  }
}
