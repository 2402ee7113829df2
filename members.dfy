/** What the third pass of `publish` writes for one record: an attribute (with a relation
    to a known class), a method, or an event of the record's owning class, or nothing. */
module Members {
  import opened Js
  import opened TypeNames
  import opened Symbols
  import opened Mermaid

  /** `names[0]` followed by a method call: an empty `names` array throws. */
  function FirstTypeName(names: seq<string>): (r: Result<string>)
    ensures r.Ok? <==> |names| > 0
    ensures r.Ok? ==> r.value == names[0]
  {
    if |names| == 0 then Throw(FirstTypeNameUndefined) else Ok(names[0])
  }

  /** A property's display type and its cardinality marker. */
  datatype PropertyType = PropertyType(display: string, card: string)

  /** The property type of a member: an array type gives `T[]` with cardinality "*"; a
      promise type is cleaned but the result goes to `returnType`, so the display type
      stays "undefined" and the unset cardinality prints as "undefined"; any other type is
      cleaned as a name with cardinality "1". */
  function PropertyTypeOf(first: string): (r: Result<PropertyType>)
  {
    if IndexOf(first, "Array.") == 0 then
      match CleanArrayType(first)
      case Ok(t) => Ok(PropertyType(t, "*"))
      case Throw(e) => Throw(e)
    else if IndexOf(first, "Promise.") == 0 then
      match CleanPromiseType(first)
      case Ok(_) => Ok(PropertyType("undefined", "undefined"))
      case Throw(e) => Throw(e)
    else Ok(PropertyType(CleanName(Some(first)), "1"))
  }

  /** `Array.<T>` gives the display type `T[]` with cardinality "*". */
  lemma ArrayPropertyType(inner: string, rest: string)
    requires |inner| > 0 && '>' !in inner
    ensures PropertyTypeOf("Array.<" + inner + ">" + rest) == Ok(PropertyType(inner + "[]", "*"))
  {
    var t := "Array.<" + inner + ">" + rest;
    assert t == "Array" + ['.'] + "<" + inner + ">" + rest;
    CleanArrayTypeOfWrapper('.', inner, rest);
    assert OccursAt(t, "Array.", 0) by { assert t[..6] == "Array."; }
  }

  /** A promise-typed property keeps the display type "undefined". */
  lemma PromisePropertyType(first: string)
    requires IndexOf(first, "Promise.") == 0 && CleanPromiseType(first).Ok?
    ensures PropertyTypeOf(first) == Ok(PropertyType("undefined", "undefined"))
  {
    assert first[..8][0] == 'P';
    if |first| >= 6 {
      assert first[..6][0] == first[..8][0];
    }
  }

  /** A property type that starts with neither "Array." nor "Promise." is cleaned as a
      name, so it holds no separator, with cardinality "1". */
  lemma PlainPropertyType(first: string)
    requires IndexOf(first, "Array.") != 0 && IndexOf(first, "Promise.") != 0
    ensures PropertyTypeOf(first) == Ok(PropertyType(CleanName(Some(first)), "1"))
    ensures forall i :: 0 <= i < |PropertyTypeOf(first).value.display| ==> !IsNameSeparator(PropertyTypeOf(first).value.display[i])
  {
    CleanNameNoSeparators(Some(first));
  }

  /** `doc.type.names[0]` when it is a non-empty string. */
  function TypeOverride(d: Doc): (r: Option<string>)
    ensures r.Some? ==> r.value != "" && d.typeNames.Some? && |d.typeNames.value| > 0 && r.value == d.typeNames.value[0]
    ensures r.None? ==> d.typeNames.None? || d.typeNames.value == [] || d.typeNames.value[0] == ""
  {
    match d.typeNames
    case Some(names) => if |names| > 0 && names[0] != "" then Some(names[0]) else None
    case None => None
  }

  /** The relation lines and the attribute type of a member. */
  datatype MemberTyping = MemberTyping(relations: seq<string>, attributeType: string)

  /** The type an attribute is printed with: the raw `type.names[0]` when present, else
      the display type. */
  function AttributeType(d: Doc, display: string): (r: string)
    ensures TypeOverride(d).None? ==> r == display
  {
    if TypeOverride(d).Some? then TypeOverride(d).value else display
  }

  /** The relation to a known class that a property type gives: compared with the display
      type, "[]" suffix included. */
  function Relations(classes: seq<string>, owner: string, p: PropertyType): (r: seq<string>)
    ensures |r| <= 1
  {
    if p.display in classes then [RelationLine(owner, "[1] --> [" + p.card + "]", p.display)] else []
  }

  /** A relation begins with its owner's name, a space and the '[' of its cardinality. */
  lemma RelationsLead(classes: seq<string>, owner: string, p: PropertyType)
    ensures forall l :: l in Relations(classes, owner, p) ==> Leads(owner, l) && |owner| + 1 < |l| && l[|owner| + 1] == '['
  {
    var relation := "[1] --> [" + p.card + "]";
    MemberLinesLead(owner, relation, p.display, "");
    RelationBracket(owner, relation, p.display);
  }

  /** The relation a member's property type gives and the type its attribute is printed with. */
  function TypeMember(classes: seq<string>, owner: string, d: Doc): (r: Result<MemberTyping>)
    ensures r.Ok? && TypeOverride(d).Some? ==> r.value.attributeType == TypeOverride(d).value
    ensures r.Ok? && d.propertyTypeNames.None? ==> r.value.relations == []
  {
    match d.propertyTypeNames
    case None => Ok(MemberTyping([], AttributeType(d, "undefined")))
    case Some(names) =>
      match FirstTypeName(names)
      case Throw(e) => Throw(e)
      case Ok(first) =>
        match PropertyTypeOf(first)
        case Throw(e) => Throw(e)
        case Ok(p) => Ok(MemberTyping(Relations(classes, owner, p), AttributeType(d, p.display)))
  }

  /** A member's relations begin with its owner's name, a space and a '['. */
  lemma TypeMemberLeads(classes: seq<string>, owner: string, d: Doc)
    requires TypeMember(classes, owner, d).Ok?
    ensures forall l :: l in TypeMember(classes, owner, d).value.relations
              ==> Leads(owner, l) && |owner| + 1 < |l| && l[|owner| + 1] == '['
  {
    if d.propertyTypeNames.Some? {
      var first := FirstTypeName(d.propertyTypeNames.value).value;
      RelationsLead(classes, owner, PropertyTypeOf(first).value);
    }
  }

  /** The statements of a `member`: its relation, then its attribute unless the attribute
      type is "undefined" and undefined types are not allowed. */
  function MemberLines(cfg: Config, classes: seq<string>, owner: string, name: string, d: Doc): (r: Result<seq<string>>)
    ensures r.Ok? <==> TypeMember(classes, owner, d).Ok?
  {
    match TypeMember(classes, owner, d)
    case Throw(e) => Throw(e)
    case Ok(m) =>
      Ok(m.relations
         + if !cfg.allowUndefinedType && m.attributeType == "undefined" then []
           else [AttributeLine(owner, name, m.attributeType)])
  }

  /** A member's statements are its relation, if any, and its attribute, which is
      written unless its type is "undefined" and undefined types are not allowed. */
  lemma MemberLinesContents(cfg: Config, classes: seq<string>, owner: string, name: string, d: Doc)
    requires TypeMember(classes, owner, d).Ok?
    ensures var m := TypeMember(classes, owner, d).value;
      var lines := MemberLines(cfg, classes, owner, name, d).value;
      && (forall l :: l in lines ==> l in m.relations || l == AttributeLine(owner, name, m.attributeType))
      && (forall l :: l in m.relations ==> l in lines)
      && (AttributeLine(owner, name, m.attributeType) in lines <==> cfg.allowUndefinedType || m.attributeType != "undefined")
      && |m.relations| <= |lines| && lines[..|m.relations|] == m.relations
      && (cfg.allowUndefinedType || m.attributeType != "undefined" ==>
            |lines| == |m.relations| + 1 && lines[|lines| - 1] == AttributeLine(owner, name, m.attributeType))
      && (!cfg.allowUndefinedType && m.attributeType == "undefined" ==> lines == m.relations)
  {
    var m := TypeMember(classes, owner, d).value;
    AttributeColon(owner, name, m.attributeType);
  }

  /** The return type of a `function`: "void" when none is declared, array and promise
      types flattened, any other type cleaned as a name. */
  function ReturnType(d: Doc): (r: Result<string>)
    ensures d.returnTypeNames.None? ==> r == Ok("void")
  {
    match d.returnTypeNames
    case None => Ok("void")
    case Some(names) =>
      match FirstTypeName(names)
      case Throw(e) => Throw(e)
      case Ok(first) =>
        if IndexOf(first, "Array.") == 0 then CleanArrayType(first)
        else if IndexOf(first, "Promise.") == 0 then CleanPromiseType(first)
        else Ok(CleanName(Some(first)))
  }

  /** A declared return type: an empty `names` throws; a type that starts with neither
      "Array." nor "Promise." is cleaned as a name, so it holds no separator. */
  lemma ReturnTypeCases(d: Doc)
    requires d.returnTypeNames.Some?
    ensures d.returnTypeNames.value == [] ==> ReturnType(d) == Throw(FirstTypeNameUndefined)
    ensures var names := d.returnTypeNames.value;
      names != [] && IndexOf(names[0], "Array.") != 0 && IndexOf(names[0], "Promise.") != 0 ==>
        && ReturnType(d) == Ok(CleanName(Some(names[0])))
        && forall i :: 0 <= i < |ReturnType(d).value| ==> !IsNameSeparator(ReturnType(d).value[i])
  {
    if d.returnTypeNames.value != [] {
      CleanNameNoSeparators(Some(d.returnTypeNames.value[0]));
    }
  }

  /** `Array.<T>` followed by anything returns `T[]`. */
  lemma ArrayReturnType(d: Doc, inner: string, rest: string)
    requires d.returnTypeNames.Some? && d.returnTypeNames.value != []
    requires d.returnTypeNames.value[0] == "Array.<" + inner + ">" + rest
    requires |inner| > 0 && '>' !in inner
    ensures ReturnType(d) == Ok(inner + "[]")
  {
    var t := "Array.<" + inner + ">" + rest;
    assert t == "Array" + ['.'] + "<" + inner + ">" + rest;
    CleanArrayTypeOfWrapper('.', inner, rest);
    assert OccursAt(t, "Array.", 0) by { assert t[..6] == "Array."; }
  }

  /** `Promise.<Array.<W>>` returns `Promise.W[]`. */
  lemma PromiseArrayReturnType(d: Doc, inner: string)
    requires d.returnTypeNames.Some? && d.returnTypeNames.value != []
    requires d.returnTypeNames.value[0] == "Promise.<Array.<" + inner + ">>"
    requires |inner| > 0 && '>' !in inner
    ensures ReturnType(d) == Ok("Promise." + inner + "[]")
  {
    var t := "Promise.<Array.<" + inner + ">>";
    PromiseOfArrayShape(inner);
    PromiseOfArrayFlattens(inner);
    PromiseOfArrayIndices(inner);
    IndexOfFirst(t, "Promise.");
    assert OccursAt(t, "Promise.", 0) by { assert t[..8] == t[..9][..8]; }
  }

  /** A visible `function` of a registered class returning `Promise.<Array.<W>>` is written
      with the return type `Promise.W[]`. */
  lemma PromiseFunctionLine(cfg: Config, classes: seq<string>, owner: string, name: string, d: Doc, inner: string)
    requires d.kind == Some(Function) && owner in classes && Visible(cfg, d.access)
    requires d.returnTypeNames.Some? && d.returnTypeNames.value != []
    requires d.returnTypeNames.value[0] == "Promise.<Array.<" + inner + ">>"
    requires |inner| > 0 && '>' !in inner
    requires ParamList(cfg, d.params).Ok?
    ensures Statements(cfg, classes, owner, name, d)
         == Ok([FunctionLine(owner, "Promise." + inner + "[]", name, ParamList(cfg, d.params).value)])
  {
    PromiseArrayReturnType(d, inner);
  }

  /** The text one parameter adds before its ", ": its first type name (array types
      flattened wherever "Array." occurs in it), then a space and its name when names are
      printed and it has one. */
  function ParamToken(cfg: Config, p: Param): (r: Result<string>)
  {
    var named := NamePart(cfg, p);
    match p.typeNames
    case None => Ok(named)
    case Some(names) =>
      match FirstTypeName(names)
      case Throw(e) => Throw(e)
      case Ok(first) =>
        if IndexOf(first, "Array.") != -1 then
          match CleanArrayType(first)
          case Ok(t) => Ok(t + named)
          case Throw(e) => Throw(e)
        else Ok(first + named)
  }

  /** What a parameter's name adds to its token. */
  function NamePart(cfg: Config, p: Param): string {
    if cfg.printParametersName && Truthy(p.name) then " " + p.name.value else ""
  }

  /** An untyped parameter's token is only its name part: a space and its name when
      names are printed and the name is non-empty, and nothing otherwise. */
  lemma ParamTokenUntyped(cfg: Config, p: Param)
    requires p.typeNames.None?
    ensures ParamToken(cfg, p).Ok?
    ensures cfg.printParametersName && Truthy(p.name) ==> ParamToken(cfg, p).value == " " + p.name.value
    ensures ParamToken(cfg, p).value == "" <==> !(cfg.printParametersName && Truthy(p.name))
  {
  }

  /** A typed parameter: an empty `names` throws; a first type without "Array." is kept
      as written, without `cleanName`; one with "Array." anywhere in it is flattened from
      the leftmost match of the array pattern, and throws when nothing matches. */
  lemma ParamTokenTyped(cfg: Config, p: Param)
    requires p.typeNames.Some?
    ensures p.typeNames.value == [] ==> ParamToken(cfg, p) == Throw(FirstTypeNameUndefined)
    ensures p.typeNames.value != [] && IndexOf(p.typeNames.value[0], "Array.") == -1
            ==> ParamToken(cfg, p) == Ok(p.typeNames.value[0] + NamePart(cfg, p))
    ensures p.typeNames.value != [] && IndexOf(p.typeNames.value[0], "Array.") != -1
            ==> (ParamToken(cfg, p).Throw? <==> forall q :: !MatchesArrayAt(p.typeNames.value[0], q))
  {
    if p.typeNames.value != [] {
      CleanArrayTypeMatches(p.typeNames.value[0]);
    }
  }

  /** A parameter whose first type holds "Array." and first matches the array pattern at
      `m` gets that match's group, "[]", then its name part. */
  lemma ParamTokenArray(cfg: Config, p: Param, m: nat)
    requires p.typeNames.Some? && p.typeNames.value != []
    requires IndexOf(p.typeNames.value[0], "Array.") != -1
    requires MatchesArrayAt(p.typeNames.value[0], m)
    requires forall q :: 0 <= q < m ==> !MatchesArrayAt(p.typeNames.value[0], q)
    ensures ParamToken(cfg, p) == Ok(ArrayGroup(p.typeNames.value[0], m) + "[]" + NamePart(cfg, p))
  {
    CleanArrayTypeAt(p.typeNames.value[0], m);
  }

  /** A union type such as `Object|Array.<W>` is flattened to `W[]` in a parameter, while
      a property of the same type keeps the whole cleaned name. */
  lemma UnionParamFlattens(cfg: Config, p: Param, w: string)
    requires |w| > 0 && '>' !in w
    requires p.typeNames == Some(["Object|Array.<" + w + ">"])
    ensures ParamToken(cfg, p) == Ok(w + "[]" + NamePart(cfg, p))
    ensures PropertyTypeOf("Object|Array.<" + w + ">") == Ok(PropertyType(CleanName(Some("Object|Array.<" + w + ">")), "1"))
  {
    var t := "Object|Array.<" + w + ">";
    UnionMatch(w);
    ParamTokenArray(cfg, p, 7);
    IndexOfFirst(t, "Promise.");
    assert !OccursAt(t, "Promise.", 0) by {
      assert t[..8][0] == t[0] == 'O';
    }
  }

  /** In `Object|Array.<W>` "Array." first occurs at 7, where the array pattern first
      matches, with `W` as its group. */
  lemma UnionMatch(w: string)
    requires |w| > 0 && '>' !in w
    ensures var t := "Object|Array.<" + w + ">";
      && IndexOf(t, "Array.") == 7 && MatchesArrayAt(t, 7) && ArrayGroup(t, 7) == w
      && forall q :: 0 <= q < 7 ==> !MatchesArrayAt(t, q)
  {
    var t := "Object|Array.<" + w + ">";
    UnionIndices(w);
    NoMatchBeforeA(t, 7);
    IndexOfFirst(t, "Array.");
    assert OccursAt(t, "Array.", 7);
    CloseAngleAt(t, 14, 14 + |w|);
  }

  lemma UnionIndices(w: string)
    requires |w| > 0 && '>' !in w
    ensures var t := "Object|Array.<" + w + ">";
      && |t| == 15 + |w| && t[7..13] == "Array." && t[7..12] == "Array" && t[12] == '.' && t[13] == '<'
      && t[14..14 + |w|] == w && t[14] == w[0] && t[14 + |w|] == '>'
      && (forall j :: 0 <= j < 7 ==> t[j] != 'A')
      && (forall j :: 14 <= j < 14 + |w| ==> t[j] == w[j - 14])
  {
  }

  /** A type with a module path stays as written in a parameter: no separator becomes '.'. */
  lemma ModuleParamRaw(cfg: Config, p: Param)
    requires p.typeNames == Some(["module:a~B"])
    ensures ParamToken(cfg, p) == Ok("module:a~B" + NamePart(cfg, p))
  {
    var t := "module:a~B";
    IndexOfFirst(t, "Array.");
    forall j | 0 <= j ensures !OccursAt(t, "Array.", j) {
      if j + 6 <= |t| {
        assert t[j..j + 6][0] == t[j] != 'A';
      }
    }
  }

  /** The tokens of all parameters, left to right; the first parameter that throws ends it. */
  function ParamTokens(cfg: Config, ps: seq<Param>): (r: Result<seq<string>>)
    ensures r.Ok? ==> |r.value| == |ps|
    ensures r.Ok? ==> forall i :: 0 <= i < |ps| ==> ParamToken(cfg, ps[i]) == Ok(r.value[i])
  {
    if ps == [] then Ok([])
    else
      match ParamToken(cfg, ps[0])
      case Throw(e) => Throw(e)
      case Ok(t) =>
        match ParamTokens(cfg, ps[1..])
        case Throw(e) => Throw(e)
        case Ok(ts) =>
          assert forall i :: 1 <= i < |ps| ==> ps[i] == ps[1..][i - 1];
          Ok([t] + ts)
  }

  /** The parameter tokens are computed exactly when every parameter's token is; otherwise
      the error is that of the first parameter that throws. */
  lemma {:induction false} ParamTokensOk(cfg: Config, ps: seq<Param>)
    ensures ParamTokens(cfg, ps).Ok? <==> forall i :: 0 <= i < |ps| ==> ParamToken(cfg, ps[i]).Ok?
    ensures ParamTokens(cfg, ps).Throw? ==>
      exists k :: 0 <= k < |ps| && ParamToken(cfg, ps[k]).Throw?
        && (forall i :: 0 <= i < k ==> ParamToken(cfg, ps[i]).Ok?)
        && ParamTokens(cfg, ps).error == ParamToken(cfg, ps[k]).error
  {
    if ps != [] {
      var rest := ps[1..];
      ParamTokensOk(cfg, rest);
      assert forall i :: 1 <= i < |ps| ==> ps[i] == rest[i - 1];
      if ParamToken(cfg, ps[0]).Throw? {
        assert ParamTokens(cfg, ps).error == ParamToken(cfg, ps[0]).error;
      } else if ParamTokens(cfg, rest).Throw? {
        var k :| 0 <= k < |rest| && ParamToken(cfg, rest[k]).Throw?
          && (forall i :: 0 <= i < k ==> ParamToken(cfg, rest[i]).Ok?)
          && ParamTokens(cfg, rest).error == ParamToken(cfg, rest[k]).error;
        assert ParamToken(cfg, ps[k + 1]).Throw?;
        assert ParamTokens(cfg, ps).error == ParamToken(cfg, ps[k + 1]).error;
      }
    }
  }

  /** The parameter list printed between the parentheses: the tokens separated by ", ". */
  function ParamList(cfg: Config, params: Option<seq<Param>>): (r: Result<string>)
    ensures params.None? ==> r == Ok("")
  {
    match params
    case None => Ok("")
    case Some(ps) =>
      match ParamTokens(cfg, ps)
      case Ok(ts) => Ok(Join(ts, ", "))
      case Throw(e) => Throw(e)
  }

  /** The tokens, each followed by ", ", as the `forEach` over the parameters appends them. */
  function Terminated(tokens: seq<string>): string {
    if tokens == [] then ""
    else Terminated(tokens[..|tokens| - 1]) + tokens[|tokens| - 1] + ", "
  }

  /** Cutting the last two characters off the terminated tokens leaves them joined by ", ". */
  lemma {:induction false} TerminatedIsJoined(tokens: seq<string>)
    ensures tokens != [] ==> Terminated(tokens) == Join(tokens, ", ") + ", "
    ensures Substring(Terminated(tokens), 0, |Terminated(tokens)| - 2) == Join(tokens, ", ")
  {
    if tokens != [] {
      var init := tokens[..|tokens| - 1];
      TerminatedIsJoined(init);
      if init == [] {
        assert Terminated(init) == "";
      }
      var t := Terminated(tokens);
      assert t[..|t| - 2] == Join(tokens, ", ");
    }
  }

  /** The body of the `forEach` callback for one parameter: the text it appends before ", ". */
  method AppendParam(cfg: Config, p: Param) returns (r: Result<string>)
    ensures r == ParamToken(cfg, p)
  {
    var named := NamePart(cfg, p);
    var token := "";
    if p.typeNames.Some? {
      var names := p.typeNames.value;
      if |names| == 0 {
        return Throw(FirstTypeNameUndefined);
      }
      var typ := names[0];
      if IndexOf(typ, "Array.") != -1 {
        var cleaned := CleanArrayType(typ);
        if cleaned.Throw? {
          return Throw(cleaned.error);
        }
        typ := cleaned.value;
      }
      token := typ;
    } else {
      assert token + named == named;
    }
    r := Ok(token + named);
  }

  /** One parameter more: its token, or its error, comes first. */
  lemma ParamTokensAt(cfg: Config, ps: seq<Param>, k: nat)
    requires k < |ps|
    ensures ParamToken(cfg, ps[k]).Throw? ==> ParamTokens(cfg, ps[k..]) == Throw(ParamToken(cfg, ps[k]).error)
    ensures ParamToken(cfg, ps[k]).Ok? ==>
              ParamTokens(cfg, ps[k..]) == Prefixed([ParamToken(cfg, ps[k]).value], ParamTokens(cfg, ps[k + 1..]))
  {
    assert ps[k..][0] == ps[k] && ps[k..][1..] == ps[k + 1..];
  }

  /** Lines 244-266: builds the parameter list by appending each parameter's type, name
      and ", ", then removes the trailing ", ". */
  method BuildParams(cfg: Config, params: Option<seq<Param>>) returns (r: Result<string>)
    ensures r == ParamList(cfg, params)
  {
    var text := "";
    if params.Some? {
      var ps := params.value;
      var k := 0;
      ghost var done: seq<string> := [];
      assert ps[k..] == ps;
      PrefixedTwice([], [], ParamTokens(cfg, ps));
      while k < |ps|
        invariant 0 <= k <= |ps|
        invariant text == Terminated(done)
        invariant ParamTokens(cfg, ps) == Prefixed(done, ParamTokens(cfg, ps[k..]))
      {
        var token := AppendParam(cfg, ps[k]);
        ParamTokensAt(cfg, ps, k);
        if token.Throw? {
          assert ParamTokens(cfg, ps) == Throw(token.error);
          return Throw(token.error);
        }
        PrefixedTwice(done, [token.value], ParamTokens(cfg, ps[k + 1..]));
        text := text + token.value + ", ";
        done := done + [token.value];
        assert done[..|done| - 1] + [token.value] == done;
        k := k + 1;
      }
      assert ps[k..] == [];
      assert ParamTokens(cfg, ps) == Ok(done) by {
        assert done + [] == done;
      }
      TerminatedIsJoined(done);
      text := Substring(text, 0, |text| - 2);
    }
    r := Ok(text);
  }

  /** `tokens` put in front of the tokens of the parameters still to come. */
  function Prefixed(tokens: seq<string>, rest: Result<seq<string>>): Result<seq<string>> {
    match rest
    case Ok(ts) => Ok(tokens + ts)
    case Throw(e) => Throw(e)
  }

  lemma PrefixedTwice(a: seq<string>, b: seq<string>, rest: Result<seq<string>>)
    ensures Prefixed(a, Prefixed(b, rest)) == Prefixed(a + b, rest)
    ensures Prefixed([], rest) == rest
  {
    if rest.Ok? {
      assert a + (b + rest.value) == a + b + rest.value;
      assert [] + rest.value == rest.value;
    }
  }

  /** The statement of a `function`: its return type, name and parameter list. */
  function FunctionLines(cfg: Config, owner: string, name: string, d: Doc): (r: Result<seq<string>>)
    ensures r.Ok? <==> ReturnType(d).Ok? && ParamList(cfg, d.params).Ok?
    ensures r.Ok? ==> r.value == [FunctionLine(owner, ReturnType(d).value, name, ParamList(cfg, d.params).value)]
  {
    match ReturnType(d)
    case Throw(e) => Throw(e)
    case Ok(returnType) =>
      match ParamList(cfg, d.params)
      case Throw(e) => Throw(e)
      case Ok(params) =>
        Ok([FunctionLine(owner, returnType, name, params)])
  }

  /** The statements the third pass writes for one record, given the registered classes.
      A record whose owner is not registered, that the visibility filter rejects, or whose
      kind is not `member`, `function` or `event`, gives none. */
  function DocStatements(cfg: Config, classes: seq<string>, d: Doc): Result<seq<string>> {
    Statements(cfg, classes, Owner(d), ShortName(d.longname), d)
  }

  /** The statements for record `d` of class `owner` whose short name is `name`. */
  function Statements(cfg: Config, classes: seq<string>, owner: string, name: string, d: Doc): (r: Result<seq<string>>)
    ensures owner !in classes || !Visible(cfg, d.access) || !HandledKind(d.kind) ==> r == Ok([])
  {
    if owner !in classes then Ok([])
    else if !Visible(cfg, d.access) then Ok([])
    else if d.kind == Some(Member) then MemberLines(cfg, classes, owner, name, d)
    else if d.kind == Some(Function) then FunctionLines(cfg, owner, name, d)
    else if d.kind == Some(Event) then Ok([EventLine(owner, name)])
    else Ok([])
  }

  /** Every statement written for a record of class `owner` begins with `owner` and a space. */
  lemma StatementsLead(cfg: Config, classes: seq<string>, owner: string, name: string, d: Doc)
    requires Statements(cfg, classes, owner, name, d).Ok?
    ensures forall l :: l in Statements(cfg, classes, owner, name, d).value ==> Leads(owner, l)
  {
    var r := Statements(cfg, classes, owner, name, d);
    if owner in classes && Visible(cfg, d.access) {
      if d.kind == Some(Member) {
        var m := TypeMember(classes, owner, d).value;
        TypeMemberLeads(classes, owner, d);
        MemberLinesLead(owner, name, m.attributeType, "");
        assert r == MemberLines(cfg, classes, owner, name, d);
      } else if d.kind == Some(Function) {
        MemberLinesLead(owner, ReturnType(d).value, name, ParamList(cfg, d.params).value);
      } else if d.kind == Some(Event) {
        MemberLinesLead(owner, name, "", "");
      }
    }
  }


  /** Every statement written for a record holds a space: the one after its class name. */
  lemma StatementsSpaced(cfg: Config, classes: seq<string>, owner: string, name: string, d: Doc)
    requires Statements(cfg, classes, owner, name, d).Ok?
    ensures forall l :: l in Statements(cfg, classes, owner, name, d).value ==> Spaced(l)
  {
    StatementsLead(cfg, classes, owner, name, d);
    forall l | l in Statements(cfg, classes, owner, name, d).value ensures Spaced(l) {
      assert l[|owner|] == ' ';
    }
  }

  /** A member whose attribute type is "undefined" gets its attribute statement exactly
      when undefined types are allowed. */
  lemma UndefinedAttribute(cfg: Config, classes: seq<string>, owner: string, name: string, d: Doc)
    requires d.kind == Some(Member) && owner in classes && Visible(cfg, d.access)
    requires TypeMember(classes, owner, d).Ok?
    requires TypeMember(classes, owner, d).value.attributeType == "undefined"
    ensures Statements(cfg, classes, owner, name, d).Ok?
    ensures AttributeLine(owner, name, "undefined") in Statements(cfg, classes, owner, name, d).value
            <==> cfg.allowUndefinedType
  {
    assert Statements(cfg, classes, owner, name, d) == MemberLines(cfg, classes, owner, name, d);
    MemberLinesContents(cfg, classes, owner, name, d);
  }

  /** The typing of a member whose property type is `Array.<T>`: a relation to `T[]`
      when a class of that literal name is registered. */
  lemma ArrayTypeMember(classes: seq<string>, owner: string, d: Doc, inner: string, rest: string)
    requires d.propertyTypeNames.Some? && |d.propertyTypeNames.value| > 0
    requires d.propertyTypeNames.value[0] == "Array.<" + inner + ">" + rest
    requires |inner| > 0 && '>' !in inner
    ensures TypeMember(classes, owner, d).Ok?
    ensures TypeMember(classes, owner, d).value.relations
         == if inner + "[]" in classes then [RelationLine(owner, "[1] --> [*]", inner + "[]")] else []
  {
    ArrayPropertyType(inner, rest);
    var p := PropertyType(inner + "[]", "*");
    assert FirstTypeName(d.propertyTypeNames.value) == Ok("Array.<" + inner + ">" + rest);
    ManyCardinality();
    assert TypeMember(classes, owner, d).value.relations == Relations(classes, owner, p);
  }

  lemma ManyCardinality()
    ensures "[1] --> [" + "*" + "]" == "[1] --> [*]"
  {
  }

  /** A member typed `Array.<T>` gets a relation to `T[]` exactly when a class of that
      literal name, brackets included, is registered. */
  lemma ArrayMemberRelation(cfg: Config, classes: seq<string>, owner: string, name: string, d: Doc, inner: string, rest: string)
    requires d.kind == Some(Member) && owner in classes && Visible(cfg, d.access)
    requires d.propertyTypeNames.Some? && |d.propertyTypeNames.value| > 0
    requires d.propertyTypeNames.value[0] == "Array.<" + inner + ">" + rest
    requires |inner| > 0 && '>' !in inner
    ensures Statements(cfg, classes, owner, name, d).Ok?
    ensures RelationLine(owner, "[1] --> [*]", inner + "[]") in Statements(cfg, classes, owner, name, d).value
            <==> inner + "[]" in classes
  {
    ArrayTypeMember(classes, owner, d, inner, rest);
    assert Statements(cfg, classes, owner, name, d) == MemberLines(cfg, classes, owner, name, d);
    MemberLinesContents(cfg, classes, owner, name, d);
    if inner + "[]" !in classes {
      AttributeColon(owner, name, TypeMember(classes, owner, d).value.attributeType);
      RelationBracket(owner, "[1] --> [*]", inner + "[]");
    }
  }

  /** A member with a plain property type relates with cardinality "1" to the cleaned type
      name, and does so exactly when that full cleaned name is a registered class. */
  lemma PlainMemberRelation(cfg: Config, classes: seq<string>, owner: string, name: string, d: Doc, first: string)
    requires d.kind == Some(Member) && owner in classes && Visible(cfg, d.access)
    requires d.propertyTypeNames.Some? && |d.propertyTypeNames.value| > 0
    requires d.propertyTypeNames.value[0] == first
    requires IndexOf(first, "Array.") != 0 && IndexOf(first, "Promise.") != 0
    ensures Statements(cfg, classes, owner, name, d).Ok?
    ensures RelationLine(owner, "[1] --> [1]", CleanName(Some(first))) in Statements(cfg, classes, owner, name, d).value
            <==> CleanName(Some(first)) in classes
  {
    PlainPropertyType(first);
    var p := PropertyType(CleanName(Some(first)), "1");
    assert "[1] --> [" + p.card + "]" == "[1] --> [1]";
    assert TypeMember(classes, owner, d).value.relations == Relations(classes, owner, p);
    assert Statements(cfg, classes, owner, name, d) == MemberLines(cfg, classes, owner, name, d);
    MemberLinesContents(cfg, classes, owner, name, d);
    if CleanName(Some(first)) !in classes {
      AttributeColon(owner, name, TypeMember(classes, owner, d).value.attributeType);
      RelationBracket(owner, "[1] --> [1]", CleanName(Some(first)));
    }
  }

  /** A member with a promise property type keeps the display type "undefined", so its
      relation, to "undefined" with cardinality "undefined", exists exactly when a class
      named "undefined" is registered. */
  lemma PromiseMemberRelation(cfg: Config, classes: seq<string>, owner: string, name: string, d: Doc)
    requires d.kind == Some(Member) && owner in classes && Visible(cfg, d.access)
    requires d.propertyTypeNames.Some? && |d.propertyTypeNames.value| > 0
    requires IndexOf(d.propertyTypeNames.value[0], "Promise.") == 0
    requires CleanPromiseType(d.propertyTypeNames.value[0]).Ok?
    ensures Statements(cfg, classes, owner, name, d).Ok?
    ensures RelationLine(owner, "[1] --> [undefined]", "undefined") in Statements(cfg, classes, owner, name, d).value
            <==> "undefined" in classes
  {
    PromisePropertyType(d.propertyTypeNames.value[0]);
    var p := PropertyType("undefined", "undefined");
    assert "[1] --> [" + p.card + "]" == "[1] --> [undefined]";
    assert TypeMember(classes, owner, d).value.relations == Relations(classes, owner, p);
    assert Statements(cfg, classes, owner, name, d) == MemberLines(cfg, classes, owner, name, d);
    MemberLinesContents(cfg, classes, owner, name, d);
    if "undefined" !in classes {
      AttributeColon(owner, name, TypeMember(classes, owner, d).value.attributeType);
      RelationBracket(owner, "[1] --> [undefined]", "undefined");
    }
  }

  /** The relation check compares the full cleaned name: a property typed
      `module:a~Widget` is compared as `module.a.Widget`, never as the short name `Widget`. */
  lemma ModulePathCleaned()
    ensures CleanName(Some("module:a~Widget")) == "module.a.Widget"
  {
    var t := "module:a~Widget";
    TrimOfTrimmed(t);
    ReplaceSeparatorsChars(t);
  }

  /** A function with no documented return type and no parameters is printed as
      returning "void" with an empty parameter list. */
  lemma PlainFunction(cfg: Config, classes: seq<string>, owner: string, name: string, d: Doc)
    requires d.kind == Some(Function) && owner in classes && Visible(cfg, d.access)
    requires d.returnTypeNames.None? && d.params.None?
    ensures Statements(cfg, classes, owner, name, d) == Ok([FunctionLine(owner, "void", name, "")])
  {
  }
}
