/** `exports.publish` as the generator it is: the records left after the removals, the
    class names registered so far and the diagram file, all updated in place by the
    `manage*` helpers and the three passes. */
module Publish {
  import opened Js
  import opened TypeNames
  import opened Symbols
  import opened Mermaid
  import opened Members
  import opened Passes
  import EnumValues

  class Generator {
    /** The options of `config.js`. */
    const cfg: Config
    /** `docs`: the records still to be handled; the first two passes splice records out. */
    var docs: seq<Doc>
    /** `classData`: the class names registered by the first pass. */
    var classData: seq<string>
    /** The diagram file, one statement per entry. */
    var out: seq<string>

    /** Removes the undocumented records and the packages, creates the file with its header
        and starts with no registered class. */
    constructor(cfg: Config, data: seq<Doc>)
      ensures this.cfg == cfg
      ensures docs == DocumentedRecords(data)
      ensures classData == []
      ensures out == Header
    {
      this.cfg := cfg;
      docs := DocumentedRecords(data);
      classData := [];
      out := Header;
    }

    /** `manageClass`: writes the `class` statement and registers the name. */
    method ManageClass(name: string)
      modifies this
      ensures out == old(out) + [ClassLine(name)]
      ensures classData == old(classData) + [name]
      ensures docs == old(docs)
    {
      out := out + [ClassLine(name)];
      classData := classData + [name];
    }

    /** `manageRelation`: writes `class1 relationType class2`. */
    method ManageRelation(class1: string, class2: string, relationType: string)
      modifies this
      ensures out == old(out) + [RelationLine(class1, relationType, class2)]
      ensures classData == old(classData) && docs == old(docs)
    {
      out := out + [RelationLine(class1, relationType, class2)];
    }

    /** `manageAttribute`: writes `className : type : attribute`. */
    method ManageAttribute(className: string, attribute: string, typ: string)
      modifies this
      ensures out == old(out) + [AttributeLine(className, attribute, typ)]
      ensures classData == old(classData) && docs == old(docs)
    {
      out := out + [AttributeLine(className, attribute, typ)];
    }

    /** `manageFunction`: writes `className : returnType : name(params)`. */
    method ManageFunction(className: string, returnType: string, name: string, params: string)
      modifies this
      ensures out == old(out) + [FunctionLine(className, returnType, name, params)]
      ensures classData == old(classData) && docs == old(docs)
    {
      out := out + [FunctionLine(className, returnType, name, params)];
    }

    /** `manageEvent`: writes `className ::event : name`. */
    method ManageEvent(className: string, name: string)
      modifies this
      ensures out == old(out) + [EventLine(className, name)]
      ensures classData == old(classData) && docs == old(docs)
    {
      out := out + [EventLine(className, name)];
    }

    /** `manageEnum`: parses the values, writes the enum class and its relation from
        `memberof`, then the values. */
    method ManageEnum(name: string, memberof: string, raw: string)
      modifies this
      ensures out == old(out) + EnumBlock(name, memberof, raw)
      ensures classData == old(classData) && docs == old(docs)
    {
      var values := EnumValues.Values(raw);
      ghost var before := out;
      out := out + [EnumClassLine(name)];
      ManageRelation(memberof, name, "-->");
      ghost var head := out;
      WriteValues(name, values);
      EnumBlockAfter(before, name, memberof, raw, head, out);
    }

    /** The `forEach` of `manageEnum`: one statement per value, without its first and last
        character. */
    method WriteValues(name: string, values: seq<string>)
      modifies this
      ensures out == old(out) + EnumValueLines(name, values)
      ensures classData == old(classData) && docs == old(docs)
    {
      var k := 0;
      while k < |values|
        invariant 0 <= k <= |values|
        invariant out == old(out) + EnumValueLines(name, values[..k])
        invariant classData == old(classData) && docs == old(docs)
      {
        assert values[..k + 1][..k] == values[..k];
        out := out + [EnumValueLine(name, StripOuter(values[k]))];
        k := k + 1;
      }
      assert values[..k] == values;
    }

    /** The first pass: from the last record to the first, every class or module is spliced
        out of `docs` and declared. */
    method RegisterClasses()
      modifies this
      ensures docs == WithoutClasses(old(docs))
      ensures classData == old(classData) + ClassNames(old(docs))
      ensures out == old(out) + ClassLines(ClassNames(old(docs)))
    {
      ghost var toVisit, visited := docs, [];
      var i := |docs|;
      while i > 0
        invariant i == |toVisit| && old(docs) == toVisit + visited
        invariant docs == toVisit + WithoutClasses(visited)
        invariant classData == old(classData) + ClassNames(visited)
        invariant out == old(out) + ClassLines(ClassNames(visited))
      {
        i := i - 1;
        toVisit, visited := RegisterClassAt(i, toVisit, visited, old(classData), old(out));
      }
      assert toVisit == [] && old(docs) == [] + visited == visited;
    }

    /** One iteration of the first pass, at index `i` of `docs`: the last of the records
        still to visit moves to the front of those visited. */
    method RegisterClassAt(i: nat, ghost toVisit: seq<Doc>, ghost visited: seq<Doc>,
                           ghost classes0: seq<string>, ghost out0: seq<string>)
        returns (ghost toVisit': seq<Doc>, ghost visited': seq<Doc>)
      requires i + 1 == |toVisit|
      requires docs == toVisit + WithoutClasses(visited)
      requires classData == classes0 + ClassNames(visited)
      requires out == out0 + ClassLines(ClassNames(visited))
      modifies this
      ensures i == |toVisit'| && toVisit' + visited' == toVisit + visited
      ensures docs == toVisit' + WithoutClasses(visited')
      ensures classData == classes0 + ClassNames(visited')
      ensures out == out0 + ClassLines(ClassNames(visited'))
    {
      var front, d, later := toVisit[..i], toVisit[i], visited;
      toVisit', visited' := front, [d] + later;
      assert toVisit == front + [d];
      assert toVisit' + visited' == toVisit + visited;
      ClassPassStep(front, d, later, docs);
      if docs[i].kind == Some(Class) || docs[i].kind == Some(Module) {
        var name := ShortName(docs[i].longname);
        docs := docs[..i] + docs[i + 1..];
        ghost var names := ClassNames(later);
        ClassLinesSnoc(names, name);
        ManageClass(name);
        ConcatAfter(classes0, names, [name]);
        ConcatAfter(out0, ClassLines(names), [ClassLine(name)]);
      }
    }

    /** The second pass: from the last record to the first, every enumeration that the
        visibility filter lets through, when enumerations are enabled and it has a source
        value, is written and spliced out of `docs`. */
    method RegisterEnums()
      modifies this
      ensures docs == WithoutEmittedEnums(cfg, old(docs))
      ensures out == old(out) + EnumLines(cfg, old(docs))
      ensures classData == old(classData)
    {
      ghost var toVisit, visited := docs, [];
      var i := |docs|;
      while i > 0
        invariant i == |toVisit| && old(docs) == toVisit + visited
        invariant docs == toVisit + WithoutEmittedEnums(cfg, visited)
        invariant out == old(out) + EnumLines(cfg, visited)
        invariant classData == old(classData)
      {
        i := i - 1;
        toVisit, visited := RegisterEnumAt(i, toVisit, visited, old(out));
      }
      assert toVisit == [] && old(docs) == [] + visited == visited;
    }

    /** One iteration of the second pass, at index `i` of `docs`: the last of the records
        still to visit moves to the front of those visited; a `continue` of the loop is a
        return from here. */
    method RegisterEnumAt(i: nat, ghost toVisit: seq<Doc>, ghost visited: seq<Doc>, ghost out0: seq<string>)
        returns (ghost toVisit': seq<Doc>, ghost visited': seq<Doc>)
      requires i + 1 == |toVisit|
      requires docs == toVisit + WithoutEmittedEnums(cfg, visited)
      requires out == out0 + EnumLines(cfg, visited)
      modifies this
      ensures i == |toVisit'| && toVisit' + visited' == toVisit + visited
      ensures docs == toVisit' + WithoutEmittedEnums(cfg, visited')
      ensures out == out0 + EnumLines(cfg, visited')
      ensures classData == old(classData)
    {
      var front, d, later := toVisit[..i], toVisit[i], visited;
      toVisit', visited' := front, [d] + later;
      assert toVisit == front + [d];
      assert toVisit' + visited' == toVisit + visited;
      EnumPassStep(cfg, front, d, later, docs);
      var name := ShortName(docs[i].longname);
      var memberof := CleanName(docs[i].memberof);
      if docs[i].isEnum {
        if cfg.visibility == PrivateMode && docs[i].access != Some(Private) && docs[i].access != None {
          return;
        }
        if cfg.visibility == PublicMode && docs[i].access != Some(Public) {
          return;
        }
        if cfg.enum && Truthy(docs[i].codeValue) {
          ManageEnum(name, memberof, docs[i].codeValue.value);
          docs := docs[..i] + docs[i + 1..];
          ConcatAfter(out0, EnumLines(cfg, later), EnumBlock(name, memberof, d.codeValue.value));
          assert EnumStatements(cfg)(d) == EnumBlock(name, memberof, d.codeValue.value);
        }
      }
    }

    /** The `member` case of the third pass: the relation to a registered class that the
        property type gives, then the attribute, unless its type is "undefined" and
        undefined types are not allowed. False when a TypeError is thrown, before anything
        is written. */
    method EmitMember(owner: string, name: string, d: Doc) returns (ok: bool)
      modifies this
      ensures ok == MemberLines(cfg, classData, owner, name, d).Ok?
      ensures out == old(out) + (if ok then MemberLines(cfg, classData, owner, name, d).value else [])
      ensures classData == old(classData) && docs == old(docs)
    {
      var typ := "undefined";
      ghost var relations: seq<string> := [];
      if d.propertyTypeNames.Some? {
        var first := FirstTypeName(d.propertyTypeNames.value);
        if first.Throw? {
          return false;
        }
        var p := PropertyTypeOf(first.value);
        if p.Throw? {
          return false;
        }
        typ := p.value.display;
        relations := Relations(classData, owner, p.value);
        if typ in classData {
          ManageRelation(owner, typ, "[1] --> [" + p.value.card + "]");
        } else {
          assert out == old(out) + relations;
        }
      }
      ghost var m := MemberTyping(relations, AttributeType(d, typ));
      assert TypeMember(classData, owner, d) == Ok(m);
      var override := TypeOverride(d);
      if override.Some? {
        typ := override.value;
      }
      if !cfg.allowUndefinedType && typ == "undefined" {
        assert out == old(out) + m.relations + [];
        return true;
      }
      ManageAttribute(owner, name, typ);
      ok := true;
    }

    /** The `function` case of the third pass: the return type, then the parameter list,
        then the method statement. False when a TypeError is thrown, before anything is
        written. */
    method EmitFunction(owner: string, name: string, d: Doc) returns (ok: bool)
      modifies this
      ensures ok == FunctionLines(cfg, owner, name, d).Ok?
      ensures out == old(out) + (if ok then FunctionLines(cfg, owner, name, d).value else [])
      ensures classData == old(classData) && docs == old(docs)
    {
      var returnType := ReturnType(d);
      if returnType.Throw? {
        return false;
      }
      var params := BuildParams(cfg, d.params);
      if params.Throw? {
        return false;
      }
      ManageFunction(owner, returnType.value, name, params.value);
      ok := true;
    }

    /** The `forEach` callback of the third pass for one record: nothing for a record whose
        owner is not a registered class, that the visibility filter rejects, or whose kind
        is not handled; otherwise its member, function or event statements. False when a
        TypeError is thrown. */
    method EmitDoc(d: Doc) returns (ok: bool)
      modifies this
      ensures ok == DocStatements(cfg, classData, d).Ok?
      ensures out == old(out) + (if ok then DocStatements(cfg, classData, d).value else [])
      ensures classData == old(classData) && docs == old(docs)
    {
      var path := CleanName(d.longname);
      var owner := LastSegment(CleanName(d.memberof));
      var name := LastSegment(path);
      ok := EmitStatements(owner, name, d);
    }

    /** The body of the `forEach` once the record's class and short name are known:
        the class and visibility filters, then the dispatch on the record's kind. */
    method EmitStatements(owner: string, name: string, d: Doc) returns (ok: bool)
      modifies this
      ensures ok == Statements(cfg, classData, owner, name, d).Ok?
      ensures out == old(out) + (if ok then Statements(cfg, classData, owner, name, d).value else [])
      ensures classData == old(classData) && docs == old(docs)
    {
      ok := true;
      if owner !in classData {
        assert out == old(out) + [];
        return;
      }
      if cfg.visibility == PrivateMode && d.access != Some(Private) && d.access != None {
        assert out == old(out) + [];
        return;
      }
      if cfg.visibility == PublicMode && d.access != Some(Public) {
        assert out == old(out) + [];
        return;
      }
      match d.kind {
        case Some(Member) =>
          ok := EmitMember(owner, name, d);
        case Some(Function) =>
          ok := EmitFunction(owner, name, d);
        case Some(Event) =>
          ManageEvent(owner, name);
        case _ =>
          assert out == old(out) + [];
      }
    }

    /** The third pass: the `forEach` over the remaining records, first to last; a thrown
        TypeError ends the run. */
    method EmitMembers() returns (completed: bool)
      modifies this
      ensures Emitted(out, completed) == Then(old(out), MemberPass(RecordStatements(cfg, classData), docs))
      ensures classData == old(classData) && docs == old(docs)
    {
      ghost var write := RecordStatements(cfg, classData);
      ghost var done: seq<Doc>, rest := [], docs;
      var k := 0;
      assert old(out) + [] == old(out);
      while k < |docs|
        invariant k == |done| && done + rest == docs
        invariant classData == old(classData) && docs == old(docs)
        invariant MemberPass(write, done).completed
        invariant out == old(out) + MemberPass(write, done).lines
      {
        ghost var before := out;
        var ok := EmitDoc(docs[k]);
        ghost var d, later := docs[k], rest[1..];
        NextRecord(done, rest, docs);
        assert write(d) == DocStatements(cfg, classData, d);
        MemberPassSnoc(write, done, d);
        if !ok {
          assert out == before + [];
          MemberPassStops(write, done + [d], later);
          return false;
        }
        ConcatAfter(old(out), MemberPass(write, done).lines, write(d).value);
        done, rest := done + [d], later;
        k := k + 1;
      }
      assert rest == [] && done == done + rest;
      completed := true;
    }

    /** The end marker, written once the third pass has finished. */
    method WriteEnd()
      modifies this
      ensures out == old(out) + [EndMarker]
      ensures classData == old(classData) && docs == old(docs)
    {
      out := out + [EndMarker];
    }
  }

  /** One record more for the first pass: a class or module is spliced out and its name
      registered, any other record stays. */
  lemma ClassPassStep(front: seq<Doc>, d: Doc, later: seq<Doc>, docs: seq<Doc>)
    requires docs == front + [d] + WithoutClasses(later)
    ensures |front| < |docs| && docs[|front|] == d
    ensures IsClassLike(d) ==> ClassNames([d] + later) == ClassNames(later) + [ShortName(d.longname)]
    ensures !IsClassLike(d) ==> ClassNames([d] + later) == ClassNames(later)
    ensures IsClassLike(d) ==> docs[..|front|] + docs[|front| + 1..] == front + WithoutClasses([d] + later)
    ensures !IsClassLike(d) ==> docs == front + WithoutClasses([d] + later)
  {
    SpliceStep(IsClassLike, front, d, later, docs);
    BlocksStep(ClassNameOf, d, later);
    if !IsClassLike(d) {
      assert ClassNames(later) + [] == ClassNames(later);
    }
  }

  /** One record more for the second pass: an emitted enumeration is spliced out, any
      other record stays. */
  lemma EnumPassStep(cfg: Config, front: seq<Doc>, d: Doc, later: seq<Doc>, docs: seq<Doc>)
    requires docs == front + [d] + WithoutEmittedEnums(cfg, later)
    ensures |front| < |docs| && docs[|front|] == d
    ensures EnumLines(cfg, [d] + later) == EnumLines(cfg, later) + EnumStatements(cfg)(d)
    ensures IsEmittedEnum(cfg, d) ==> docs[..|front|] + docs[|front| + 1..] == front + WithoutEmittedEnums(cfg, [d] + later)
    ensures !IsEmittedEnum(cfg, d) ==> docs == front + WithoutEmittedEnums(cfg, [d] + later)
  {
    SpliceStep(EmittedEnum(cfg), front, d, later, docs);
    BlocksStep(EnumStatements(cfg), d, later);
  }

  /** Splicing out the record at index `|front|` when `drop` selects it, keeping it otherwise,
      leaves what `Without` leaves of it and the records after it. */
  lemma SpliceStep(drop: Doc -> bool, front: seq<Doc>, d: Doc, later: seq<Doc>, docs: seq<Doc>)
    requires docs == front + [d] + Without(drop, later)
    ensures |front| < |docs| && docs[|front|] == d
    ensures drop(d) ==> docs[..|front|] + docs[|front| + 1..] == front + Without(drop, [d] + later)
    ensures !drop(d) ==> docs == front + Without(drop, [d] + later)
  {
    var all := [d] + later;
    assert all[0] == d && all[1..] == later;
    var rest := Without(drop, later);
    assert docs[..|front|] == front && docs[|front| + 1..] == rest;
    if drop(d) {
      assert Without(drop, all) == [] + rest;
      assert [] + rest == rest;
    } else {
      assert Without(drop, all) == [d] + rest;
    }
  }

  lemma BlocksStep(block: Doc -> seq<string>, d: Doc, later: seq<Doc>)
    ensures Blocks(block, [d] + later) == Blocks(block, later) + block(d)
  {
    assert ([d] + later)[1..] == later;
  }

  lemma ClassLinesSnoc(names: seq<string>, n: string)
    ensures ClassLines(names + [n]) == ClassLines(names) + [ClassLine(n)]
  {
  }

  /** The class line, the relation and then the value lines make up the enumeration's block. */
  lemma EnumBlockAfter(before: seq<string>, name: string, memberof: string, raw: string, head: seq<string>, out: seq<string>)
    requires head == before + [EnumClassLine(name)] + [RelationLine(memberof, "-->", name)]
    requires out == head + EnumValueLines(name, EnumValues.Values(raw))
    ensures out == before + EnumBlock(name, memberof, raw)
  {
    var pair := [EnumClassLine(name), RelationLine(memberof, "-->", name)];
    assert [EnumClassLine(name)] + [RelationLine(memberof, "-->", name)] == pair;
    ConcatAfter(before, [EnumClassLine(name)], [RelationLine(memberof, "-->", name)]);
    ConcatAfter(before, pair, EnumValueLines(name, EnumValues.Values(raw)));
  }

  /** The record after those done is the first of the rest. */
  lemma NextRecord(done: seq<Doc>, rest: seq<Doc>, docs: seq<Doc>)
    requires done + rest == docs && |done| < |docs|
    ensures docs[|done|] == rest[0]
    ensures (done + [rest[0]]) + rest[1..] == docs
  {
    assert rest == [rest[0]] + rest[1..];
  }

  lemma ConcatAfter<T>(a: seq<T>, b: seq<T>, c: seq<T>)
    ensures a + b + c == a + (b + c)
  {
  }

  /** Generates the diagram for the records `data`: the whole of `exports.publish`. */
  method Publish(cfg: Config, data: seq<Doc>) returns (file: seq<string>, completed: bool)
    ensures Emitted(file, completed) == Diagram(cfg, data)
  {
    var g := new Generator(cfg, data);
    ghost var ds := g.docs;
    g.RegisterClasses();
    ghost var classes := g.classData;
    ghost var rest := g.docs;
    ghost var classLines := ClassLines(classes);
    assert g.out == Header + classLines;
    g.RegisterEnums();
    ghost var enumLines := EnumLines(cfg, rest);
    ghost var front := g.out;
    assert front == Header + classLines + enumLines;
    completed := g.EmitMembers();
    ghost var members := MemberPass(RecordStatements(cfg, classes), WithoutEmittedEnums(cfg, rest));
    assert g.out == front + members.lines && completed == members.completed;
    if completed {
      g.WriteEnd();
    }
    file := g.out;
    DiagramParts(cfg, data, classes, rest);
  }

  /** The diagram in terms of what the first two passes leave behind. */
  lemma DiagramParts(cfg: Config, data: seq<Doc>, classes: seq<string>, rest: seq<Doc>)
    requires classes == ClassNames(DocumentedRecords(data))
    requires rest == WithoutClasses(DocumentedRecords(data))
    ensures Diagram(cfg, data) == Assemble(ClassLines(classes), EnumLines(cfg, rest),
                                           MemberPass(RecordStatements(cfg, classes), WithoutEmittedEnums(cfg, rest)))
  {
  }
}
