/** The passes of `publish` as functions of the symbol records: the records kept, the
    class names the first pass registers, the enumeration statements of the second pass,
    the member statements of the third, and the whole diagram file. */
module Passes {
  import opened Js
  import opened TypeNames
  import opened Symbols
  import opened Mermaid
  import opened Members

  /** The statements a run writes, and whether it reached its end without throwing. */
  datatype Emitted = Emitted(lines: seq<string>, completed: bool)

  /** The records left after removing the undocumented ones and the packages, in order. */
  function DocumentedRecords(ds: seq<Doc>): (r: seq<Doc>)
    ensures |r| <= |ds|
    ensures forall d :: d in r <==> d in ds && Documented(d)
  {
    if ds == [] then []
    else
      assert ds == [ds[0]] + ds[1..];
      (if Documented(ds[0]) then [ds[0]] else []) + DocumentedRecords(ds[1..])
  }

  /** Removing records keeps the order of the others. */
  lemma {:induction false} DocumentedRecordsConcat(a: seq<Doc>, b: seq<Doc>)
    ensures DocumentedRecords(a + b) == DocumentedRecords(a) + DocumentedRecords(b)
  {
    if a != [] {
      assert (a + b)[0] == a[0] && (a + b)[1..] == a[1..] + b;
      DocumentedRecordsConcat(a[1..], b);
    } else {
      assert a + b == b;
    }
  }

  /** The statements `block` gives for each record, from the last record to the first, as
      the first and second passes walk them. */
  function Blocks(block: Doc -> seq<string>, ds: seq<Doc>): seq<string> {
    if ds == [] then []
    else Blocks(block, ds[1..]) + block(ds[0])
  }

  /** Both passes write what a later record gives before what an earlier one gives. */
  lemma {:induction false} BlocksConcat(block: Doc -> seq<string>, a: seq<Doc>, b: seq<Doc>)
    ensures Blocks(block, a + b) == Blocks(block, b) + Blocks(block, a)
  {
    if a != [] {
      assert (a + b)[0] == a[0] && (a + b)[1..] == a[1..] + b;
      BlocksConcat(block, a[1..], b);
    } else {
      assert a + b == b;
    }
  }

  /** A statement is written exactly when some record's block holds it. */
  lemma {:induction false} BlocksMembers(block: Doc -> seq<string>, ds: seq<Doc>, n: string)
    ensures n in Blocks(block, ds) <==> exists d :: d in ds && n in block(d)
  {
    if ds != [] {
      BlocksMembers(block, ds[1..], n);
      assert ds == [ds[0]] + ds[1..];
      if n in Blocks(block, ds) && n !in Blocks(block, ds[1..]) {
        assert ds[0] in ds;
      }
    }
  }

  /** The name the first pass registers for a record: its short name, if it is a class or
      a module. */
  function ClassNameOf(d: Doc): seq<string> {
    if IsClassLike(d) then [ShortName(d.longname)] else []
  }

  /** The names the first pass registers, in the order it registers them: it walks the
      records from the last to the first. */
  function ClassNames(ds: seq<Doc>): seq<string> {
    Blocks(ClassNameOf, ds)
  }

  /** A name is registered exactly when some class or module record has it as short name. */
  lemma ClassNamesMembers(ds: seq<Doc>, n: string)
    ensures n in ClassNames(ds) <==> exists d :: d in ds && IsClassLike(d) && ShortName(d.longname) == n
  {
    BlocksMembers(ClassNameOf, ds, n);
    assert forall d :: n in ClassNameOf(d) <==> IsClassLike(d) && ShortName(d.longname) == n;
  }

  /** The records of `ds` that `drop` does not select, in order: what is left of `docs`
      once a pass has spliced the selected records out. */
  function Without(drop: Doc -> bool, ds: seq<Doc>): seq<Doc> {
    if ds == [] then []
    else (if drop(ds[0]) then [] else [ds[0]]) + Without(drop, ds[1..])
  }

  /** A record is left exactly when it was there and `drop` does not select it. */
  lemma {:induction false} WithoutMembers(drop: Doc -> bool, ds: seq<Doc>)
    ensures |Without(drop, ds)| <= |ds|
    ensures forall d :: d in Without(drop, ds) <==> d in ds && !drop(d)
  {
    if ds != [] {
      WithoutMembers(drop, ds[1..]);
      assert ds == [ds[0]] + ds[1..];
    }
  }

  /** The records left keep their relative order. */
  lemma {:induction false} WithoutConcat(drop: Doc -> bool, a: seq<Doc>, b: seq<Doc>)
    ensures Without(drop, a + b) == Without(drop, a) + Without(drop, b)
  {
    if a != [] {
      assert (a + b)[0] == a[0] && (a + b)[1..] == a[1..] + b;
      WithoutConcat(drop, a[1..], b);
    } else {
      assert a + b == b;
    }
  }

  /** The records left once the first pass has removed the classes and modules. */
  function WithoutClasses(ds: seq<Doc>): seq<Doc> {
    Without(IsClassLike, ds)
  }

  /** One `class` statement per registered name. */
  function ClassLines(names: seq<string>): seq<string> {
    seq(|names|, i requires 0 <= i < |names| => ClassLine(names[i]))
  }

  /** What the second pass writes for one record: its enumeration block when it is an
      enumeration that is emitted, nothing otherwise. */
  function EnumStatements(cfg: Config): Doc -> seq<string> {
    d => if IsEmittedEnum(cfg, d)
         then EnumBlock(ShortName(d.longname), CleanName(d.memberof), d.codeValue.value)
         else []
  }

  /** The statements of the second pass. */
  function EnumLines(cfg: Config, ds: seq<Doc>): seq<string> {
    Blocks(EnumStatements(cfg), ds)
  }

  /** Records emitted as enumerations under `cfg`. */
  function EmittedEnum(cfg: Config): Doc -> bool {
    d => IsEmittedEnum(cfg, d)
  }

  /** The records left once the second pass has removed the enumerations it emitted. */
  function WithoutEmittedEnums(cfg: Config, ds: seq<Doc>): seq<Doc> {
    Without(EmittedEnum(cfg), ds)
  }

  /** The second pass writes a block for a record exactly when it splices the record out:
      the records left are those that are not emitted enumerations, and every emitted
      enumeration's block starts with its `class … enum` statement. */
  lemma EnumPassConsumes(cfg: Config, ds: seq<Doc>)
    ensures forall d :: d in WithoutEmittedEnums(cfg, ds) <==> d in ds && !IsEmittedEnum(cfg, d)
    ensures forall d :: d in ds ==> (EnumStatements(cfg)(d) != [] <==> d !in WithoutEmittedEnums(cfg, ds))
    ensures forall d :: IsEmittedEnum(cfg, d) ==>
      |EnumStatements(cfg)(d)| >= 2 && EnumStatements(cfg)(d)[0] == EnumClassLine(ShortName(d.longname))
  {
    WithoutMembers(EmittedEnum(cfg), ds);
  }

  /** What the third pass writes for one record, given the registered classes. */
  function RecordStatements(cfg: Config, classes: seq<string>): Doc -> Result<seq<string>> {
    d => DocStatements(cfg, classes, d)
  }

  /** The third pass over `ds`, first record first, with `write` giving each record's
      statements: the statements of every record, until one throws; the run then ends with
      what was written so far. */
  function MemberPass(write: Doc -> Result<seq<string>>, ds: seq<Doc>): Emitted {
    if ds == [] then Emitted([], true)
    else
      var prev := MemberPass(write, ds[..|ds| - 1]);
      if !prev.completed then prev
      else
        match write(ds[|ds| - 1])
        case Ok(ls) => Emitted(prev.lines + ls, true)
        case Throw(_) => Emitted(prev.lines, false)
  }

  /** The pass completes exactly when no record's statements throw. */
  lemma {:induction false} MemberPassCompletes(write: Doc -> Result<seq<string>>, ds: seq<Doc>)
    ensures MemberPass(write, ds).completed <==> forall i :: 0 <= i < |ds| ==> write(ds[i]).Ok?
  {
    if ds != [] {
      var init := ds[..|ds| - 1];
      MemberPassCompletes(write, init);
      assert forall i :: 0 <= i < |ds| - 1 ==> init[i] == ds[i];
    }
  }

  /** One record more after a pass that completed: its statements appended, or the run
      ended by its TypeError. */
  lemma MemberPassSnoc(write: Doc -> Result<seq<string>>, front: seq<Doc>, d: Doc)
    requires MemberPass(write, front).completed
    ensures MemberPass(write, front + [d])
         == if write(d).Ok? then Emitted(MemberPass(write, front).lines + write(d).value, true)
            else Emitted(MemberPass(write, front).lines, false)
  {
    var ds := front + [d];
    assert ds[..|ds| - 1] == front && ds[|ds| - 1] == d;
  }

  /** Once a TypeError has ended the run, later records change nothing. */
  lemma MemberPassStops(write: Doc -> Result<seq<string>>, a: seq<Doc>, b: seq<Doc>)
    requires !MemberPass(write, a).completed
    ensures MemberPass(write, a + b) == MemberPass(write, a)
  {
    MemberPassConcat(write, a, b);
  }

  /** The pass over a single record. */
  lemma MemberPassOne(write: Doc -> Result<seq<string>>, d: Doc)
    ensures MemberPass(write, [d]) == if write(d).Ok? then Emitted(write(d).value, true) else Emitted([], false)
  {
    assert [d][..0] == [];
    if write(d).Ok? {
      assert [] + write(d).value == write(d).value;
    }
  }

  /** `lines` written before the run `e`. */
  function Then(lines: seq<string>, e: Emitted): Emitted {
    Emitted(lines + e.lines, e.completed)
  }

  /** The pass over `a + b` is the pass over `a`, then, if that completed, the pass over `b`. */
  lemma {:induction false} MemberPassConcat(write: Doc -> Result<seq<string>>, a: seq<Doc>, b: seq<Doc>)
    decreases |b|
    ensures MemberPass(write, a + b)
         == if MemberPass(write, a).completed
            then Then(MemberPass(write, a).lines, MemberPass(write, b))
            else MemberPass(write, a)
  {
    if b == [] {
      assert a + b == a;
      assert MemberPass(write, a).lines + [] == MemberPass(write, a).lines;
    } else {
      var init := b[..|b| - 1];
      MemberPassConcat(write, a, init);
      assert (a + b)[..|a + b| - 1] == a + init;
      assert (a + b)[|a + b| - 1] == b[|b| - 1];
      var pa := MemberPass(write, a);
      var pi := MemberPass(write, init);
      if pa.completed && pi.completed {
        match write(b[|b| - 1])
        case Ok(ls) =>
          assert pa.lines + pi.lines + ls == pa.lines + (pi.lines + ls);
        case Throw(_) =>
      }
    }
  }

  /** A record that writes nothing and does not throw leaves the pass unchanged. */
  lemma SilentRecordSkipped(write: Doc -> Result<seq<string>>, a: seq<Doc>, d: Doc, b: seq<Doc>)
    requires write(d) == Ok([])
    ensures MemberPass(write, a + [d] + b) == MemberPass(write, a + b)
  {
    MemberPassConcat(write, a, [d]);
    assert [d][..0] == [];
    assert MemberPass(write, [d]) == Emitted([], true);
    var pa := MemberPass(write, a);
    if pa.completed {
      assert pa.lines + [] == pa.lines;
    }
    assert MemberPass(write, a + [d]) == pa;
    MemberPassConcat(write, a + [d], b);
    MemberPassConcat(write, a, b);
  }

  /** The third pass writes nothing for a class or a module. */
  lemma ClassesSilent(cfg: Config, classes: seq<string>, d: Doc)
    requires IsClassLike(d)
    ensures RecordStatements(cfg, classes)(d) == Ok([])
  {
    ClassKindsUnhandled(d);
  }

  /** Removing the classes and modules before the third pass changes nothing it writes:
      the third pass ignores their kinds anyway. */
  lemma ClassRemovalInvisible(cfg: Config, classes: seq<string>, ds: seq<Doc>)
    ensures MemberPass(RecordStatements(cfg, classes), WithoutClasses(ds)) == MemberPass(RecordStatements(cfg, classes), ds)
  {
    forall d | IsClassLike(d) ensures RecordStatements(cfg, classes)(d) == Ok([]) {
      ClassesSilent(cfg, classes, d);
    }
    SilentRecordsInvisible(RecordStatements(cfg, classes), IsClassLike, ds);
  }

  /** Dropping any records that write nothing does not change the pass. */
  lemma {:induction false} SilentRecordsInvisible(write: Doc -> Result<seq<string>>, drop: Doc -> bool, ds: seq<Doc>)
    requires forall d :: drop(d) ==> write(d) == Ok([])
    ensures MemberPass(write, Without(drop, ds)) == MemberPass(write, ds)
  {
    if ds != [] {
      var d, rest := ds[0], ds[1..];
      SilentRecordsInvisible(write, drop, rest);
      if drop(d) {
        assert Without(drop, ds) == Without(drop, rest);
        SilentRecordSkipped(write, [], d, rest);
        assert [] + [d] + rest == ds && [] + rest == rest;
      } else {
        assert Without(drop, ds) == [d] + Without(drop, rest);
        MemberPassConcat(write, [d], Without(drop, rest));
        MemberPassConcat(write, [d], rest);
        assert [d] + rest == ds;
      }
    }
  }

  /** Every statement written for a record begins with the name of a registered class. */
  lemma RecordStatementsOwned(cfg: Config, classes: seq<string>, d: Doc)
    requires RecordStatements(cfg, classes)(d).Ok?
    ensures forall l :: l in RecordStatements(cfg, classes)(d).value ==> exists c :: c in classes && Leads(c, l)
  {
    var owner := Owner(d);
    var st := Statements(cfg, classes, owner, ShortName(d.longname), d);
    assert RecordStatements(cfg, classes)(d) == st;
    StatementsLead(cfg, classes, owner, ShortName(d.longname), d);
    if st.value != [] {
      assert owner in classes;
      forall l | l in st.value ensures exists c :: c in classes && Leads(c, l) {
        assert Leads(owner, l);
      }
    }
  }

  /** A pass whose records all write statements led by a registered class writes only such
      statements. */
  lemma {:induction false} MemberPassOwned(write: Doc -> Result<seq<string>>, classes: seq<string>, ds: seq<Doc>)
    requires forall d :: write(d).Ok? ==> forall l :: l in write(d).value ==> exists c :: c in classes && Leads(c, l)
    ensures forall l :: l in MemberPass(write, ds).lines ==> exists c :: c in classes && Leads(c, l)
  {
    if ds != [] {
      MemberPassOwned(write, classes, ds[..|ds| - 1]);
    }
  }

  /** The file: the header, the class statements, the enumeration statements and the
      member statements, then the end marker when the third pass completed. */
  function Assemble(classLines: seq<string>, enumLines: seq<string>, members: Emitted): Emitted {
    var lines := Header + classLines + enumLines + members.lines;
    if members.completed then Emitted(lines + [EndMarker], true) else Emitted(lines, false)
  }

  /** The file starts with the header and then the class statements, and it is complete
      exactly when the third pass is. */
  lemma AssembleShape(classLines: seq<string>, enumLines: seq<string>, members: Emitted)
    ensures var r := Assemble(classLines, enumLines, members);
      && |r.lines| >= 2 + |classLines|
      && r.lines[..2] == Header
      && r.completed == members.completed
      && forall i :: 0 <= i < |classLines| ==> r.lines[2 + i] == classLines[i]
  {
    var lines := Header + classLines + enumLines + members.lines;
    assert lines[..2] == Header;
    assert forall i :: 0 <= i < |classLines| ==> lines[2 + i] == classLines[i];
    if members.completed {
      assert (lines + [EndMarker])[..|lines|] == lines;
    }
  }

  /** When no statement of the body could be the end marker, the end marker is in the file
      exactly when the run completed, and it is then the last statement. */
  lemma AssembleEnd(classLines: seq<string>, enumLines: seq<string>, members: Emitted)
    requires forall l :: l in classLines + enumLines + members.lines ==> Spaced(l)
    ensures EndMarker in Assemble(classLines, enumLines, members).lines <==> members.completed
    ensures members.completed ==> Assemble(classLines, enumLines, members).lines[|Assemble(classLines, enumLines, members).lines| - 1] == EndMarker
  {
    var body := classLines + enumLines + members.lines;
    EndMarkerUnspaced();
    assert EndMarker !in body;
    assert Header + classLines + enumLines + members.lines == Header + body;
  }

  /** The diagram file `publish` writes for the records `data`. */
  function Diagram(cfg: Config, data: seq<Doc>): Emitted {
    var ds := DocumentedRecords(data);
    var classes := ClassNames(ds);
    var rest := WithoutClasses(ds);
    Assemble(ClassLines(classes), EnumLines(cfg, rest),
             MemberPass(RecordStatements(cfg, classes), WithoutEmittedEnums(cfg, rest)))
  }

  /** The file always starts with the header, whatever the records. */
  lemma DiagramHeader(cfg: Config, data: seq<Doc>)
    ensures |Diagram(cfg, data).lines| >= 2 && Diagram(cfg, data).lines[..2] == Header
  {
    var ds := DocumentedRecords(data);
    var classes := ClassNames(ds);
    var rest := WithoutClasses(ds);
    AssembleShape(ClassLines(classes), EnumLines(cfg, rest),
                  MemberPass(RecordStatements(cfg, classes), WithoutEmittedEnums(cfg, rest)));
  }

  /** Every documented class or module gets its `class` statement. */
  lemma ClassesDeclared(cfg: Config, data: seq<Doc>, d: Doc)
    requires d in data && Documented(d) && IsClassLike(d)
    ensures ClassLine(ShortName(d.longname)) in Diagram(cfg, data).lines
  {
    var ds := DocumentedRecords(data);
    var n := ShortName(d.longname);
    assert d in ds;
    ClassNamesMembers(ds, n);
    var classes := ClassNames(ds);
    var rest := WithoutClasses(ds);
    AssembleDeclares(classes, EnumLines(cfg, rest),
                     MemberPass(RecordStatements(cfg, classes), WithoutEmittedEnums(cfg, rest)), n);
  }

  /** A registered name's `class` statement is in the file. */
  lemma AssembleDeclares(names: seq<string>, enumLines: seq<string>, members: Emitted, n: string)
    requires n in names
    ensures ClassLine(n) in Assemble(ClassLines(names), enumLines, members).lines
  {
    var i :| 0 <= i < |names| && names[i] == n;
    var classLines := ClassLines(names);
    assert classLines[i] == ClassLine(n);
    AssembleShape(classLines, enumLines, members);
    var lines := Assemble(classLines, enumLines, members).lines;
    assert lines[2 + i] == classLines[i];
  }

  /** In a file whose class statements for `names` come before `start`, every statement
      from `start` on that is led by one of `names` comes after that name's `class` statement. */
  lemma OrderedAfter(lines: seq<string>, names: seq<string>, start: nat, ms: seq<string>)
    requires 2 + |names| <= start && start + |ms| <= |lines|
    requires forall k :: 0 <= k < |names| ==> lines[2 + k] == ClassLines(names)[k]
    requires forall m :: 0 <= m < |ms| ==> lines[start + m] == ms[m]
    requires forall l :: l in ms ==> exists c :: c in names && Leads(c, l)
    ensures forall j :: start <= j < start + |ms| ==> DeclaredBefore(lines, j)
  {
    forall j | start <= j < start + |ms|
      ensures DeclaredBefore(lines, j)
    {
      assert lines[start + (j - start)] == ms[j - start];
      assert ms[j - start] in ms;
      var c :| c in names && Leads(c, lines[j]);
      var k :| 0 <= k < |names| && names[k] == c;
      assert lines[2 + k] == ClassLines(names)[k] == ClassLine(c);
      assert DeclaresLeader(lines[2 + k], lines[j]);
    }
  }

  /** Some statement before the one at `j` is the `class` statement of the name that
      leads it. */
  ghost predicate DeclaredBefore(lines: seq<string>, j: int)
    requires 0 <= j < |lines|
  {
    exists i :: 0 <= i < j && DeclaresLeader(lines[i], lines[j])
  }

  /** `decl` is the `class` statement of the name that leads `line`. */
  ghost predicate DeclaresLeader(decl: string, line: string) {
    exists c :: decl == ClassLine(c) && Leads(c, line)
  }

  /** When every statement of the third pass is led by a registered name, each of them
      comes after the `class` statement of a name that leads it. */
  lemma AssembleOrdered(names: seq<string>, enumLines: seq<string>, members: Emitted, lines: seq<string>)
    requires forall l :: l in members.lines ==> exists c :: c in names && Leads(c, l)
    requires lines == Assemble(ClassLines(names), enumLines, members).lines
    ensures 2 + |names| + |enumLines| + |members.lines| <= |lines|
    ensures forall m :: 0 <= m < |members.lines| ==> lines[2 + |names| + |enumLines| + m] == members.lines[m]
    ensures forall j :: 2 + |names| + |enumLines| <= j < 2 + |names| + |enumLines| + |members.lines| ==>
              DeclaredBefore(lines, j)
  {
    AssembleLayout(names, enumLines, members, lines);
    OrderedAfter(lines, names, 2 + |names| + |enumLines|, members.lines);
  }

  /** Where the class statements and the third pass's statements stand in the file. */
  lemma AssembleLayout(names: seq<string>, enumLines: seq<string>, members: Emitted, lines: seq<string>)
    requires lines == Assemble(ClassLines(names), enumLines, members).lines
    ensures 2 + |names| + |enumLines| + |members.lines| <= |lines|
    ensures forall k :: 0 <= k < |names| ==> lines[2 + k] == ClassLines(names)[k]
    ensures forall m :: 0 <= m < |members.lines| ==> lines[2 + |names| + |enumLines| + m] == members.lines[m]
  {
    var classLines := ClassLines(names);
    var body := Header + classLines + enumLines + members.lines;
    assert |body| <= |lines| && lines[..|body|] == body by {
      if members.completed {
        assert lines == body + [EndMarker];
      }
    }
    forall k | 0 <= k < |names| ensures lines[2 + k] == classLines[k] {
      assert lines[2 + k] == body[2 + k];
    }
    forall m | 0 <= m < |members.lines| ensures lines[2 + |names| + |enumLines| + m] == members.lines[m] {
      assert lines[2 + |names| + |enumLines| + m] == body[2 + |names| + |enumLines| + m];
    }
  }

  /** No attribute, method, event or member relation is written before the `class`
      statement of the class it belongs to: each statement of the third pass begins with
      a name whose `class` statement comes earlier in the file. */
  lemma MembersAfterClasses(cfg: Config, data: seq<Doc>)
    ensures var ds := DocumentedRecords(data);
      var classes := ClassNames(ds);
      var rest := WithoutClasses(ds);
      var members := MemberPass(RecordStatements(cfg, classes), WithoutEmittedEnums(cfg, rest));
      var lines := Diagram(cfg, data).lines;
      var start := 2 + |classes| + |EnumLines(cfg, rest)|;
      && start + |members.lines| <= |lines|
      && (forall m :: 0 <= m < |members.lines| ==> lines[start + m] == members.lines[m])
      && forall j :: start <= j < start + |members.lines| ==>
           DeclaredBefore(lines, j)
  {
    var ds := DocumentedRecords(data);
    var classes := ClassNames(ds);
    var rest := WithoutClasses(ds);
    var write := RecordStatements(cfg, classes);
    forall d | write(d).Ok? ensures forall l :: l in write(d).value ==> exists c :: c in classes && Leads(c, l) {
      RecordStatementsOwned(cfg, classes, d);
    }
    MemberPassOwned(write, classes, WithoutEmittedEnums(cfg, rest));
    var members := MemberPass(write, WithoutEmittedEnums(cfg, rest));
    AssembleOrdered(classes, EnumLines(cfg, rest), members, Diagram(cfg, data).lines);
  }

  /** The enumeration statements all hold a space. */
  lemma EnumLinesSpaced(cfg: Config, ds: seq<Doc>)
    ensures forall l :: l in EnumLines(cfg, ds) ==> Spaced(l)
  {
    var block := EnumStatements(cfg);
    forall d ensures forall l :: l in block(d) ==> Spaced(l) {
      if IsEmittedEnum(cfg, d) {
        EnumBlockSpaced(ShortName(d.longname), CleanName(d.memberof), d.codeValue.value);
      }
    }
    BlocksSpaced(block, ds);
  }

  lemma {:induction false} BlocksSpaced(block: Doc -> seq<string>, ds: seq<Doc>)
    requires forall d, l :: l in block(d) ==> Spaced(l)
    ensures forall l :: l in Blocks(block, ds) ==> Spaced(l)
  {
    if ds != [] {
      BlocksSpaced(block, ds[1..]);
    }
  }

  /** The class statements all hold a space. */
  lemma ClassLinesSpaced(names: seq<string>)
    ensures forall l :: l in ClassLines(names) ==> Spaced(l)
  {
    forall l | l in ClassLines(names) ensures Spaced(l) {
      var i :| 0 <= i < |names| && ClassLines(names)[i] == l;
      ClassLineSpaced(names[i]);
    }
  }

  /** The third pass's statements all hold a space. */
  lemma MemberPassSpaced(cfg: Config, classes: seq<string>, ds: seq<Doc>)
    ensures forall l :: l in MemberPass(RecordStatements(cfg, classes), ds).lines ==> Spaced(l)
  {
    var write := RecordStatements(cfg, classes);
    forall d | write(d).Ok?
      ensures forall l :: l in write(d).value ==> exists c :: c in classes && Leads(c, l)
    {
      RecordStatementsOwned(cfg, classes, d);
    }
    MemberPassOwned(write, classes, ds);
    forall l | l in MemberPass(write, ds).lines ensures Spaced(l) {
      var c :| c in classes && Leads(c, l);
      assert l[|c|] == ' ';
    }
  }

  /** The end marker is written exactly when the run completes, and then it is last. */
  lemma EndMarkerIffCompleted(cfg: Config, data: seq<Doc>)
    ensures EndMarker in Diagram(cfg, data).lines <==> Diagram(cfg, data).completed
    ensures Diagram(cfg, data).completed ==> Diagram(cfg, data).lines[|Diagram(cfg, data).lines| - 1] == EndMarker
  {
    var ds := DocumentedRecords(data);
    var classes := ClassNames(ds);
    var rest := WithoutClasses(ds);
    var members := MemberPass(RecordStatements(cfg, classes), WithoutEmittedEnums(cfg, rest));
    ClassLinesSpaced(classes);
    EnumLinesSpaced(cfg, rest);
    MemberPassSpaced(cfg, classes, WithoutEmittedEnums(cfg, rest));
    AssembleEnd(ClassLines(classes), EnumLines(cfg, rest), members);
  }
}
