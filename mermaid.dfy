/** The Mermaid class-diagram statements the generator appends to its output file. The
    file is a sequence of statements: it is created holding the two header lines and
    every `appendFileSync(file, "\n" + s)` adds the statement `s`. */
module Mermaid {
  import opened Js
  import EnumValues

  const Header: seq<string> := ["<!--START-->", "classDiagram"]
  const EndMarker: string := "<!--END-->"

  /** The file's text: its statements separated by newlines. */
  function Text(lines: seq<string>): string {
    Join(lines, "\n")
  }

  /** Creating the file with the header is `writeFileSync(file, "<!--START-->\nclassDiagram")`. */
  lemma HeaderText()
    ensures Text(Header) == "<!--START-->\nclassDiagram"
  {
    assert Header[..1] == ["<!--START-->"];
  }

  /** Appending a statement appends a newline and the statement to the file's text. */
  lemma TextAppend(lines: seq<string>, s: string)
    requires lines != []
    ensures Text(lines + [s]) == Text(lines) + "\n" + s
  {
    assert (lines + [s])[..|lines|] == lines;
  }

  function ClassLine(name: string): string {
    "class " + name
  }

  function EnumClassLine(name: string): string {
    "class " + name + " enum"
  }

  function RelationLine(from: string, relation: string, to: string): string {
    from + " " + relation + " " + to
  }

  function EnumValueLine(name: string, value: string): string {
    name + " : " + value
  }

  function AttributeLine(className: string, attribute: string, typ: string): string {
    className + " : " + typ + " : " + attribute
  }

  function FunctionLine(className: string, returnType: string, name: string, params: string): string {
    className + " : " + returnType + " : " + name + "(" + params + ")"
  }

  function EventLine(className: string, name: string): string {
    className + " ::event : " + name
  }

  /** `line` begins with the class name `name` followed by a space. */
  predicate Leads(name: string, line: string) {
    |name| < |line| && line[..|name|] == name && line[|name|] == ' '
  }

  /** The statements written for a member all begin with the name of its class. */
  lemma MemberLinesLead(c: string, x: string, y: string, z: string)
    ensures Leads(c, RelationLine(c, x, y))
    ensures Leads(c, AttributeLine(c, x, y))
    ensures Leads(c, FunctionLine(c, x, y, z))
    ensures Leads(c, EventLine(c, x))
  {
    assert RelationLine(c, x, y) == c + (" " + x + " " + y);
    assert AttributeLine(c, x, y) == c + (" : " + y + " : " + x);
    assert FunctionLine(c, x, y, z) == c + (" : " + x + " : " + y + "(" + z + ")");
    assert EventLine(c, x) == c + (" ::event : " + x);
  }

  /** The character after a class name and its space: '[' in a relation whose kind starts
      with '[', ':' in an attribute, so the two are never the same statement. */
  lemma RelationBracket(c: string, relation: string, to: string)
    requires |relation| > 0 && relation[0] == '['
    ensures RelationLine(c, relation, to)[|c| + 1] == '['
  {
    assert RelationLine(c, relation, to) == c + " " + (relation + " " + to);
  }

  lemma AttributeColon(c: string, attribute: string, typ: string)
    ensures AttributeLine(c, attribute, typ)[|c| + 1] == ':'
  {
    assert AttributeLine(c, attribute, typ) == c + " " + (": " + typ + " : " + attribute);
  }

  /** Every statement the generator writes after the header holds a space; the end
      marker holds none. */
  predicate Spaced(line: string) {
    ' ' in line
  }

  /** One statement per enumeration value, each value without its first and last character. */
  function EnumValueLines(name: string, values: seq<string>): seq<string> {
    if values == [] then []
    else EnumValueLines(name, values[..|values| - 1]) + [EnumValueLine(name, StripOuter(values[|values| - 1]))]
  }

  /** One statement per value, in the order of the values. */
  lemma {:induction false} EnumValueLinesAt(name: string, values: seq<string>)
    ensures |EnumValueLines(name, values)| == |values|
    ensures forall i :: 0 <= i < |values| ==> EnumValueLines(name, values)[i] == EnumValueLine(name, StripOuter(values[i]))
  {
    if values != [] {
      var init := values[..|values| - 1];
      EnumValueLinesAt(name, init);
      var last := EnumValueLine(name, StripOuter(values[|values| - 1]));
      assert EnumValueLines(name, values) == EnumValueLines(name, init) + [last];
      forall i | 0 <= i < |values| - 1
        ensures EnumValueLines(name, values)[i] == EnumValueLine(name, StripOuter(values[i]))
      {
        assert init[i] == values[i];
      }
    }
  }

  /** What `manageEnum(name, memberof, raw)` appends: the enum class, the relation from
      the enclosing symbol, then the values. */
  function EnumBlock(name: string, memberof: string, raw: string): seq<string> {
    [EnumClassLine(name), RelationLine(memberof, "-->", name)]
      + EnumValueLines(name, EnumValues.Values(raw))
  }

  lemma QuotedValueLines()
    ensures EnumValueLines("Color", ["\"red\"", "\"blue\""]) == ["Color : red", "Color : blue"]
  {
    var red, blue := "\"red\"", "\"blue\"";
    StripOuterCases(red);
    StripOuterCases(blue);
    assert StripOuter(red) == "red" by { assert red[1..|red| - 1] == "red"; }
    assert StripOuter(blue) == "blue" by { assert blue[1..|blue| - 1] == "blue"; }
    assert EnumValueLine("Color", "red") == "Color : red";
    assert EnumValueLine("Color", "blue") == "Color : blue";
    var values := [red, blue];
    assert values[..1] == [red] && [red][..0] == values[..0];
    assert EnumValueLines("Color", [red]) == EnumValueLines("Color", []) + ["Color : red"];
    assert EnumValueLines("Color", values) == EnumValueLines("Color", [red]) + ["Color : blue"];
  }

  /** The enumeration `("RED","BLUE")` of `Foo` named `Color`. */
  lemma EnumBlockExample()
    ensures EnumBlock("Color", "Foo", "(\"RED\",\"BLUE\")")
         == ["class Color enum", "Foo --> Color", "Color : red", "Color : blue"]
  {
    var raw := "(\"RED\",\"BLUE\")";
    EnumValues.ValuesOfQuotedList();
    QuotedValueLines();
    var values := EnumValueLines("Color", EnumValues.Values(raw));
    assert values == ["Color : red", "Color : blue"];
    ColorLines();
  }

  lemma ColorLines()
    ensures EnumClassLine("Color") == "class Color enum"
    ensures RelationLine("Foo", "-->", "Color") == "Foo --> Color"
  {
  }

  lemma ClassLineSpaced(name: string)
    ensures Spaced(ClassLine(name))
  {
    assert ClassLine(name)[5] == ' ';
  }

  /** Every statement of an enumeration block holds a space. */
  lemma EnumBlockSpaced(name: string, memberof: string, raw: string)
    ensures forall l :: l in EnumBlock(name, memberof, raw) ==> Spaced(l)
  {
    assert EnumClassLine(name)[5] == ' ';
    assert RelationLine(memberof, "-->", name)[|memberof|] == ' ';
    EnumValueLinesSpaced(name, EnumValues.Values(raw));
  }

  lemma EnumValueLinesSpaced(name: string, values: seq<string>)
    ensures forall l :: l in EnumValueLines(name, values) ==> Spaced(l)
  {
    var lines := EnumValueLines(name, values);
    EnumValueLinesAt(name, values);
    forall l | l in lines ensures Spaced(l) {
      var i :| 0 <= i < |lines| && lines[i] == l;
      assert l[|name|] == ' ';
    }
  }

  /** The end marker holds no space and is not a header line. */
  lemma EndMarkerUnspaced()
    ensures !Spaced(EndMarker)
    ensures EndMarker !in Header
  {
    assert EndMarker[4] != Header[0][4];
    assert EndMarker[0] != Header[1][0];
  }
}
