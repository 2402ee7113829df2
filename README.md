# Mermaid class diagrams from JSDoc records

This project models `exports.publish` of the JSDoc Mermaid template
(`mermaidtemplate/publish.js`). The function turns JSDoc symbol records into the
statements of a Mermaid `classDiagram` file:

- It first drops the undocumented records and the packages.
- It writes the header `<!--START-->` / `classDiagram`.
- Pass 1 walks the records backwards. It splices every class and module out of
  `docs`, writes a `class N` statement for it and pushes `N` onto `classData`.
- Pass 2 walks the remaining records backwards. It writes and splices out every
  enumeration that passes the visibility filter, when enumerations are enabled
  and the record has source text.
- Pass 3 walks forwards. It writes the attributes (with relations to registered
  classes), the methods and the events of registered classes.
- The end marker `<!--END-->` closes the file.

The model has two layers.

- **Generator (imperative).** `Publish.Generator` is a class with the fields
  `docs`, `classData` and `out`; `out` is the file as a sequence of statements.
  Its methods follow the source:
  - the `manage*` helpers append to `out`;
  - passes 1 and 2 are backward `while` loops that splice `docs` in place;
  - pass 3 is a forward loop;
  - the parameter list of a method is built by appending `type name, ` for each
    parameter and then cutting the last two characters.

  Each method is proved against a specification function.
- **Specification functions.** These define what each pass writes, in the
  modules `Passes`, `Members`, `Mermaid`, `EnumValues`, `TypeNames` and `Js`.
  `Passes.Diagram` is the whole file. The lemmas prove the properties the
  generator promises about these functions.

A JavaScript `TypeError` ends a run without the end marker. It comes either from
reading `[1]` of a failed `match`, or from calling `indexOf` on the `undefined`
first entry of an empty `names` array. It is modelled as `Js.Result.Throw`: the
run then reports `completed == false` and the file holds what was written
before the error. The model does not require that the regular expression
matches; it models the throw.

`Js.Option` stands for a property that may be `undefined`. `config.js` becomes
`Symbols.Config`: the visibility mode and three flags.

## Model

| member | source | states |
|---|---|---|
| Js.Trim | mermaidtemplate/publish.js:29 | `trim()` leaves no white space at either end of its result |
| Js.TrimStartDrops | mermaidtemplate/publish.js:29 | trimming the start removes a prefix made only of white space and keeps the rest unchanged |
| Js.TrimEndDrops | mermaidtemplate/publish.js:29 | trimming the end removes a suffix made only of white space and keeps the rest unchanged |
| Js.TrimOfTrimmed | mermaidtemplate/publish.js:29 | a string with no white space at its ends is its own trim |
| Js.LastSegmentSuffix | mermaidtemplate/publish.js:136 | `split(".").pop()` is a suffix with no '.'; unless it is the whole string, a '.' stands right before it |
| Js.IndexOfFromFirst | mermaidtemplate/publish.js:48 | the search from a start index gives the first occurrence from there, and -1 only when there is none |
| Js.IndexOfFirst | mermaidtemplate/publish.js:48 | `indexOf` gives the first index where the pattern occurs, and -1 only when it occurs nowhere |
| Js.StripOuterCases | mermaidtemplate/publish.js:73 | `substring(1, length - 1)` drops the outer characters of a string of length 2 or more, keeps a one-character string whole (bounds swapped) and gives "" for "" |
| Js.ToLowerCaseLowers | mermaidtemplate/publish.js:73 | the lower-cased text has no upper-case letter and keeps every other character in place |
| Mermaid.HeaderText | mermaidtemplate/publish.js:127 | the two header statements are the text `<!--START-->\nclassDiagram` that creates the file |
| Mermaid.TextAppend | mermaidtemplate/publish.js:62 | appending a statement adds a newline and the statement to the file's text |
| Mermaid.MemberLinesLead | mermaidtemplate/publish.js:95-121 | relation, attribute, method and event statements all begin with the class name and a space |
| Mermaid.RelationBracket | mermaidtemplate/publish.js:209 | in a member relation the character after the class name and its space is '[' |
| Mermaid.AttributeColon | mermaidtemplate/publish.js:96 | in an attribute statement the character after the class name and its space is ':', so it is never a member relation |
| Mermaid.EnumValueLinesAt | mermaidtemplate/publish.js:82-85 | one value statement per value, in value order, each value without its first and last character |
| Mermaid.EnumValueLines | mermaidtemplate/publish.js:82-85 | the value statements; stated by `Mermaid.EnumValueLinesAt` |
| Mermaid.EnumBlockExample | mermaidtemplate/publish.js:72-86 | the enumeration `("RED","BLUE")` named `Color` of `Foo` gives `class Color enum`, `Foo --> Color`, `Color : red`, `Color : blue` |
| Mermaid.QuotedValueLines | mermaidtemplate/publish.js:82-85 | the quoted values `"red"` and `"blue"` are written as `Color : red` and `Color : blue` |
| Mermaid.EnumBlockSpaced | mermaidtemplate/publish.js:79-85 | every statement of an enumeration block holds a space |
| Mermaid.EnumBlock | mermaidtemplate/publish.js:72-86 | the enum class statement, the relation from `memberof`, then one value statement per value; stated by `EnumValueLinesAt`, `EnumBlockExample`, `QuotedValueLines` and `EnumBlockSpaced` |
| Mermaid.EndMarkerUnspaced | mermaidtemplate/publish.js:281 | the end marker holds no space and is not a header statement |
| TypeNames.ReplaceSeparatorsChars | mermaidtemplate/publish.js:29 | each of `# / ~ - :` becomes '.', every other character stays, and no separator is left |
| TypeNames.CleanName | mermaidtemplate/publish.js:28-30 | an absent name cleans to ""; a cleaned name is as long as the trimmed input |
| TypeNames.CleanNameNoSeparators | mermaidtemplate/publish.js:28-30 | a cleaned name contains none of `# / ~ - :` |
| TypeNames.CleanNameIdempotent | mermaidtemplate/publish.js:28-30 | cleaning a cleaned name changes nothing |
| TypeNames.ShortName | mermaidtemplate/publish.js:136 | `cleanName(longname).split(".").pop()`; stated by `TypeNames.ShortNameSuffix` |
| TypeNames.ShortNameSuffix | mermaidtemplate/publish.js:136 | the short name is the suffix of the cleaned name after its last '.', holding neither '.' nor any separator |
| TypeNames.CloseAngleFirst | mermaidtemplate/publish.js:38 | the scan for `[^>]+>` stops at the first '>' |
| TypeNames.ArrayGroupClosed | mermaidtemplate/publish.js:38 | the capture group of `Array.<([^>]+)>` holds no '>' and a '>' follows it |
| TypeNames.FindArrayMatchFirst | mermaidtemplate/publish.js:38 | the search finds the leftmost position where `/Array.<([^>]+)>/` matches, and none only when it matches nowhere |
| TypeNames.CleanArrayTypeMatches | mermaidtemplate/publish.js:37-39 | `cleanArrayType` throws exactly when the pattern matches nowhere; otherwise it returns the group of the leftmost match plus "[]", with no '>' in it |
| TypeNames.CleanArrayTypeAt | mermaidtemplate/publish.js:37-39 | when the leftmost match is at `p`, the result is the group at `p` plus "[]" |
| TypeNames.CleanArrayTypeOfWrapper | mermaidtemplate/publish.js:37-39 | `Array?<T>…`, where `?` is any character but a line terminator and `T` is non-empty and free of '>', gives `T[]` |
| TypeNames.CloseAngleAt | mermaidtemplate/publish.js:38 | with a '>' at `e` and none before it, the scan stops at `e` |
| TypeNames.CleanArrayType | mermaidtemplate/publish.js:37-39 | `text.match(/Array.<([^>]+)>/)[1] + "[]"`; its meaning is stated by `CleanArrayTypeMatches` (throws exactly when nothing matches, else the leftmost group plus "[]"), `CleanArrayTypeAt` and `CleanArrayTypeOfWrapper` |
| TypeNames.RemoveAnglesDrops | mermaidtemplate/publish.js:53-54 | the global removal of angle brackets leaves no '<' and no '>' |
| TypeNames.RemoveAnglesKeeps | mermaidtemplate/publish.js:53-54 | text without angle brackets is left unchanged |
| TypeNames.RemoveAnglesOfChar | mermaidtemplate/publish.js:53-54 | on one character the removal drops an angle bracket and keeps anything else |
| TypeNames.RemoveAnglesAround | mermaidtemplate/publish.js:53-54 | removing the angle brackets of `pre<inner>` leaves `pre` followed by `inner` |
| TypeNames.RemoveAnglesConcat | mermaidtemplate/publish.js:53-54 | the removal works character by character: it distributes over concatenation |
| TypeNames.CleanPromiseType | mermaidtemplate/publish.js:46-55 | its meaning is stated by `CleanPromiseTypeCases` (which branch applies and when it throws), `CleanPromiseTypeUnclosed`, `PromiseOfArrayFlattens` and `PromiseOfPlainFlattens` |
| TypeNames.CleanPromiseTypeCases | mermaidtemplate/publish.js:46-55 | with "Array." at index 0 or absent, the result is the text without angle brackets; with "Array." further in, the result is `"Promise." + cleanArrayType(text)`, and there is a result exactly when the array pattern matches |
| TypeNames.CleanPromiseTypeUnclosed | mermaidtemplate/publish.js:46-55 | the result of `cleanPromiseType` holds no '>' |
| TypeNames.PromiseOfArrayFlattens | mermaidtemplate/publish.js:48-51 | `Promise.<Array.<T>>` gives `Promise.T[]` |
| TypeNames.PromiseOfArrayShape | mermaidtemplate/publish.js:48-50 | in `Promise.<Array.<T>>` "Array." first occurs at index 9 and `cleanArrayType` gives `T[]` |
| TypeNames.PromiseOfPlainFlattens | mermaidtemplate/publish.js:53-54 | `Promise.<T>` with a plain `T` gives `Promise.T` |
| TypeNames.NoArrayDotAround | mermaidtemplate/publish.js:48 | "Array." cannot occur in text built from parts that cannot hold it |
| EnumValues.SeparatorShift | mermaidtemplate/publish.js:74 | the lookahead of `/[,:](?=[^0-9])/` only inspects the next character, so a suffix keeps the same separators |
| EnumValues.FirstSeparatorIsFirst | mermaidtemplate/publish.js:74 | the scan finds the first ',' or ':' that is followed by a non-digit, and none only when there is none |
| EnumValues.Split | mermaidtemplate/publish.js:74 | the split always gives at least one piece |
| EnumValues.SplitPiecesClean | mermaidtemplate/publish.js:74 | no piece of the split holds a separator |
| EnumValues.SplitRejoins | mermaidtemplate/publish.js:74 | the pieces, with the separator characters put back between them, rebuild the text; there is one piece more than separators |
| EnumValues.SplitCuts | mermaidtemplate/publish.js:74 | the split is determined by the text: piece `i` is the text from just after the previous pieces and their separators, it holds no separator, it is followed by a separator unless it is the last piece, and the last piece ends the text |
| EnumValues.SplitBeforeDigit | mermaidtemplate/publish.js:74 | `a,,1` splits into `a` and `,1`: a comma followed by a digit does not separate |
| EnumValues.FirstIndexIsFirst | mermaidtemplate/publish.js:76 | `self.indexOf(elem)` gives the first index holding the value, and -1 only when none does |
| EnumValues.KeepFirstFirsts | mermaidtemplate/publish.js:75-77 | the filter keeps exactly the values present, each at its first occurrence, in the order of those occurrences |
| EnumValues.DedupeDistinct | mermaidtemplate/publish.js:75-77 | after the filter every value appears exactly once and no other value appears |
| EnumValues.KeepFirstOfDistinct | mermaidtemplate/publish.js:75-77 | a list without duplicates passes the filter unchanged |
| EnumValues.DedupeIdempotent | mermaidtemplate/publish.js:75-77 | filtering twice is filtering once |
| EnumValues.Dedupe | mermaidtemplate/publish.js:75-77 | the filter never lengthens the list; its meaning is stated by `KeepFirstFirsts`, `DedupeDistinct`, `KeepFirstOfDistinct` and `DedupeIdempotent` |
| EnumValues.ValuesDistinct | mermaidtemplate/publish.js:73-77 | there is at least one value, no value repeats, and the values are exactly the pieces of the lower-cased inner text |
| EnumValues.ValuesOfQuotedList | mermaidtemplate/publish.js:73-77 | `("RED","BLUE")` gives the pieces `"red"` and `"blue"` |
| EnumValues.Values | mermaidtemplate/publish.js:73-77 | strip the outer characters, lower-case, split, keep first occurrences; its meaning is stated by `ValuesDistinct` and `ValuesOfQuotedList` |
| Symbols.VisibilityModes | mermaidtemplate/publish.js:179-185 | mode `public` keeps exactly the `public` records, mode `private` exactly those with absent or `private` access, and any other mode keeps all; the enumeration pass (150-156) uses the same filter |
| Symbols.Visible | mermaidtemplate/publish.js:179-185 | the visibility filter; which records it keeps in each mode is stated by `Symbols.VisibilityModes` |
| Symbols.ClassKindsUnhandled | mermaidtemplate/publish.js:187-277 | classes and modules are not among the kinds the member pass handles |
| Symbols.IsEmittedEnum | mermaidtemplate/publish.js:148-161 | an enumeration that passes the visibility filter, with enumerations enabled and source text present, is written and spliced out; stated by `Passes.EnumPassConsumes` and `Symbols.VisibilityModes` |
| Symbols.Owner | mermaidtemplate/publish.js:171-172 | the owner is the part of the cleaned `memberof` after its last '.'; stated by `Symbols.OwnerSuffix` |
| Symbols.OwnerSuffix | mermaidtemplate/publish.js:171-172 | the owner is a suffix of the cleaned `memberof` with no '.', and a '.' stands right before it unless it is the whole name |
| Members.FirstTypeName | mermaidtemplate/publish.js:194 | `names[0].indexOf` throws exactly when `names` is empty, and otherwise reads `names[0]` |
| Members.ArrayPropertyType | mermaidtemplate/publish.js:194-197 | a property typed `Array.<T>…` is displayed as `T[]` with cardinality "*" |
| Members.PromisePropertyType | mermaidtemplate/publish.js:198-200 | a property typed `Promise.…` keeps display type "undefined" and cardinality "undefined", since the cleaned type goes to `returnType` |
| Members.PlainPropertyType | mermaidtemplate/publish.js:201-204 | any other property type is displayed as its cleaned name, free of separators, with cardinality "1" |
| Members.PropertyTypeOf | mermaidtemplate/publish.js:193-204 | the three branches on the first property type; stated by `ArrayPropertyType`, `PromisePropertyType`, `PlainPropertyType` and `UnionParamFlattens` |
| Members.TypeOverride | mermaidtemplate/publish.js:213-215 | the override is present exactly when `type.names[0]` is a non-empty string, and it is that raw string |
| Members.AttributeType | mermaidtemplate/publish.js:213-215 | without an override the attribute is printed with the display type |
| Members.Relations | mermaidtemplate/publish.js:208-210 | a member gives at most one relation: `O [1] --> [card] T` exactly when the display type `T` is a registered name; the three property-type branches are stated by `ArrayMemberRelation`, `PlainMemberRelation` and `PromiseMemberRelation` |
| Members.RelationsLead | mermaidtemplate/publish.js:208-210 | a relation begins with its owner's name, a space and '[' |
| Members.TypeMember | mermaidtemplate/publish.js:193-215 | an override sets the attribute type; a member without a property type has no relation |
| Members.TypeMemberLeads | mermaidtemplate/publish.js:208-210 | a member's relations begin with its owner, a space and '[' |
| Members.MemberLines | mermaidtemplate/publish.js:188-223 | a member's statements exist exactly when its typing does not throw |
| Members.MemberLinesContents | mermaidtemplate/publish.js:208-221 | a member writes exactly its relations, in order, as the first statements; then its attribute as the last statement exactly when undefined types are allowed or the type is not "undefined"; otherwise nothing more |
| Members.ReturnType | mermaidtemplate/publish.js:227-242 | a function without a declared return type returns "void" |
| Members.ReturnTypeCases | mermaidtemplate/publish.js:228-241 | an empty `names` throws; a type starting with neither "Array." nor "Promise." is cleaned as a name and holds no separator |
| Members.ArrayReturnType | mermaidtemplate/publish.js:232-233 | a return type `Array.<T>…` gives `T[]` |
| Members.PromiseArrayReturnType | mermaidtemplate/publish.js:235-236 | a return type `Promise.<Array.<W>>` gives `Promise.W[]` |
| Members.PromiseFunctionLine | mermaidtemplate/publish.js:225-268 | a visible function of a registered class returning `Promise.<Array.<W>>` is written `O : Promise.W[] : name(P)` |
| Members.ParamTokens | mermaidtemplate/publish.js:246-263 | when no parameter throws there is one token per parameter, in order, each that parameter's token |
| Members.ParamToken | mermaidtemplate/publish.js:247-259 | one parameter's text before its ", "; stated by `ParamTokenUntyped`, `ParamTokenTyped`, `ParamTokenArray`, `UnionParamFlattens` and `ModuleParamRaw` |
| Members.ParamTokensOk | mermaidtemplate/publish.js:246-263 | the tokens are computed exactly when no parameter throws; otherwise the error is that of the first parameter that throws |
| Members.ParamTokenUntyped | mermaidtemplate/publish.js:247-259 | an untyped parameter gives " " and its name when names are printed and the name is non-empty, and "" otherwise |
| Members.ParamTokenTyped | mermaidtemplate/publish.js:248-259 | an empty `names` throws; a type without "Array." is kept as written, with no `cleanName`; a type with "Array." anywhere throws exactly when the array pattern matches nowhere |
| Members.ParamTokenArray | mermaidtemplate/publish.js:251-259 | a type holding "Array." whose leftmost match is at `m` gives that match's group, "[]", then the name part |
| Members.UnionMatch | mermaidtemplate/publish.js:38 | in the union type `Object` or `Array.<W>`, written with a vertical bar, "Array." first occurs at 7, where the pattern first matches, with group `W` |
| Members.UnionParamFlattens | mermaidtemplate/publish.js:248-254 | a parameter of that union type gives `W[]` plus its name part, while a property of that type keeps the whole cleaned name with cardinality "1" |
| Members.ModuleParamRaw | mermaidtemplate/publish.js:248-254 | a parameter typed `module:a~B` keeps that type as written |
| Members.ParamList | mermaidtemplate/publish.js:244-266 | a function without `params` has the empty parameter list |
| Members.TerminatedIsJoined | mermaidtemplate/publish.js:261-265 | appending each token with ", " and cutting the last two characters gives the tokens joined by ", ", with no trailing separator |
| Members.AppendParam | mermaidtemplate/publish.js:246-263 | the callback for one parameter produces exactly `ParamToken`, whose meaning `ParamTokenUntyped`, `ParamTokenTyped`, `ParamTokenArray`, `UnionParamFlattens` and `ModuleParamRaw` state |
| Members.ParamTokensAt | mermaidtemplate/publish.js:246-263 | a parameter that throws ends the list with its error; otherwise its token comes before those of the later parameters |
| Members.BuildParams | mermaidtemplate/publish.js:244-266 | the loop builds exactly the parameter list, or the first TypeError |
| Members.PrefixedTwice | mermaidtemplate/publish.js:254-261 | tokens already appended compose in order |
| Members.FunctionLines | mermaidtemplate/publish.js:225-270 | a function writes the single statement `O : R : name(P)` with its return type and parameter list, and throws exactly when one of those throws |
| Members.Statements | mermaidtemplate/publish.js:175-278 | a record whose owner is not registered, that the visibility filter rejects, or whose kind is not member, function or event writes nothing |
| Members.DocStatements | mermaidtemplate/publish.js:169-278 | the `forEach` callback: the statements for the record's owner and short name; stated by `Members.Statements`, `Members.StatementsLead` and `Passes.RecordStatementsOwned` |
| Members.StatementsLead | mermaidtemplate/publish.js:187-278 | every statement written for a record begins with its owner and a space |
| Members.StatementsSpaced | mermaidtemplate/publish.js:187-278 | every statement written for a record holds a space |
| Members.UndefinedAttribute | mermaidtemplate/publish.js:217-221 | a member typed "undefined" gets its attribute statement exactly when `allowUndefinedType` is true |
| Members.ArrayTypeMember | mermaidtemplate/publish.js:194-210 | an `Array.<T>` property gives a relation with cardinality "*" to `T[]` exactly when a class named `T[]` is registered |
| Members.ArrayMemberRelation | mermaidtemplate/publish.js:194-210 | the relation to `T[]` is in a member's statements exactly when `T[]`, brackets included, is a registered class name |
| Members.PlainMemberRelation | mermaidtemplate/publish.js:201-210 | a plain property type gives the relation `O [1] --> [1] T`, with `T` its full cleaned name, exactly when `T` is a registered class name |
| Members.PromiseMemberRelation | mermaidtemplate/publish.js:198-210 | a promise property type gives the relation `O [1] --> [undefined] undefined` exactly when a class named `undefined` is registered |
| Members.ModulePathCleaned | mermaidtemplate/publish.js:202 | the property type `module:a~Widget` is compared as `module.a.Widget`, so it never matches the short name `Widget` |
| Members.PlainFunction | mermaidtemplate/publish.js:225-268 | a function with no return type and no params is written `O : void : name()` |
| Passes.DocumentedRecords | mermaidtemplate/publish.js:17-21 | the records kept are exactly the documented non-package ones |
| Passes.DocumentedRecordsConcat | mermaidtemplate/publish.js:17-21 | the removal keeps the order of the other records |
| Passes.BlocksConcat | mermaidtemplate/publish.js:133-134 | the backward passes write what a later record gives before what an earlier one gives |
| Passes.BlocksMembers | mermaidtemplate/publish.js:133-164 | a statement is written by a backward pass exactly when some record's block holds it |
| Passes.ClassNamesMembers | mermaidtemplate/publish.js:135-138 | a name is registered exactly when a class or module record has it as its short name |
| Passes.ClassNames | mermaidtemplate/publish.js:133-140 | the names the first pass registers, in reverse record order; `ClassNamesMembers` states which |
| Passes.WithoutMembers | mermaidtemplate/publish.js:137 | after a pass splices out the selected records, exactly the unselected ones are left |
| Passes.WithoutConcat | mermaidtemplate/publish.js:137 | the records left keep their relative order |
| Passes.EnumStatements | mermaidtemplate/publish.js:159-161 | an emitted enumeration writes its block, any other record nothing; stated by `Passes.EnumPassConsumes` and `Mermaid.EnumBlockExample` |
| Passes.WithoutEmittedEnums | mermaidtemplate/publish.js:161 | the records left after the splice; stated by `Passes.EnumPassConsumes` and `Passes.WithoutConcat` |
| Passes.EnumPassConsumes | mermaidtemplate/publish.js:159-161 | the records left are exactly those that are not emitted enumerations; a record gets a block exactly when it is spliced out, and the block starts with its `class … enum` statement |
| Passes.EnumLines | mermaidtemplate/publish.js:143-164 | the second pass's statements, in reverse record order; `BlocksConcat`, `BlocksMembers` and `EnumLinesSpaced` state them |
| Passes.MemberPass | mermaidtemplate/publish.js:168-279 | the third pass; stated by `MemberPassCompletes`, `MemberPassSnoc`, `MemberPassStops`, `MemberPassConcat` and `MemberPassOwned` |
| Passes.MemberPassCompletes | mermaidtemplate/publish.js:168-279 | the member pass completes exactly when no record's statements throw |
| Passes.MemberPassSnoc | mermaidtemplate/publish.js:168 | one record more appends its statements, or ends the run on its TypeError |
| Passes.MemberPassStops | mermaidtemplate/publish.js:168 | after a TypeError, later records change nothing |
| Passes.MemberPassOne | mermaidtemplate/publish.js:168 | the pass over one record is that record's statements |
| Passes.MemberPassConcat | mermaidtemplate/publish.js:168 | the pass over `a + b` is the pass over `a`, then, if that completed, the pass over `b` |
| Passes.SilentRecordSkipped | mermaidtemplate/publish.js:276-277 | a record that writes nothing leaves the pass unchanged |
| Passes.ClassesSilent | mermaidtemplate/publish.js:187-277 | the member pass writes nothing for a class or module |
| Passes.ClassRemovalInvisible | mermaidtemplate/publish.js:137 | splicing out the classes before the member pass does not change what it writes |
| Passes.SilentRecordsInvisible | mermaidtemplate/publish.js:137 | dropping any records that write nothing does not change the member pass |
| Passes.RecordStatementsOwned | mermaidtemplate/publish.js:175-177 | every statement of the member pass begins with a registered class name |
| Passes.MemberPassOwned | mermaidtemplate/publish.js:168-279 | a pass whose records' statements are all led by registered classes writes only such statements |
| Passes.AssembleShape | mermaidtemplate/publish.js:127-140 | the file starts with the header and then the class statements, and it is complete exactly when the member pass is |
| Passes.AssembleEnd | mermaidtemplate/publish.js:281 | when no statement can be the end marker, the end marker is in the file exactly when the run completed, and it is then last |
| Passes.Assemble | mermaidtemplate/publish.js:127-281 | the header, the class, enumeration and member statements, then the end marker on completion; stated by `AssembleShape`, `AssembleLayout`, `AssembleEnd` and `MembersAfterClasses` |
| Passes.DiagramHeader | mermaidtemplate/publish.js:127 | every file starts with the header |
| Passes.ClassesDeclared | mermaidtemplate/publish.js:133-140 | every documented class or module gets its `class N` statement |
| Passes.AssembleDeclares | mermaidtemplate/publish.js:138 | a registered name's `class` statement is in the file |
| Passes.EnumLinesSpaced | mermaidtemplate/publish.js:143-164 | every enumeration statement holds a space |
| Passes.ClassLinesSpaced | mermaidtemplate/publish.js:62 | every class statement holds a space |
| Passes.MemberPassSpaced | mermaidtemplate/publish.js:168-279 | every member-pass statement holds a space |
| Passes.EndMarkerIffCompleted | mermaidtemplate/publish.js:281 | the file holds `<!--END-->` exactly when the run completed, and then as its last statement |
| Passes.AssembleLayout | mermaidtemplate/publish.js:127-168 | in the file, the class statements stand right after the header, and the third pass's statements right after the class and enumeration statements |
| Passes.OrderedAfter | mermaidtemplate/publish.js:133-279 | in a file whose class statements come first, every later statement led by a registered name comes after that name's `class` statement |
| Passes.AssembleOrdered | mermaidtemplate/publish.js:127-281 | when every member-pass statement is led by a registered name, the member statements stand after the class and enumeration statements, and each comes after the `class` statement of the name that leads it |
| Passes.MembersAfterClasses | mermaidtemplate/publish.js:133-279 | no attribute, method, event or member relation is written before the `class` statement of the class it belongs to |
| Passes.Diagram | mermaidtemplate/publish.js:16-282 | the whole file and its completion; stated by `AssembleShape`, `AssembleEnd`, `DiagramHeader`, `ClassesDeclared` and `EndMarkerIffCompleted` |
| Publish.Generator.constructor | mermaidtemplate/publish.js:17-21 | the records start as the documented ones, the file as the header, and no class is registered |
| Publish.Generator.ManageClass | mermaidtemplate/publish.js:61-64 | appends `class N` to the file and `N` to `classData` |
| Publish.Generator.ManageRelation | mermaidtemplate/publish.js:119-121 | appends `class1 relationType class2` |
| Publish.Generator.ManageAttribute | mermaidtemplate/publish.js:95-97 | appends `className : type : attribute` |
| Publish.Generator.ManageFunction | mermaidtemplate/publish.js:106-108 | appends `className : returnType : name(params)` |
| Publish.Generator.ManageEvent | mermaidtemplate/publish.js:110-112 | appends `className ::event : name` |
| Publish.Generator.ManageEnum | mermaidtemplate/publish.js:72-86 | appends the enumeration block: the enum class, the relation from `memberof`, then the values |
| Publish.Generator.WriteValues | mermaidtemplate/publish.js:82-85 | appends one value statement per value, in order |
| Publish.Generator.RegisterClasses | mermaidtemplate/publish.js:133-140 | afterwards `docs` is the old records without classes and modules, in the same order; `classData` and the file gain their names and `class` statements in reverse record order |
| Publish.Generator.RegisterClassAt | mermaidtemplate/publish.js:134-139 | one backward iteration keeps the first pass's invariant |
| Publish.Generator.RegisterEnums | mermaidtemplate/publish.js:143-164 | afterwards `docs` is the old records without the emitted enumerations, in the same order; the file gains their blocks in reverse record order |
| Publish.Generator.RegisterEnumAt | mermaidtemplate/publish.js:144-163 | one backward iteration keeps the second pass's invariant; the `continue`s leave the record in place |
| Publish.Generator.EmitMember | mermaidtemplate/publish.js:188-223 | writes exactly the member's statements, or nothing when its typing throws |
| Publish.Generator.EmitFunction | mermaidtemplate/publish.js:225-270 | writes exactly the function's statement, or nothing when its return type or a parameter throws |
| Publish.Generator.EmitDoc | mermaidtemplate/publish.js:169-278 | the `forEach` callback writes exactly the record's statements, and reports a TypeError |
| Publish.Generator.EmitStatements | mermaidtemplate/publish.js:175-278 | the filters and the dispatch on kind write exactly the statements for the given owner and short name |
| Publish.Generator.EmitMembers | mermaidtemplate/publish.js:168-279 | the forward loop writes the member pass over the remaining records and stops at the first TypeError |
| Publish.Generator.WriteEnd | mermaidtemplate/publish.js:281 | appends `<!--END-->` |
| Publish.Publish | mermaidtemplate/publish.js:16-282 | the file written and the completion flag are those of `Passes.Diagram` |

## Left out

- File-system I/O (`fs.existsSync`, `mkdirp.sync`, `writeFileSync`, `appendFileSync`) and the output path: the file is the sequence `out`; its text is given by `Mermaid.Text`.
- The TaffyDB queries (`data({undocumented: true}).remove()` and the package removal): modelled as the filter `Passes.DocumentedRecords` over a sequence of records.
- Loading `config.js`: its options are the parameter `Symbols.Config`. The `output` path is left out. `visibility` is a three-valued datatype: "public", "private", and any other value, which filters nothing.
- JSDoc `kind` and `access` strings are datatypes. Kinds the generator never compares with are `OtherKind`, and accesses other than public and private are `OtherAccess`.
- Properties of another JavaScript type than the one JSDoc produces (a number as `longname`, a non-array `names`) are not modelled.
- Strings are sequences of Unicode code points, not of UTF-16 code units. For text outside the Basic Multilingual Plane the index arithmetic differs. Two examples: in `Array.Array😀<T>` the `.` of the pattern cannot match the two code units of the emoji, so JavaScript throws, while the model writes `T[]`; and for the enumeration `(😀)` the outer `substring(1, length - 1)` keeps the emoji in both, but the value's own `substring(1, length - 1)` counts the emoji as two code units, so JavaScript writes `N : ` where the model, seeing one character, writes `N : 😀`.
- `Js.ToLowerCase` maps only Basic Latin and Latin-1 letters; other Unicode case mappings are not modelled.
- The general regular-expression engine: only the four patterns the generator uses are modelled, as hand-written scans: the name separators, `/Array.<([^>]+)>/`, `/[,:](?=[^0-9])/` and the angle-bracket removal.
- The unused `relationData` array and counter `j`, and the `this` arguments of `forEach`, are not modelled.
- TypeNames.RemoveAnglesDrops: states that no angle bracket is left. That everything else is kept follows from `RemoveAnglesOfChar` with `RemoveAnglesConcat`; no multiset statement is proved.
- Members.Relations: its own contract states only that there is at most one relation. The relation depends on which branch of the property typing applies, so what it is, and when, is stated per branch by `Members.ArrayMemberRelation`, `Members.PlainMemberRelation` and `Members.PromiseMemberRelation`.

Where the code and the written description of the generator disagree, the model follows the code:

- Enumeration values are split at ',' and at ':' when followed by a non-digit, not at commas only.
- The relation written for an enumeration starts at the full cleaned `memberof` (line 146), not at its last segment.
- A `Promise.`-typed property does not get a flattened display type. Line 199 assigns the cleaned type to `returnType`, so the attribute type stays "undefined" and its relation cardinality prints as "undefined".
- The relation check compares the display type with its "[]" suffix (the stripping at line 206 is commented out). So an `Array.<Widget>` property relates only to a class literally named `Widget[]`.
- The relation check compares the full cleaned property type (line 202) with the registered short names (line 136). So a property typed `module:a~Widget` is compared as `module.a.Widget` and never relates to the class `Widget`.
- A `class` statement is written for every class or module record; records with the same short name give repeated statements.
- The class named by an enumeration's `memberof` is not checked against the registered classes.
- Parameter types are unwrapped when "Array." occurs anywhere in them (line 251); return and property types only when it is at index 0.
- The comment on `printParametersName` in `mermaidtemplate/config.js` is inverted: names are printed when it is true (line 257).
