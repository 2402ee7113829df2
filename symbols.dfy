/** The JSDoc symbol records the generator reads, its configuration, and the rules it
    applies to a single record: visibility, class-ness, enum emission and naming. */
module Symbols {
  import opened Js
  import opened TypeNames

  /** JSDoc's `kind` names that the generator compares with; every other kind name
      (constant, typedef, namespace, ...) is `OtherKind`. */
  datatype Kind = Class | Module | Member | Function | Event | Package | OtherKind

  /** JSDoc's `access` names: "private", "public", and the others (protected, package). */
  datatype Access = Private | Public | OtherAccess

  /** `config.visibility`: "public", "private", or any other value, which lets every
      record through. */
  datatype VisibilityMode = PublicMode | PrivateMode | AllMode

  /** One entry of a function's `params`: `type.names` and `name`. */
  datatype Param = Param(typeNames: Option<seq<string>>, name: Option<string>)

  /** The fields of a JSDoc record that the generator reads. */
  datatype Doc = Doc(
    undocumented: bool,
    kind: Option<Kind>,
    longname: Option<string>,
    memberof: Option<string>,
    access: Option<Access>,
    isEnum: bool,
    codeValue: Option<string>,               // meta.code.value
    typeNames: Option<seq<string>>,          // type.names
    propertyTypeNames: Option<seq<string>>,  // properties[0].type.names
    returnTypeNames: Option<seq<string>>,    // returns[0].type.names
    params: Option<seq<Param>>)

  /** The options of `config.js` that steer the generator (the output path is left out). */
  datatype Config = Config(
    visibility: VisibilityMode,
    enum: bool,
    allowUndefinedType: bool,
    printParametersName: bool)

  /** The visibility filter, the same in the enumeration and the member passes. An absent
      `access` counts as private. */
  predicate Visible(cfg: Config, access: Option<Access>) {
    !(cfg.visibility == PrivateMode && access != Some(Private) && access.Some?)
    && !(cfg.visibility == PublicMode && access != Some(Public))
  }

  /** What each visibility mode lets through. */
  lemma VisibilityModes(cfg: Config, access: Option<Access>)
    ensures cfg.visibility == PublicMode ==> (Visible(cfg, access) <==> access == Some(Public))
    ensures cfg.visibility == PrivateMode ==> (Visible(cfg, access) <==> access.None? || access == Some(Private))
    ensures cfg.visibility == AllMode ==> Visible(cfg, access)
  {
  }

  /** The records left after the undocumented ones and the packages are removed. */
  predicate Documented(d: Doc) {
    !d.undocumented && d.kind != Some(Package)
  }

  /** Records registered as diagram classes by the first pass. */
  predicate IsClassLike(d: Doc) {
    d.kind == Some(Class) || d.kind == Some(Module)
  }

  /** The kinds of record the third pass writes statements for. */
  predicate HandledKind(kind: Option<Kind>) {
    kind == Some(Member) || kind == Some(Function) || kind == Some(Event)
  }

  /** Classes and modules are not among the kinds the third pass handles. */
  lemma ClassKindsUnhandled(d: Doc)
    requires IsClassLike(d)
    ensures !HandledKind(d.kind)
  {
  }

  /** Records emitted as enumerations, and consumed, by the second pass. */
  predicate IsEmittedEnum(cfg: Config, d: Doc) {
    d.isEnum && Visible(cfg, d.access) && cfg.enum && Truthy(d.codeValue)
  }

  /** The diagram class a member belongs to: the last segment of its cleaned `memberof`. */
  function Owner(d: Doc): string
  {
    ShortName(d.memberof)
  }

  /** The owner is the part of the cleaned `memberof` after its last '.'. */
  lemma OwnerSuffix(d: Doc)
    ensures var c := CleanName(d.memberof);
      && |Owner(d)| <= |c| && c[|c| - |Owner(d)|..] == Owner(d)
      && (|Owner(d)| < |c| ==> c[|c| - |Owner(d)| - 1] == '.')
      && '.' !in Owner(d)
  {
    ShortNameSuffix(d.memberof);
  }
}
