/** convert_field and msg2pydantic: the translation of one message descriptor
    into the text of a pydantic class. The run-wide set `class_names` is
    threaded through every call: each call receives the set as it stands and
    returns it together with its text. */
module Translator {
  import opened Results
  import opened Text
  import opened Descriptors
  import opened TypeMapping

  /** `linesep * 2`: the break between inline text and the field line. */
  const BlankLine: string := LineSep + LineSep

  /** What a call returns: the generated text and the set afterwards. */
  datatype Out = Out(text: string, names: set<string>)

  /** The field lines of a message, one per field, and the set afterwards. */
  datatype Entries = Entries(lines: seq<string>, names: set<string>)

  /** What convert_field knows once it has dispatched on the field's type:
      `type_statement`, `factory`, `extra` ("" where biz.py leaves it
      None) and the set. */
  datatype Resolved = Resolved(typeStatement: string, factory: string, extra: string, names: set<string>)

  /** The keys of `after` that are not in `before` all begin with `prefix`. */
  predicate GrowsUnder(before: set<string>, after: set<string>, prefix: string) {
    before <= after && forall n :: n in after && n !in before ==> StartsWith(n, prefix)
  }

  /** A message type that is rendered as a Dict rather than as a class. */
  predicate IsMapLike(name: string) {
    EndsWith(name, "Entry") || name == "Struct"
  }

  /** The member lines of an inline enum, one per value, numbered by their
      position in the declaration starting at `index`. */
  function EnumMembers(level: nat, values: seq<EnumValueDesc>, index: nat): seq<string>
    decreases |values|
  {
    if values == [] then []
    else [Indent(level) + values[0].name + " = " + Decimal(index)] + EnumMembers(level, values[1..], index + 1)
  }

  /** The inline `IntEnum` class emitted for an enum field. */
  function EnumClass(level: nat, e: EnumDesc): string {
    Join(LineSep, [Indent(level) + "class " + e.name + "(IntEnum):"] + EnumMembers(level + 1, e.values, 0))
  }

  /** The type of a map field: `Dict[<key type>, <value type>]`. */
  function DictType(key: string, value: string): string {
    "Dict[" + key + ", " + value + "]"
  }

  function ClassHeader(level: nat, name: string): string {
    Indent(level) + "class " + name + "(BaseModel):"
  }

  function DefaultStatement(factory: string): string {
    " = Field(default_factory=" + factory + ")"
  }

  function FieldStatement(level: nat, name: string, typeStatement: string, defaultStatement: string): string {
    Indent(level) + name + ": " + typeStatement + defaultStatement
  }

  /** The field line once the repeated and required rules are applied. */
  function LabelledStatement(level: nat, name: string, cardinality: Label, typeStatement: string, factory: string): string {
    var t := if cardinality == Repeated then "List[" + typeStatement + "]" else typeStatement;
    var fac := if cardinality == Repeated then "list" else factory;
    FieldStatement(level, name, t, if cardinality == Required then "" else DefaultStatement(fac))
  }

  /** A field line, preceded by the inline text it depends on, if any. */
  function Block(extra: string, fieldStatement: string): string {
    if extra == "" then fieldStatement else LineSep + extra + BlankLine + fieldStatement
  }

  /** The dispatch of convert_field on the field's type. `level` is already
      the field's own level (the `level += 1` of convert_field). */
  function ResolveKind(field: FieldDesc, level: nat, names: set<string>, prefix: string): (r: Result<Resolved>)
    ensures r.Ok? ==> GrowsUnder(names, r.value.names, prefix)
    decreases field, 0
  {
    match field.kind
    case Enum(e) => Ok(Resolved(e.name, "int", EnumClass(level, e), names))
    case Message(m) =>
      if EndsWith(m.name, "Entry") then
        if |m.fields| != 2 then Err(MapEntryNotPair(|m.fields|))
        else
          var key :- GetPythonType(m.fields[0]);
          var value :- GetPythonType(m.fields[1]);
          Ok(Resolved(DictType(key, value), "dict", "", names))
      else if m.name == "Struct" then
        Ok(Resolved("Dict[str, Any]", "dict", "", names))
      else if m.name !in names then
        var inner :- Msg2Pydantic(level, m, names, prefix, false);
        Ok(Resolved(m.name, m.name, inner.text, inner.names))
      else
        Ok(Resolved(m.name, m.name, "", names))
    case _ =>
      match GetPythonType(field)
      case Ok(t) => Ok(Resolved(t, t, "", names))
      case Err(e) => Err(e)
  }

  /** convert_field: one field entry of a class at `level`. */
  function ConvertField(field: FieldDesc, level: nat, names: set<string>, prefix: string): (r: Result<Out>)
    ensures r.Ok? ==> GrowsUnder(names, r.value.names, prefix)
    decreases field, 1
  {
    var res :- ResolveKind(field, level + 1, names, prefix);
    Ok(Out(Block(res.extra, LabelledStatement(level + 1, field.name, field.cardinality, res.typeStatement, res.factory)), res.names))
  }

  /** The list comprehension over `msg.fields`, left to right, each field
      seeing the set the fields before it left behind. */
  function ConvertFields(fields: seq<FieldDesc>, level: nat, names: set<string>, prefix: string): (r: Result<Entries>)
    ensures r.Ok? ==> |r.value.lines| == |fields|
    ensures r.Ok? ==> GrowsUnder(names, r.value.names, prefix)
    decreases fields
  {
    if fields == [] then Ok(Entries([], names))
    else
      var first :- ConvertField(fields[0], level, names, prefix);
      var rest :- ConvertFields(fields[1..], level, first.names, prefix);
      Ok(Entries([first.text] + rest.lines, rest.names))
  }

  /** msg2pydantic: the class for `msg` at `level`, or "" when its prefixed
      name is already in the set and the check is not skipped. */
  function Msg2Pydantic(level: nat, msg: MsgDesc, names: set<string>, prefix: string, skipNameCheck: bool): (r: Result<Out>)
    ensures prefix + msg.name in names && !skipNameCheck ==> r == Ok(Out("", names))
    ensures r.Ok? ==> GrowsUnder(names, r.value.names, prefix)
    ensures r.Ok? && !(prefix + msg.name in names && !skipNameCheck) ==>
              prefix + msg.name in r.value.names && StartsWith(r.value.text, ClassHeader(level, msg.name))
    decreases msg
  {
    var qualified := prefix + msg.name;
    if qualified in names && !skipNameCheck then Ok(Out("", names))
    else
      var entries :- ConvertFields(msg.fields, level, names + {qualified}, qualified + "-");
      JoinStartsWith(LineSep, ClassHeader(level, msg.name), entries.lines);
      Ok(Out(Join(LineSep, [ClassHeader(level, msg.name)] + entries.lines), entries.names))
  }

  lemma ConfigLinesOneLine(level: nat)
    ensures OneLine(Indent(level + 1) + "class Config:")
    ensures OneLine(Indent(level + 2) + "arbitrary_types_allowed = True")
  {
    IndentOneLine(level + 1);
    IndentOneLine(level + 2);
  }

  /** get_config: the text of a nested `Config` class. */
  function GetConfig(level: nat): (r: string)
    ensures Lines(r) == ["", Indent(level + 1) + "class Config:", Indent(level + 2) + "arbitrary_types_allowed = True"]
  {
    var header := Indent(level + 1) + "class Config:";
    var attribute := Indent(level + 2) + "arbitrary_types_allowed = True";
    ConfigLinesOneLine(level);
    LinesOfThree("", header, attribute);
    assert "" + LineSep + header == LineSep + header;
    LineSep + header + LineSep + attribute
  }
}
