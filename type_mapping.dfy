/** TYPE_MAPPING and get_python_type. */
module TypeMapping {
  import opened Results
  import opened Descriptors

  /** TYPE_MAPPING, keyed by the FieldDescriptor.TYPE_* numbers, giving the
      `__name__` of the Python type each maps to. */
  const TypeTable: map<int, string> := map[
    1 := "float", 2 := "float", 3 := "int", 4 := "int", 5 := "int",
    6 := "float", 7 := "float", 8 := "bool", 9 := "str", 12 := "str",
    13 := "int", 15 := "float", 16 := "float", 17 := "int", 18 := "int"]

  /** `TYPE_MAPPING[field.type].__name__`; a tag without an entry raises. */
  function GetPythonType(field: FieldDesc): (r: Result<string>)
    ensures r.Ok? <==> field.kind.IsScalar()
    ensures r.Err? ==> r.error == UnknownWireType(field.kind.Tag())
    ensures r == Ok("float") <==> field.kind.IsFloatLike()
    ensures r == Ok("int") <==> field.kind.IsIntLike()
    ensures r == Ok("bool") <==> field.kind.Bool?
    ensures r == Ok("str") <==> field.kind.IsTextLike()
  {
    var tag := field.kind.Tag();
    if tag in TypeTable then Ok(TypeTable[tag]) else Err(UnknownWireType(tag))
  }
}
