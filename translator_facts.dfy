/** What convert_field and msg2pydantic promise: the label rules, the four
    shapes a field's type can take, the layout of an inline enum, the order
    in which field entries are produced, and deduplication of nested
    messages through the shared name set. */
module TranslatorFacts {
  import opened Results
  import opened Text
  import opened Descriptors
  import opened TypeMapping
  import opened Translator

  /** The texts an optional, a required and a repeated field of the same
      name, in a class at `level`, get from the same inline text, element
      type and factory. */
  predicate LabelVariants(optText: string, reqText: string, repText: string, level: nat, name: string,
                          extra: string, t: string, fac: string)
  {
    && optText == Block(extra, FieldStatement(level + 1, name, t, DefaultStatement(fac)))
    && reqText == Block(extra, FieldStatement(level + 1, name, t, ""))
    && repText == Block(extra, FieldStatement(level + 1, name, "List[" + t + "]", DefaultStatement("list")))
  }

  /** The label only decides the field line's type wrapper and default
      clause: the three labels succeed or fail together, emit the same inline
      text and leave the same set; a required field has no default clause,
      and a repeated one is `List[...]` with factory `list` whatever the type
      an optional field of the same kind gets. */
  lemma LabelRules(field: FieldDesc, level: nat, names: set<string>, prefix: string)
    ensures
      var opt := ConvertField(field.(cardinality := Optional), level, names, prefix);
      var req := ConvertField(field.(cardinality := Required), level, names, prefix);
      var rep := ConvertField(field.(cardinality := Repeated), level, names, prefix);
      && (opt.Ok? <==> req.Ok?)
      && (opt.Ok? <==> rep.Ok?)
      && (opt.Ok? ==>
            && req.value.names == opt.value.names
            && rep.value.names == opt.value.names
            && exists extra, t, fac ::
                 LabelVariants(opt.value.text, req.value.text, rep.value.text, level, field.name, extra, t, fac))
  {
    var res := ResolveKind(field, level + 1, names, prefix);
    assert ResolveKind(field.(cardinality := Optional), level + 1, names, prefix) == res;
    assert ResolveKind(field.(cardinality := Required), level + 1, names, prefix) == res;
    assert ResolveKind(field.(cardinality := Repeated), level + 1, names, prefix) == res;
    if res.Ok? {
      var extra, t, fac := res.value.extra, res.value.typeStatement, res.value.factory;
      assert LabelVariants(ConvertField(field.(cardinality := Optional), level, names, prefix).value.text,
                           ConvertField(field.(cardinality := Required), level, names, prefix).value.text,
                           ConvertField(field.(cardinality := Repeated), level, names, prefix).value.text,
                           level, field.name, extra, t, fac);
    }
  }

  /** An enum field always brings a fresh inline IntEnum class, whatever is
      in the set, leaves the set alone, and has factory `int`. */
  lemma EnumField(field: FieldDesc, level: nat, names: set<string>, prefix: string)
    requires field.kind.Enum?
    ensures
      var e := field.kind.enumType;
      ConvertField(field, level, names, prefix)
        == Ok(Out(LineSep + EnumClass(level + 1, e) + BlankLine
                    + LabelledStatement(level + 1, field.name, field.cardinality, e.name, "int"),
                  names))
  {
    var e := field.kind.enumType;
    JoinStartsWith(LineSep, Indent(level + 1) + "class " + e.name + "(IntEnum):", EnumMembers(level + 2, e.values, 0));
  }

  lemma {:induction false} EnumMembersAt(level: nat, values: seq<EnumValueDesc>, index: nat, k: nat)
    requires k < |values|
    ensures |EnumMembers(level, values, index)| == |values|
    ensures EnumMembers(level, values, index)[k] == Indent(level) + values[k].name + " = " + Decimal(index + k)
  {
    if k > 0 {
      EnumMembersAt(level, values[1..], index + 1, k - 1);
    } else if |values| > 1 {
      EnumMembersAt(level, values[1..], index + 1, 0);
    }
  }

  lemma EnumMemberOneLine(level: nat, name: string, n: nat)
    requires OneLine(name)
    ensures OneLine(Indent(level) + name + " = " + Decimal(n))
  {
    IndentOneLine(level);
    DecimalOneLine(n);
    assert OneLine(" = ");
  }

  lemma EnumHeaderOneLine(level: nat, name: string)
    requires OneLine(name)
    ensures OneLine(Indent(level) + "class " + name + "(IntEnum):")
  {
    IndentOneLine(level);
    assert OneLine("class ") && OneLine("(IntEnum):");
  }

  /** Read back line by line, the inline enum is its header followed by one
      line `NAME = k` per value, where k is the value's position in the
      declaration (0, 1, ...), never its declared number. */
  lemma EnumClassLines(level: nat, e: EnumDesc)
    requires OneLine(e.name)
    requires forall k :: 0 <= k < |e.values| ==> OneLine(e.values[k].name)
    ensures |Lines(EnumClass(level, e))| == |e.values| + 1
    ensures Lines(EnumClass(level, e))[0] == Indent(level) + "class " + e.name + "(IntEnum):"
    ensures forall k :: 0 <= k < |e.values| ==>
              Lines(EnumClass(level, e))[k + 1] == Indent(level + 1) + e.values[k].name + " = " + Decimal(k)
  {
    var header := Indent(level) + "class " + e.name + "(IntEnum):";
    var members := EnumMembers(level + 1, e.values, 0);
    var lines := [header] + members;
    assert |members| == |e.values| by {
      if |e.values| > 0 { EnumMembersAt(level + 1, e.values, 0, 0); }
    }
    forall k | 0 <= k < |e.values|
      ensures members[k] == Indent(level + 1) + e.values[k].name + " = " + Decimal(k)
      ensures OneLine(members[k])
    {
      EnumMembersAt(level + 1, e.values, 0, k);
      EnumMemberOneLine(level + 1, e.values[k].name, k);
    }
    EnumHeaderOneLine(level, e.name);
    assert forall i :: 0 <= i < |lines| ==> OneLine(lines[i]) by {
      forall i | 0 <= i < |lines| ensures OneLine(lines[i]) {
        if i > 0 { assert lines[i] == members[i - 1]; }
      }
    }
    LinesOfJoin(lines);
  }

  lemma {:induction false} EnumMembersIgnoreNumbers(level: nat, v1: seq<EnumValueDesc>, v2: seq<EnumValueDesc>, index: nat)
    requires |v1| == |v2|
    requires forall k :: 0 <= k < |v1| ==> v1[k].name == v2[k].name
    ensures EnumMembers(level, v1, index) == EnumMembers(level, v2, index)
    decreases |v1|
  {
    if v1 != [] {
      assert v1[0].name == v2[0].name;
      assert forall k :: 0 <= k < |v1[1..]| ==> v1[1..][k].name == v1[k + 1].name;
      EnumMembersIgnoreNumbers(level, v1[1..], v2[1..], index + 1);
    }
  }

  /** The declared numbers of the enum values play no part in the text. */
  lemma EnumIgnoresNumbers(level: nat, e1: EnumDesc, e2: EnumDesc)
    requires e1.name == e2.name && |e1.values| == |e2.values|
    requires forall k :: 0 <= k < |e1.values| ==> e1.values[k].name == e2.values[k].name
    ensures EnumClass(level, e1) == EnumClass(level, e2)
  {
    EnumMembersIgnoreNumbers(level + 1, e1.values, e2.values, 0);
  }

  /** A message type named `...Entry` becomes `Dict[key, value]` with factory
      `dict` and no inline class; the call fails unless the entry has exactly
      two fields, both scalar, and the key is looked up before the value. */
  lemma MapEntryField(field: FieldDesc, level: nat, names: set<string>, prefix: string)
    requires field.kind.Message? && EndsWith(field.kind.messageType.name, "Entry")
    ensures
      var m := field.kind.messageType;
      var r := ConvertField(field, level, names, prefix);
      && (r.Ok? <==> |m.fields| == 2 && m.fields[0].kind.IsScalar() && m.fields[1].kind.IsScalar())
      && (|m.fields| != 2 ==> r == Err(MapEntryNotPair(|m.fields|)))
      && (|m.fields| == 2 && !m.fields[0].kind.IsScalar() ==> r == Err(UnknownWireType(m.fields[0].kind.Tag())))
      && (|m.fields| == 2 && m.fields[0].kind.IsScalar() && !m.fields[1].kind.IsScalar() ==>
            r == Err(UnknownWireType(m.fields[1].kind.Tag())))
      && (r.Ok? ==>
            r.value == Out(LabelledStatement(level + 1, field.name, field.cardinality,
                             DictType(GetPythonType(m.fields[0]).value, GetPythonType(m.fields[1]).value), "dict"),
                           names))
  {
  }

  /** A protobuf map field is a repeated field whose type is the
      synthesised `...Entry` message, so the repeated rule applies on top of
      the map rule: the field becomes a list of dicts with factory `list`. */
  lemma MapFieldIsListOfDict(field: FieldDesc, level: nat, names: set<string>, prefix: string)
    requires field.kind.Message? && EndsWith(field.kind.messageType.name, "Entry")
    requires field.cardinality == Repeated
    requires ConvertField(field, level, names, prefix).Ok?
    ensures
      var m := field.kind.messageType;
      && |m.fields| == 2
      && m.fields[0].kind.IsScalar() && m.fields[1].kind.IsScalar()
      && ConvertField(field, level, names, prefix).value.text
           == FieldStatement(level + 1, field.name,
                "List[" + DictType(GetPythonType(m.fields[0]).value, GetPythonType(m.fields[1]).value) + "]",
                DefaultStatement("list"))
  {
    MapEntryField(field, level, names, prefix);
  }

  /** The `Struct` well-known type becomes `Dict[str, Any]` with factory
      `dict` and no inline class. */
  lemma StructField(field: FieldDesc, level: nat, names: set<string>, prefix: string)
    requires field.kind.Message? && field.kind.messageType.name == "Struct"
    ensures ConvertField(field, level, names, prefix)
              == Ok(Out(LabelledStatement(level + 1, field.name, field.cardinality, "Dict[str, Any]", "dict"), names))
  {
    assert !EndsWith("Struct", "Entry");
  }

  /** A message whose bare name is already in the set is referred to by name
      only: no inline class, the set unchanged, and the referenced message's
      own fields play no part in the text. */
  lemma KnownMessageField(field: FieldDesc, level: nat, names: set<string>, prefix: string)
    requires field.kind.Message? && !IsMapLike(field.kind.messageType.name)
    requires field.kind.messageType.name in names
    ensures
      var n := field.kind.messageType.name;
      ConvertField(field, level, names, prefix)
        == Ok(Out(LabelledStatement(level + 1, field.name, field.cardinality, n, n), names))
  {
  }

  /** A message whose bare name is not in the set goes through msg2pydantic
      one level deeper with the same prefix; its text, unless empty, is
      placed before the field line, and the set is the one it leaves. */
  lemma UnseenMessageField(field: FieldDesc, level: nat, names: set<string>, prefix: string)
    requires field.kind.Message? && !IsMapLike(field.kind.messageType.name)
    requires field.kind.messageType.name !in names
    ensures
      var m := field.kind.messageType;
      var inner := Msg2Pydantic(level + 1, m, names, prefix, false);
      var r := ConvertField(field, level, names, prefix);
      && (r.Ok? <==> inner.Ok?)
      && (r.Ok? ==> r.value == Out(Block(inner.value.text, LabelledStatement(level + 1, field.name, field.cardinality, m.name, m.name)),
                                   inner.value.names))
  {
  }

  /** A scalar field is typed and defaulted by its Python type; any other
      kind outside enum and message (a group) fails the lookup. */
  lemma ScalarField(field: FieldDesc, level: nat, names: set<string>, prefix: string)
    requires !field.kind.Enum? && !field.kind.Message?
    ensures
      var t := GetPythonType(field);
      && (field.kind.IsScalar() ==>
            ConvertField(field, level, names, prefix)
              == Ok(Out(LabelledStatement(level + 1, field.name, field.cardinality, t.value, t.value), names)))
      && (field.kind.Group? ==> ConvertField(field, level, names, prefix) == Err(UnknownWireType(10)))
  {
  }

  /** After a field of an ordinary message type, the set holds the
      message's bare name or its prefixed name. */
  lemma MessageNameRecorded(field: FieldDesc, level: nat, names: set<string>, prefix: string)
    requires field.kind.Message? && !IsMapLike(field.kind.messageType.name)
    requires ConvertField(field, level, names, prefix).Ok?
    ensures
      var n := field.kind.messageType.name;
      var after := ConvertField(field, level, names, prefix).value.names;
      n in after || prefix + n in after
  {
    if field.kind.messageType.name !in names {
      UnseenMessageField(field, level, names, prefix);
    }
  }

  /** Once the bare or the prefixed name of a message is in the set, a field
      of that message gets its field line only, and the set is unchanged. */
  lemma RecordedMessageField(field: FieldDesc, level: nat, names: set<string>, prefix: string)
    requires field.kind.Message? && !IsMapLike(field.kind.messageType.name)
    requires field.kind.messageType.name in names || prefix + field.kind.messageType.name in names
    ensures
      var n := field.kind.messageType.name;
      ConvertField(field, level, names, prefix)
        == Ok(Out(LabelledStatement(level + 1, field.name, field.cardinality, n, n), names))
  {
    if field.kind.messageType.name !in names {
      UnseenMessageField(field, level, names, prefix);
    }
  }

  /** The comprehension over a message's fields runs left to right: the
      fields `a + b` give the lines of `a` followed by those of `b`, and `b`
      starts from the set `a` left behind. */
  lemma {:induction false} ConvertFieldsAppend(a: seq<FieldDesc>, b: seq<FieldDesc>, level: nat, names: set<string>, prefix: string)
    ensures
      var ra := ConvertFields(a, level, names, prefix);
      ConvertFields(a + b, level, names, prefix)
        == if ra.Err? then Err(ra.error)
           else match ConvertFields(b, level, ra.value.names, prefix)
                case Err(e) => Err(e)
                case Ok(rb) => Ok(Entries(ra.value.lines + rb.lines, rb.names))
    decreases |a|
  {
    if a == [] {
      assert a + b == b;
      var rb := ConvertFields(b, level, names, prefix);
      if rb.Ok? {
        assert [] + rb.value.lines == rb.value.lines;
      }
    } else {
      assert (a + b)[0] == a[0];
      assert (a + b)[1..] == a[1..] + b;
      var first := ConvertField(a[0], level, names, prefix);
      if first.Ok? {
        var n1 := first.value.names;
        ConvertFieldsAppend(a[1..], b, level, n1, prefix);
        var ra' := ConvertFields(a[1..], level, n1, prefix);
        if ra'.Ok? {
          var rb := ConvertFields(b, level, ra'.value.names, prefix);
          if rb.Ok? {
            assert ([first.value.text] + ra'.value.lines) + rb.value.lines
                == [first.value.text] + (ra'.value.lines + rb.value.lines);
          }
        }
      }
    }
  }

  /** A class is its header line followed by one entry per field, joined by
      newlines; the fields are converted with the prefixed name plus "-" as
      their prefix, starting from the set with the prefixed name added. */
  lemma MessageLayout(level: nat, msg: MsgDesc, names: set<string>, prefix: string, skipNameCheck: bool)
    requires !(prefix + msg.name in names && !skipNameCheck)
    requires Msg2Pydantic(level, msg, names, prefix, skipNameCheck).Ok?
    ensures
      var q := prefix + msg.name;
      var entries := ConvertFields(msg.fields, level, names + {q}, q + "-");
      && entries.Ok?
      && |entries.value.lines| == |msg.fields|
      && Msg2Pydantic(level, msg, names, prefix, skipNameCheck)
           == Ok(Out(Join(LineSep, [ClassHeader(level, msg.name)] + entries.value.lines), entries.value.names))
  {
  }

  /** The i-th entry of a message's field list is the i-th field converted
      with the set the fields before it left behind. */
  lemma FieldEntryAt(fields: seq<FieldDesc>, level: nat, names: set<string>, prefix: string, i: nat)
    requires i < |fields|
    requires ConvertFields(fields, level, names, prefix).Ok?
    ensures
      var before := ConvertFields(fields[..i], level, names, prefix);
      && before.Ok?
      && ConvertField(fields[i], level, before.value.names, prefix).Ok?
      && ConvertFields(fields, level, names, prefix).value.lines[i]
           == ConvertField(fields[i], level, before.value.names, prefix).value.text
  {
    assert fields == fields[..i] + fields[i..];
    ConvertFieldsAppend(fields[..i], fields[i..], level, names, prefix);
    var before := ConvertFields(fields[..i], level, names, prefix);
    assert fields[i..][0] == fields[i];
  }

  /** The set after the fields `fields[..i+1]` is the set field i leaves. */
  lemma NamesAfterField(fields: seq<FieldDesc>, level: nat, names: set<string>, prefix: string, i: nat)
    requires i < |fields|
    requires ConvertFields(fields, level, names, prefix).Ok?
    ensures
      var before := ConvertFields(fields[..i], level, names, prefix);
      var upTo := ConvertFields(fields[..i + 1], level, names, prefix);
      && before.Ok?
      && ConvertField(fields[i], level, before.value.names, prefix).Ok?
      && upTo.Ok?
      && upTo.value.names == ConvertField(fields[i], level, before.value.names, prefix).value.names
  {
    FieldEntryAt(fields, level, names, prefix, i);
    NamesGrowAlongFields(fields, level, names, prefix, i, i + 1);
    var before := ConvertFields(fields[..i], level, names, prefix).value.names;
    assert fields[..i + 1] == fields[..i] + [fields[i]];
    ConvertFieldsAppend(fields[..i], [fields[i]], level, names, prefix);
    ConvertOneField(fields[i], level, before, prefix);
  }

  /** A one-element field list is that field's conversion. */
  lemma ConvertOneField(field: FieldDesc, level: nat, names: set<string>, prefix: string)
    ensures
      var one := ConvertField(field, level, names, prefix);
      ConvertFields([field], level, names, prefix)
        == match one
           case Err(e) => Err(e)
           case Ok(o) => Ok(Entries([o.text], o.names))
  {
    var one := ConvertField(field, level, names, prefix);
    assert [field][0] == field && [field][1..] == [];
    if one.Ok? {
      assert ConvertFields([], level, one.value.names, prefix) == Ok(Entries([], one.value.names));
      assert [one.value.text] + [] == [one.value.text];
    }
  }

  /** The set only grows along the field list: the set after `fields[..k]`
      lies within the set after `fields[..j]` for k <= j. */
  lemma NamesGrowAlongFields(fields: seq<FieldDesc>, level: nat, names: set<string>, prefix: string, k: nat, j: nat)
    requires k <= j <= |fields|
    requires ConvertFields(fields, level, names, prefix).Ok?
    ensures
      var atK := ConvertFields(fields[..k], level, names, prefix);
      var atJ := ConvertFields(fields[..j], level, names, prefix);
      && atK.Ok? && atJ.Ok?
      && atK.value.names <= atJ.value.names
  {
    assert fields == fields[..j] + fields[j..];
    ConvertFieldsAppend(fields[..j], fields[j..], level, names, prefix);
    assert fields[..j] == fields[..k] + fields[k..j];
    ConvertFieldsAppend(fields[..k], fields[k..j], level, names, prefix);
  }

  /** A later field of a nested message already met earlier in the same
      message gets its field line only, whatever fields lie between. Only the
      bare name matters: a different message with the same name gets no class
      of its own, and its field refers to the earlier one's. */
  lemma LaterSiblingLineOnly(fields: seq<FieldDesc>, level: nat, names: set<string>, prefix: string, i: nat, j: nat)
    requires i < j < |fields|
    requires fields[i].kind.Message? && fields[j].kind.Message?
    requires fields[j].kind.messageType.name == fields[i].kind.messageType.name
    requires !IsMapLike(fields[i].kind.messageType.name)
    requires ConvertFields(fields, level, names, prefix).Ok?
    ensures
      var n := fields[i].kind.messageType.name;
      ConvertFields(fields, level, names, prefix).value.lines[j]
        == LabelledStatement(level + 1, fields[j].name, fields[j].cardinality, n, n)
  {
    NamesAfterField(fields, level, names, prefix, i);
    var before := ConvertFields(fields[..i], level, names, prefix).value.names;
    MessageNameRecorded(fields[i], level, before, prefix);
    NamesGrowAlongFields(fields, level, names, prefix, i + 1, j);
    FieldEntryAt(fields, level, names, prefix, j);
    var beforeJ := ConvertFields(fields[..j], level, names, prefix).value.names;
    RecordedMessageField(fields[j], level, beforeJ, prefix);
  }

  /** The first field of a nested message whose bare and prefixed names are
      both new carries the message's class inline, ahead of its field line. */
  lemma FirstSiblingCarriesClass(fields: seq<FieldDesc>, level: nat, names: set<string>, prefix: string, i: nat)
    requires i < |fields|
    requires fields[i].kind.Message? && !IsMapLike(fields[i].kind.messageType.name)
    requires ConvertFields(fields, level, names, prefix).Ok?
    ensures
      var m := fields[i].kind.messageType;
      var before := ConvertFields(fields[..i], level, names, prefix);
      && before.Ok?
      && (m.name !in before.value.names && prefix + m.name !in before.value.names ==>
            var inner := Msg2Pydantic(level + 1, m, before.value.names, prefix, false);
            && inner.Ok?
            && StartsWith(inner.value.text, ClassHeader(level + 1, m.name))
            && ConvertFields(fields, level, names, prefix).value.lines[i]
                 == LineSep + inner.value.text + BlankLine
                    + LabelledStatement(level + 1, fields[i].name, fields[i].cardinality, m.name, m.name))
  {
    var m := fields[i].kind.messageType;
    FieldEntryAt(fields, level, names, prefix, i);
    var before := ConvertFields(fields[..i], level, names, prefix).value.names;
    if m.name !in before && prefix + m.name !in before {
      UnseenMessageField(fields[i], level, before, prefix);
      var inner := Msg2Pydantic(level + 1, m, before, prefix, false);
      assert inner.value.text != "" by {
        assert |ClassHeader(level + 1, m.name)| > 0;
      }
    }
  }

  /** Two fields i < j of one message that refer to ordinary nested messages
      with the same bare name share one definition: field j, whatever lies between them, gets
      its field line only, and field i carries the class inline when neither
      the bare nor the prefixed name was in the set before it. */
  lemma SiblingsShareOneDefinition(fields: seq<FieldDesc>, level: nat, names: set<string>, prefix: string, i: nat, j: nat)
    requires i < j < |fields|
    requires fields[i].kind.Message? && fields[j].kind.Message?
    requires fields[j].kind.messageType.name == fields[i].kind.messageType.name
    requires !IsMapLike(fields[i].kind.messageType.name)
    requires ConvertFields(fields, level, names, prefix).Ok?
    ensures
      var m := fields[i].kind.messageType;
      var lines := ConvertFields(fields, level, names, prefix).value.lines;
      var before := ConvertFields(fields[..i], level, names, prefix);
      && lines[j] == LabelledStatement(level + 1, fields[j].name, fields[j].cardinality, m.name, m.name)
      && before.Ok?
      && (m.name !in before.value.names && prefix + m.name !in before.value.names ==>
            var inner := Msg2Pydantic(level + 1, m, before.value.names, prefix, false);
            && inner.Ok?
            && StartsWith(inner.value.text, ClassHeader(level + 1, m.name))
            && lines[i] == LineSep + inner.value.text + BlankLine
                             + LabelledStatement(level + 1, fields[i].name, fields[i].cardinality, m.name, m.name))
  {
    LaterSiblingLineOnly(fields, level, names, prefix, i, j);
    FirstSiblingCarriesClass(fields, level, names, prefix, i);
  }
}
