# protobuf2pydantic, modelled in Dafny

protobuf2pydantic turns the message descriptors of a compiled protobuf module into
the source text of pydantic `BaseModel` classes. This project models its generator,
`protobuf2pydantic/biz.py`:

- `TYPE_MAPPING` and `get_python_type`: the lookup from a scalar wire type to a Python type name.
- `convert_field`: renders one field line. It may first place an inline `IntEnum` class
  or an inline nested `BaseModel` class. It recognises `...Entry` map messages and the
  `Struct` well-known type, then applies the repeated and required label rules.
- `msg2pydantic`: renders a class header followed by its field entries. It is mutually
  recursive with `convert_field`.
- The non-reflective part of `pb2_to_pydantic`: seed the name set with the top-level
  names, emit every top-level class, drop empty results, and put the import header first.

`class_names` is one set shared by the whole run. The Python code mutates it in place.
In the model every call takes the set as it stands and returns its text together with
the set it leaves behind (`Translator.Out`, `Translator.Entries`). Failures are explicit
`Results.Result` values:
- `UnknownWireType(tag)` is the KeyError that `TYPE_MAPPING[field.type]` raises;
- `MapEntryNotPair(count)` is the ValueError that `key, value = fields` raises.

Modules:
- `Text`: indentation, `str.join`, `str.endswith`, `str(int)` and a line reader.
- `Descriptors`: the descriptor datatypes; `Kind.Tag` gives protobuf's `TYPE_*` numbers.
- `TypeMapping`: the table and its lookup.
- `Translator`: `convert_field`, the per-field comprehension, `msg2pydantic` and `get_config`.
- `TranslatorFacts`: lemmas about the translator.
- `Driver`: `pb2_to_pydantic` as three loops (seed, emit, filter), each proved against a
  function, and lemmas about a whole run.

A reader who knows what the tool is for might expect five things that biz.py does not do.
The model follows biz.py each time:
- One might expect a message named `...Entry` that is not a two-field map entry to be
  treated as an ordinary nested message. Instead it must have exactly two fields, both
  scalar, or the run fails (`TranslatorFacts.MapEntryField`).
- One might expect each nested message to be defined once per output. `convert_field` looks
  up the message's bare name (biz.py:81), but `msg2pydantic` records the prefixed name
  (biz.py:108-111). Every name a run adds to the set contains `-`
  (`Driver.BareNestedNamesNeverRecorded`), and protobuf identifiers contain no `-`. So the
  bare lookup for a nested message succeeds only when its bare name is also a top-level
  name. In that case no parent inlines it (`TranslatorFacts.KnownMessageField`).
  Otherwise the lookup fails and `msg2pydantic` runs under the parent's own prefix
  (`TranslatorFacts.UnseenMessageField`). So, by inference from these lemmas, a nested
  message used by two different parents gets one inline copy inside each. Within one
  parent, every later field of the same message shares the first field's definition,
  whatever fields lie between (`TranslatorFacts.SiblingsShareOneDefinition`). Only the bare
  name is compared. A second, different nested message with the same bare name in one parent
  gets no class of its own, and its field refers to the first one's class.
- One might expect a map field to render as a plain `Dict`. Protobuf gives a map field the
  repeated label, so it renders as `List[Dict[k, v]] = Field(default_factory=list)`
  (`TranslatorFacts.MapFieldIsListOfDict`).
- One might expect the fixed-width integer kinds (`fixed32`, `fixed64`, `sfixed32`,
  `sfixed64`) to become `int`. TYPE_MAPPING gives them `float` (biz.py:18-19, 24-25), and so
  does the model (`TypeMapping.GetPythonType`).
- One might expect an enum member to carry its declared number. Instead it is written with
  its position in the declaration (`TranslatorFacts.EnumClassLines`, `TranslatorFacts.EnumIgnoresNumbers`).

## Model

| member | source | states |
|---|---|---|
| `TypeMapping.GetPythonType` | protobuf2pydantic/biz.py:12-40 | The lookup succeeds exactly for the fifteen scalar kinds. Enum, message and group fail with their tag. The result is `float` exactly for double, float and the four fixed kinds; `int` exactly for the int/uint/sint kinds; `bool` for bool; `str` exactly for string and bytes. |
| `Text.Indent` | protobuf2pydantic/biz.py:9 | Indentation at level L is 4·L spaces. |
| `Text.LinesOfJoin` | protobuf2pydantic/biz.py:69 | One or more lines joined with the line separator read back as the same lines, provided none of them holds a newline. Zero lines join to `""`, which reads back as one empty line. |
| `Text.DecimalRoundTrip` | protobuf2pydantic/biz.py:66 | The decimal text written for an enum index reads back as that index. |
| `Translator.ResolveKind` | protobuf2pydantic/biz.py:57-87 | The type dispatch only adds names to the set, and every added name begins with the current prefix. |
| `Translator.ConvertField` | protobuf2pydantic/biz.py:43-100 | A field conversion only adds names to the set, and every added name begins with the current prefix. |
| `Translator.ConvertFields` | protobuf2pydantic/biz.py:114-117 | There is one entry per field, the set only grows, and every added name begins with the prefix. |
| `Translator.Msg2Pydantic` | protobuf2pydantic/biz.py:103-118 | If `prefix+name` is in the set and the check is not skipped, the result is `""` and the set is unchanged. Otherwise the text begins with `TAB*L + "class N(BaseModel):"` and the new set contains `prefix+name`. In every case the set only grows, under the prefix. |
| `Translator.GetConfig` | protobuf2pydantic/biz.py:121-125 | Read as lines: an empty line, then `class Config:` at level L+1, then `arbitrary_types_allowed = True` at level L+2. |
| `TranslatorFacts.LabelRules` | protobuf2pydantic/biz.py:89-97 | The optional, required and repeated variants of one field succeed together, emit the same inline text and leave the same set. The required line has no default clause. The optional line ends in ` = Field(default_factory=<factory>)`. The repeated line has type `List[<same element type>]` and factory `list`, whatever the element kind. |
| `TranslatorFacts.EnumField` | protobuf2pydantic/biz.py:61-70 | An enum field always emits a fresh inline `IntEnum` class, whatever the set holds. The set is unchanged. The element type is the enum's name and the factory is `int`. |
| `TranslatorFacts.EnumClassLines` | protobuf2pydantic/biz.py:64-69 | Read as lines, the inline enum is its header at level L followed by exactly one line `NAME = k` per value, in declaration order, at level L+1. k is the value's declaration index. |
| `TranslatorFacts.EnumIgnoresNumbers` | protobuf2pydantic/biz.py:66 | Two enums that differ only in their declared numbers render the same text. |
| `TranslatorFacts.MapEntryField` | protobuf2pydantic/biz.py:73-76 | An `...Entry` message fails unless it has exactly two scalar fields. A field count other than two gives the unpacking error. A non-scalar key gives the lookup error for the key; a scalar key with a non-scalar value gives it for the value. On success the type is `Dict[<key>, <value>]`, the factory is `dict`, there is no inline class and the set is unchanged. |
| `TranslatorFacts.MapFieldIsListOfDict` | protobuf2pydantic/biz.py:73-91 | A repeated `...Entry` field renders as `List[Dict[<key>, <value>]] = Field(default_factory=list)`. |
| `TranslatorFacts.StructField` | protobuf2pydantic/biz.py:77-79 | A `Struct` field has type `Dict[str, Any]` and factory `dict`, with no inline class and the set unchanged. |
| `TranslatorFacts.KnownMessageField` | protobuf2pydantic/biz.py:80-84 | A message whose bare name is in the set is referenced by name only: no inline class, factory = the name, set unchanged. The referenced message's fields play no part. |
| `TranslatorFacts.UnseenMessageField` | protobuf2pydantic/biz.py:80-100 | A message whose bare name is not in the set goes through `msg2pydantic` at level L+1 with the same prefix. The field succeeds exactly when that call does. Its text is placed as `"\n" + text + "\n\n"` before the field line unless it is empty, and the field leaves the set that call left. |
| `TranslatorFacts.ScalarField` | protobuf2pydantic/biz.py:85-87 | A scalar field's type and factory are both its Python type name, and the set is unchanged. A group field fails with tag 10. |
| `TranslatorFacts.SiblingsShareOneDefinition` | protobuf2pydantic/biz.py:81-117 | In one message's field list, take fields i < j whose ordinary nested messages have the same bare name, even if they are different messages. Field j gets only its field line, whatever fields lie between. If neither the bare nor the prefixed name was in the set before field i, field i carries the class inline, beginning with its header, ahead of its field line. |
| `TranslatorFacts.MessageNameRecorded` | protobuf2pydantic/biz.py:81-83 | After a field of an ordinary message type, the set holds the message's bare name or its prefixed name. |
| `TranslatorFacts.RecordedMessageField` | protobuf2pydantic/biz.py:81-84 | Once the bare or the prefixed name of a message is in the set, a field of that message gets only its field line, and the set is unchanged. |
| `TranslatorFacts.NamesGrowAlongFields` | protobuf2pydantic/biz.py:114-117 | Along a message's field list the set only grows: the set after the first k fields lies within the set after the first j, for k <= j. |
| `TranslatorFacts.LaterSiblingLineOnly` | protobuf2pydantic/biz.py:81-117 | A later field whose nested message has the same bare name as one already met in the same field list gets only its field line, even when the two messages differ. |
| `TranslatorFacts.FirstSiblingCarriesClass` | protobuf2pydantic/biz.py:81-100 | If neither name of a nested message was in the set before field i, field i carries that message's class inline ahead of its field line. |
| `TranslatorFacts.ConvertFieldsAppend` | protobuf2pydantic/biz.py:114-117 | Converting fields `a + b` gives the entries of `a` followed by those of `b`, and `b` starts from the set `a` left. An error in `a` stops the whole conversion. |
| `TranslatorFacts.FieldEntryAt` | protobuf2pydantic/biz.py:114-117 | Entry i equals field i converted with the set that fields 0..i-1 left behind. |
| `TranslatorFacts.MessageLayout` | protobuf2pydantic/biz.py:108-118 | An emitted class is its header followed by its field entries, in declaration order, joined by newlines. The entries are converted under the prefix `prefix+name+"-"`, starting from the set with `prefix+name` added. |
| `Driver.TopLevelNames` | protobuf2pydantic/biz.py:140 | The seed holds exactly the names of the top-level descriptors. |
| `Driver.EmitAll` | protobuf2pydantic/biz.py:142-145 | There is one class per top-level descriptor. Class i begins with `class <name_i>(BaseModel):`. The set only grows. |
| `Driver.NonEmpty` | protobuf2pydantic/biz.py:146 | The filter keeps only non-empty strings from the input. Each non-empty string is kept as often as it occurs. A single element is kept exactly when it is non-empty. Everything is kept when nothing is empty. |
| `Driver.NonEmptyAppend` | protobuf2pydantic/biz.py:146 | Filtering `a + b` gives the filtered `a` followed by the filtered `b`. Together with the single-element case, this makes the filter keep order. |
| `Driver.Generate` | protobuf2pydantic/biz.py:140-155 | The run fails exactly when an emission fails. On success the output begins with the header and is the header followed by every top-level class joined by two blank lines: the filter never drops a top-level class. |
| `Driver.TopLevelAddsQualifiedNames` | protobuf2pydantic/biz.py:108-115 | A top-level call, whose name is already seeded, adds only names that begin with `<name>-`. |
| `Driver.BareNestedNamesNeverRecorded` | protobuf2pydantic/biz.py:81-115 | Every name a run adds to the seeded set contains `-`. So the bare-name lookup for a nested message never succeeds unless that name is also a top-level name. |
| `Driver.SeedNames` | protobuf2pydantic/biz.py:133-140 | Starting from an empty set and adding each top-level name gives the seed. |
| `Driver.EmitModels` | protobuf2pydantic/biz.py:142-145 | The emission loop returns exactly the classes `EmitAll` describes, or the error it describes. |
| `Driver.DropEmpty` | protobuf2pydantic/biz.py:146 | The filtering loop keeps exactly `NonEmpty` of its input. |
| `Driver.Pb2ToPydantic` | protobuf2pydantic/biz.py:131-155 | Seeding, emission, filtering and joining give exactly `Generate` of the descriptors, error included. |

## Left out

- Module reflection (biz.py:135-138: `dir`, `getattr`, `isinstance`) is left out. The top-level descriptors are an input list, in the order the module would list them.
- protobuf's `Descriptor`, `FieldDescriptor` and `EnumDescriptor` are replaced by datatypes. They hold only the name, type, label, fields, enum values and referenced message that the generator reads.
- `os.linesep` is fixed to `"\n"`.
- Descriptors form a finite tree, and a field of message type holds the referenced message. In protobuf the reference can be cyclic. A top-level message may reach, through ordinary message fields, a cycle among nested messages (a message that refers to itself, or two that refer to each other). If no message on the cycle is named `Struct` or `...Entry`, and none shares a bare name with a top-level message, the Python code recurses until CPython's recursion limit raises `RecursionError`. The bare names are never recorded, and the prefix grows at every level. The model cannot express that case.
- A reference back to an enclosing message that is already in the set can be written as a message holding only that name. `TranslatorFacts.KnownMessageField` shows that only the name is read in that case.
- The set's contents after a failure are not modelled. A failure aborts the whole run, and no text is produced.
- Python's `None` for "no inline text" is modelled as the empty string. Both are falsy at biz.py:98, so the behaviour is the same.
- Unused imports (`defaultdict`, `skip`) are left out. There is no floating-point arithmetic, only the type name `float`.
