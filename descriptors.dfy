/** The parts of protobuf's Descriptor, FieldDescriptor and EnumDescriptor
    that the generator reads. Descriptors form a finite tree: a field of
    message type holds the referenced message itself. */
module Descriptors {

  /** FieldDescriptor.label: LABEL_OPTIONAL, LABEL_REQUIRED, LABEL_REPEATED. */
  datatype Label = Optional | Required | Repeated

  /** One enum member: `value.name` and its declared `value.number`. */
  datatype EnumValueDesc = EnumValueDesc(name: string, number: int)

  datatype EnumDesc = EnumDesc(name: string, values: seq<EnumValueDesc>)

  /** FieldDescriptor.type, with the enum and message descriptors that
      FieldDescriptor.enum_type and FieldDescriptor.message_type carry. */
  datatype Kind =
    | Double | Float | Int64 | UInt64 | Int32 | Fixed64 | Fixed32 | Bool
    | String | Group | Message(messageType: MsgDesc) | Bytes | UInt32
    | Enum(enumType: EnumDesc) | SFixed32 | SFixed64 | SInt32 | SInt64
  {
    /** The numeric value of FieldDescriptor.TYPE_* for this kind. */
    function Tag(): int {
      match this
      case Double => 1
      case Float => 2
      case Int64 => 3
      case UInt64 => 4
      case Int32 => 5
      case Fixed64 => 6
      case Fixed32 => 7
      case Bool => 8
      case String => 9
      case Group => 10
      case Message(_) => 11
      case Bytes => 12
      case UInt32 => 13
      case Enum(_) => 14
      case SFixed32 => 15
      case SFixed64 => 16
      case SInt32 => 17
      case SInt64 => 18
    }

    /** The fifteen kinds that carry a plain value. */
    predicate IsScalar() {
      !(Group? || Message? || Enum?)
    }

    /** The kinds whose Python type is `float`: the two IEEE kinds and,
        as the table has it, the four fixed-width integer kinds. */
    predicate IsFloatLike() {
      Double? || Float? || Fixed32? || Fixed64? || SFixed32? || SFixed64?
    }

    /** The variable-length integer kinds. */
    predicate IsIntLike() {
      Int32? || Int64? || UInt32? || UInt64? || SInt32? || SInt64?
    }

    predicate IsTextLike() {
      String? || Bytes?
    }
  }

  datatype FieldDesc = FieldDesc(name: string, kind: Kind, cardinality: Label)

  datatype MsgDesc = MsgDesc(name: string, fields: seq<FieldDesc>)
}
