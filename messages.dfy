/** The data the validators work on: protobuf messages as explicit values in
    place of runtime reflection, the descriptor a validator is handed, and the
    two records of validation_result.py and validation_context.py. */
module Messages {
  import opened Outcomes

  newtype byte = x: int | 0 <= x < 256

  /** A Python value held by a message field. `Null` is Python's None (the
      default of a message-typed field); enum values are `Int`s. */
  datatype Value =
    | Null
    | Bool(b: bool)
    | Int(i: int)
    | Str(s: string)
    | Bytes(bytes: seq<byte>)
    | Msg(message: Message)
    | List(items: seq<Value>)

  /** One declared field of a message, with what its descriptor says
      (`repeated` is LABEL_REPEATED, `isMessage` is TYPE_MESSAGE, `default` is
      `default_value`), whether `HasField` holds, and what `getattr` returns
      (for an unset sub-message, its empty default instance). */
  datatype Field = Field(repeated: bool, isMessage: bool, hasField: bool, default: Value, value: Value)

  /** A message: its type's name (`DESCRIPTOR.name`) and its declared fields
      (`DESCRIPTOR.fields_by_name`). */
  datatype Message = Message(typeName: string, fields: map<string, Field>)

  /** What a validator receives as `field_descriptor`: a field's descriptor,
      or, for the root path `.`, the message type's own descriptor. */
  datatype Descriptor =
    | FieldDescriptor(repeated: bool, isMessage: bool, default: Value)
    | MessageDescriptor(typeName: string)

  function DescriptorOf(f: Field): Descriptor
  {
    FieldDescriptor(f.repeated, f.isMessage, f.default)
  }

  /** validation_result.py: `invalid_reason` defaults to None. */
  datatype ValidationResult = ValidationResult(valid: bool, invalidReason: Option<string>)

  /** validation_context.py. */
  datatype ValidationContext = ValidationContext(isStreaming: bool, streamingMessageIndex: Option<nat>)

  /** Python's `len(value)`, or None where `len` raises TypeError. */
  function Len(v: Value): Option<nat>
  {
    match v
    case Str(s) => Some(|s|)
    case Bytes(b) => Some(|b|)
    case List(items) => Some(|items|)
    case _ => None
  }
}
