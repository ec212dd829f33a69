/** src/grpc_argument_validator/streaming_argument_validators.py: the leaf
    checks used on streamed requests. They decide exactly as the non-streaming
    ones do and differ only in the reason text, which names the position of
    the request in the stream. */
module StreamingArgumentValidators {
  import opened Outcomes
  import opened Messages
  import opened Strings
  import ArgumentValidators

  /** `HasField(field)` is the presence check the `has` bucket is rewritten
      into; the other constructors mirror `ArgumentValidators.Validator`. */
  datatype StreamingValidator =
    | StreamingUUIDBytes
    | StreamingNonEmpty
    | StreamingNonDefault
    | StreamingRegexp(pattern: string)
    | HasField(field: string)
    | StreamingCustom(id: nat)

  /** `re.match`, the `check` methods of user-defined streaming validators,
      and the reason text of the presence check, whose class is not part of
      this model. */
  datatype StreamingEnvironment = StreamingEnvironment(
    matches: (string, string) -> bool,
    custom: (nat, nat, string, Value, Descriptor) -> ValidationResult,
    hasFieldReason: (nat, string, string) -> string)

  /** The text every built-in streaming reason starts with. */
  function RequestPrefix(index: nat): string
  {
    "in message request " + NatToString(index) + " "
  }

  /** The streaming counterpart of a built-in validator. */
  function Counterpart(v: ArgumentValidators.Validator): StreamingValidator
    requires !v.Custom?
  {
    match v
    case UUIDBytes => StreamingUUIDBytes
    case NonEmpty => StreamingNonEmpty
    case NonDefault => StreamingNonDefault
    case Regexp(pattern) => StreamingRegexp(pattern)
  }

  /** `StreamingUUIDBytesValidator.check` (streaming_argument_validators.py:38-45). */
  function CheckUUIDBytes(index: nat, name: string, value: Value): (r: Result<ValidationResult>)
    ensures r.Raise? <==> Len(value) == Some(16) && !value.Bytes?
    ensures r.Ok? ==> (r.value.valid <==> ArgumentValidators.IsUUIDBytes(value))
    ensures r.Ok? && !r.value.valid ==>
              r.value.invalidReason == Some(RequestPrefix(index) + ArgumentValidators.Reason(ArgumentValidators.UUIDBytes, name))
  {
    ConcatAssoc(RequestPrefix(index), name, " must be a valid UUID");
    if Len(value) != Some(16) then
      Ok(ArgumentValidators.Invalid(RequestPrefix(index) + name + " must be a valid UUID"))
    else if value.Bytes? then Ok(ArgumentValidators.Valid)
    else Raise(AssertionError("bytes must be a byte string"))
  }

  /** `StreamingNonDefaultValidator.check` (streaming_argument_validators.py:51-56). */
  function CheckNonDefault(index: nat, name: string, value: Value, descriptor: Descriptor): (r: Result<ValidationResult>)
    ensures r.Ok? <==> descriptor.FieldDescriptor?
    ensures r.Ok? ==> (r.value.valid <==> value != descriptor.default)
    ensures r.Ok? && !r.value.valid ==>
              r.value.invalidReason == Some(RequestPrefix(index) + ArgumentValidators.Reason(ArgumentValidators.NonDefault, name))
  {
    ConcatAssoc(RequestPrefix(index), name, " must have non-default value");
    match descriptor
    case MessageDescriptor(_) => Raise(AttributeError("default_value"))
    case FieldDescriptor(_, _, default) =>
      if value != default then Ok(ArgumentValidators.Valid)
      else Ok(ArgumentValidators.Invalid(RequestPrefix(index) + name + " must have non-default value"))
  }

  /** `StreamingNonEmptyValidator.check` (streaming_argument_validators.py:62-67). */
  function CheckNonEmpty(index: nat, name: string, value: Value): (r: Result<ValidationResult>)
    ensures r.Ok? <==> Len(value).Some?
    ensures r.Ok? ==> (r.value.valid <==> Len(value).value > 0)
    ensures r.Ok? && !r.value.valid ==>
              r.value.invalidReason == Some(RequestPrefix(index) + ArgumentValidators.Reason(ArgumentValidators.NonEmpty, name))
  {
    ConcatAssoc(RequestPrefix(index), name, " must be non-empty");
    match Len(value)
    case None => Raise(TypeError("object has no len()"))
    case Some(n) =>
      if n > 0 then Ok(ArgumentValidators.Valid)
      else Ok(ArgumentValidators.Invalid(RequestPrefix(index) + name + " must be non-empty"))
  }

  /** `StreamingRegexpValidator.check` (streaming_argument_validators.py:81-88). */
  function CheckRegexp(env: StreamingEnvironment, index: nat, pattern: string, name: string, value: Value): (r: Result<ValidationResult>)
    ensures r.Ok? <==> value.Str?
    ensures r.Ok? ==> (r.value.valid <==> env.matches(pattern, value.s))
    ensures r.Ok? && !r.value.valid ==>
              r.value.invalidReason == Some(RequestPrefix(index) + ArgumentValidators.Reason(ArgumentValidators.Regexp(pattern), name))
  {
    ConcatAssoc(RequestPrefix(index), name, " must match regexp pattern: ");
    ConcatAssoc(RequestPrefix(index), name + " must match regexp pattern: ", pattern);
    if !value.Str? then Raise(TypeError("expected string or bytes-like object"))
    else if env.matches(pattern, value.s) then Ok(ArgumentValidators.Valid)
    else Ok(ArgumentValidators.Invalid(RequestPrefix(index) + name + " must match regexp pattern: " + pattern))
  }

  /** The presence check: `value.HasField(field)`, which raises unless the
      value is a message declaring a singular field of that name. */
  function CheckHasField(env: StreamingEnvironment, index: nat, field: string, name: string, value: Value): (r: Result<ValidationResult>)
    ensures r.Ok? <==> value.Msg? && field in value.message.fields && !value.message.fields[field].repeated
    ensures r.Ok? ==> (r.value.valid <==> value.message.fields[field].hasField)
  {
    if !value.Msg? then Raise(AttributeError("HasField"))
    else if field !in value.message.fields then Raise(ValueError("Protocol message has no field " + field))
    else if value.message.fields[field].repeated then Raise(ValueError("Field " + field + " is repeated"))
    else if value.message.fields[field].hasField then Ok(ArgumentValidators.Valid)
    else Ok(ArgumentValidators.Invalid(env.hasFieldReason(index, name, field)))
  }

  /** `validator.check(message_index, name, value, field_descriptor)`. */
  function Check(env: StreamingEnvironment, v: StreamingValidator, index: nat, name: string, value: Value,
                 descriptor: Descriptor): (r: Result<ValidationResult>)
    ensures v.StreamingCustom? ==> r == Ok(env.custom(v.id, index, name, value, descriptor))
    ensures !v.StreamingCustom? && r.Ok? ==> (r.value.valid <==> r.value.invalidReason.None?)
  {
    match v
    case StreamingUUIDBytes => CheckUUIDBytes(index, name, value)
    case StreamingNonEmpty => CheckNonEmpty(index, name, value)
    case StreamingNonDefault => CheckNonDefault(index, name, value, descriptor)
    case StreamingRegexp(pattern) => CheckRegexp(env, index, pattern, name, value)
    case HasField(field) => CheckHasField(env, index, field, name, value)
    case StreamingCustom(id) => Ok(env.custom(id, index, name, value, descriptor))
  }

  lemma ConcatAssoc(a: string, b: string, c: string)
    ensures a + b + c == a + (b + c)
  {
  }

  /** The request index affects only the reason: a built-in streaming
      validator raises exactly when its non-streaming counterpart does and the
      same error, accepts exactly what it accepts, and its reason is the
      counterpart's prefixed by "in message request <index> ". */
  lemma AgreesWithNonStreaming(env: StreamingEnvironment, plain: ArgumentValidators.Environment,
                               v: ArgumentValidators.Validator, index: nat, name: string, value: Value,
                               descriptor: Descriptor, ctx: ValidationContext)
    requires !v.Custom? && plain.matches == env.matches
    ensures var s := Check(env, Counterpart(v), index, name, value, descriptor);
            var p := ArgumentValidators.Check(plain, v, name, value, descriptor, ctx);
            && (s.Raise? <==> p.Raise?)
            && (s.Raise? ==> s.error == p.error)
            && (s.Ok? ==> s.value.valid == p.value.valid)
            && (s.Ok? && !s.value.valid ==>
                  s.value.invalidReason == Some(RequestPrefix(index) + p.value.invalidReason.value))
  {
  }
}
