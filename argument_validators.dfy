/** src/grpc_argument_validator/argument_validators.py: the built-in leaf
    checks, each a single conditional returning a `ValidationResult`, plus the
    user-supplied validators, which the model treats as given functions. */
module ArgumentValidators {
  import opened Outcomes
  import opened Messages

  /** The validators a rule can carry. `Custom(id)` stands for a user-defined
      subclass of `AbstractArgumentValidator`; `id` selects its `check` among
      the functions in `Environment.custom`. */
  datatype Validator =
    | UUIDBytes
    | NonEmpty
    | NonDefault
    | Regexp(pattern: string)
    | Custom(id: nat)

  /** What the validators call but the model does not define: `re.match`
      (true when the pattern matches at the start of the text) and the
      `check` methods of user-defined validators. */
  datatype Environment = Environment(
    matches: (string, string) -> bool,
    custom: (nat, string, Value, Descriptor, ValidationContext) -> ValidationResult)

  const Valid := ValidationResult(true, None)

  function Invalid(reason: string): ValidationResult
  {
    ValidationResult(false, Some(reason))
  }

  /** The reason a failing built-in validator gives for the field called `name`. */
  function Reason(v: Validator, name: string): string
    requires !v.Custom?
  {
    match v
    case UUIDBytes => name + " must be a valid UUID"
    case NonEmpty => name + " must be non-empty"
    case NonDefault => name + " must have non-default value"
    case Regexp(pattern) => name + " must match regexp pattern: " + pattern
  }

  /** Whether the value is accepted by `uuid.UUID(bytes=value)`. */
  predicate IsUUIDBytes(value: Value)
  {
    value.Bytes? && |value.bytes| == 16
  }

  /** `UUIDBytesValidator.check` (argument_validators.py:39-46).
      `uuid.UUID(bytes=...)` first raises ValueError unless `len` is 16 (and
      TypeError when there is no `len`), both turned into an invalid result;
      a 16-long value that is not a byte string then fails the library's own
      `assert isinstance(bytes, bytes_)`, which escapes. */
  function CheckUUIDBytes(name: string, value: Value): (r: Result<ValidationResult>)
    ensures r.Raise? <==> Len(value) == Some(16) && !value.Bytes?
    ensures r.Ok? ==> (r.value.valid <==> IsUUIDBytes(value))
    ensures r.Ok? && !r.value.valid ==> r.value.invalidReason == Some(Reason(UUIDBytes, name))
  {
    if Len(value) != Some(16) then Ok(Invalid(name + " must be a valid UUID"))
    else if value.Bytes? then Ok(Valid)
    else Raise(AssertionError("bytes must be a byte string"))
  }

  /** `NonEmptyValidator.check` (argument_validators.py:63-68): `len(value) > 0`;
      `len` raises TypeError on a value without a length. */
  function CheckNonEmpty(name: string, value: Value): (r: Result<ValidationResult>)
    ensures r.Ok? <==> Len(value).Some?
    ensures r.Ok? ==> (r.value.valid <==> Len(value).value > 0)
    ensures r.Ok? && !r.value.valid ==> r.value.invalidReason == Some(Reason(NonEmpty, name))
  {
    match Len(value)
    case None => Raise(TypeError("object has no len()"))
    case Some(n) => Ok(if n > 0 then Valid else Invalid(name + " must be non-empty"))
  }

  /** `NonDefaultValidator.check` (argument_validators.py:52-57): compares with
      the descriptor's `default_value`; a message type's descriptor (the root
      path) has no such attribute. */
  function CheckNonDefault(name: string, value: Value, descriptor: Descriptor): (r: Result<ValidationResult>)
    ensures r.Ok? <==> descriptor.FieldDescriptor?
    ensures r.Ok? ==> (r.value.valid <==> value != descriptor.default)
    ensures r.Ok? && !r.value.valid ==> r.value.invalidReason == Some(Reason(NonDefault, name))
  {
    match descriptor
    case MessageDescriptor(_) => Raise(AttributeError("default_value"))
    case FieldDescriptor(_, _, default) =>
      Ok(if value != default then Valid else Invalid(name + " must have non-default value"))
  }

  /** `RegexpValidator.check` (argument_validators.py:82-87): `re.match` with a
      string pattern raises TypeError unless the value is a string. */
  function CheckRegexp(env: Environment, pattern: string, name: string, value: Value): (r: Result<ValidationResult>)
    ensures r.Ok? <==> value.Str?
    ensures r.Ok? ==> (r.value.valid <==> env.matches(pattern, value.s))
    ensures r.Ok? && !r.value.valid ==> r.value.invalidReason == Some(Reason(Regexp(pattern), name))
  {
    if !value.Str? then Raise(TypeError("expected string or bytes-like object"))
    else if env.matches(pattern, value.s) then Ok(Valid)
    else Ok(Invalid(name + " must match regexp pattern: " + pattern))
  }

  /** `validator.check(name, value, field_descriptor, validation_context)`. */
  function Check(env: Environment, v: Validator, name: string, value: Value, descriptor: Descriptor,
                 ctx: ValidationContext): (r: Result<ValidationResult>)
    ensures v.Custom? ==> r == Ok(env.custom(v.id, name, value, descriptor, ctx))
    ensures !v.Custom? && r.Ok? ==> (r.value.valid <==> r.value.invalidReason.None?)
    ensures !v.Custom? && r.Ok? && !r.value.valid ==>
              r.value.invalidReason == Some(Reason(v, name)) && IsPrefix(name, r.value.invalidReason.value)
  {
    match v
    case UUIDBytes => CheckUUIDBytes(name, value)
    case NonEmpty => CheckNonEmpty(name, value)
    case NonDefault => CheckNonDefault(name, value, descriptor)
    case Regexp(pattern) => CheckRegexp(env, pattern, name, value)
    case Custom(id) => Ok(env.custom(id, name, value, descriptor, ctx))
  }

  predicate IsPrefix(p: string, s: string)
  {
    |p| <= |s| && s[..|p|] == p
  }

  /** The built-in validators ignore the validation context. */
  lemma BuiltInsIgnoreContext(env: Environment, v: Validator, name: string, value: Value, descriptor: Descriptor,
                              ctx1: ValidationContext, ctx2: ValidationContext)
    requires !v.Custom?
    ensures Check(env, v, name, value, descriptor, ctx1) == Check(env, v, name, value, descriptor, ctx2)
  {
  }
}
