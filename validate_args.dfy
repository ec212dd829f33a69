/** src/grpc_argument_validator/validate_args_decorator.py: the unary
    decorator. `ValidateArgs` checks a configuration once and turns it into one
    rule per listed path; `RecurseValidate` walks one path through a request
    and collects violations; `ValidateMessage` runs every rule and aborts with
    a summary when anything failed; `ValidateStreaming` does that for each
    request of a stream in turn.

    Each imperative routine is a method proved equal to a specification
    function: the loops to folds with an accumulator whose index runs over
    the list the loop walks, `RecurseValidate` to `Resolve`, which recurses
    over the pieces of the path. */
module ValidateArgsDecorator {
  import opened Outcomes
  import opened Strings
  import opened Messages
  import opened Dicts
  import opened ArgumentValidators
  import Fields

  /** `_Error`: one field violation. */
  datatype Violation = Violation(fieldName: string, reason: string)

  // ---------------------------------------------------------------------------
  // Configuration (validate_args_decorator.py:34-118)
  // ---------------------------------------------------------------------------

  /** The decorator's nine arguments, each of which may be None. Dicts may
      map a path to None, which the rule builder skips. */
  datatype Config = Config(
    has: Option<seq<string>>,
    uuids: Option<seq<string>>,
    nonDefault: Option<seq<string>>,
    nonEmpty: Option<seq<string>>,
    optionalUuids: Option<seq<string>>,
    optionalNonEmpty: Option<seq<string>>,
    optionalNonDefault: Option<seq<string>>,
    validators: Option<Dict<Option<Validator>>>,
    optionalValidators: Option<Dict<Option<Validator>>>)

  /** `all(arg is None for arg in locals().values())` */
  predicate AllNone(c: Config)
  {
    c.has.None? && c.uuids.None? && c.nonDefault.None? && c.nonEmpty.None? && c.optionalUuids.None?
    && c.optionalNonEmpty.None? && c.optionalNonDefault.None? && c.validators.None? && c.optionalValidators.None?
  }

  /** `field_names`: every bucket in a fixed order, duplicates kept. */
  function FieldNames(c: Config): seq<string>
  {
    OrEmpty(c.has) + OrEmpty(c.uuids) + OrEmpty(c.optionalUuids) + OrEmpty(c.nonEmpty)
    + OrEmpty(c.optionalNonEmpty) + OrEmpty(c.nonDefault) + OrEmpty(c.optionalNonDefault)
    + Keys(OrEmptyDict(c.validators)) + Keys(OrEmptyDict(c.optionalValidators))
  }

  /** `mandatory_fields`; `has` is not among them. */
  function MandatoryFields(c: Config): set<string>
  {
    ToSet(OrEmpty(c.uuids) + OrEmpty(c.nonEmpty) + OrEmpty(c.nonDefault) + Keys(OrEmptyDict(c.validators)))
  }

  /** `optional_fields` */
  function OptionalFields(c: Config): set<string>
  {
    ToSet(OrEmpty(c.optionalUuids) + OrEmpty(c.optionalNonEmpty) + OrEmpty(c.optionalNonDefault)
          + Keys(OrEmptyDict(c.optionalValidators)))
  }

  const NoFieldsMessage := "Should provide at least one field to validate"
  const OverlapMessage := "Overlap in mandatory and optional fields"

  /** What the loop of `validate_message` prepares for one path. */
  datatype Rule = Rule(path: string, validators: seq<Validator>, isOptional: bool)

  /** The explicit validator for a path (validate_args_decorator.py:137-140):
      looked up in `{**validators, **optional_validators}` and kept unless
      None, so the optional dict wins when both name the path. */
  function ExplicitValidator(c: Config, path: string): (r: seq<Validator>)
    ensures var v := OrEmptyDict(c.validators);
            var ov := OrEmptyDict(c.optionalValidators);
            r == (if path in Keys(ov) then (if Get(ov, path).value.Some? then [Get(ov, path).value.value] else [])
                  else if path in Keys(v) then (if Get(v, path).value.Some? then [Get(v, path).value.value] else [])
                  else [])
  {
    var v := OrEmptyDict(c.validators);
    var ov := OrEmptyDict(c.optionalValidators);
    GetMerge(v, ov, path);
    if path in Keys(v) + Keys(ov) then
      var found := Get(Merge(v, ov), path);
      if found.Some? && found.value.Some? then [found.value.value] else []
    else []
  }

  /** The validators and the optional flag of one path
      (validate_args_decorator.py:124-140). */
  function RuleFor(c: Config, path: string): (r: Rule)
    ensures r.path == path
    ensures r.isOptional <==> path in OptionalFields(c)
    ensures r.validators ==
              (if path in OrEmpty(c.uuids) + OrEmpty(c.optionalUuids) then [UUIDBytes] else [])
              + (if path in OrEmpty(c.nonEmpty) + OrEmpty(c.optionalNonEmpty) then [NonEmpty] else [])
              + (if path in OrEmpty(c.nonDefault) + OrEmpty(c.optionalNonDefault) then [NonDefault] else [])
              + ExplicitValidator(c, path)
  {
    var isOptional := path in OrEmpty(c.optionalNonEmpty) || path in OrEmpty(c.optionalUuids)
                      || path in OrEmpty(c.optionalNonDefault) || path in Keys(OrEmptyDict(c.optionalValidators));
    var vs := (if path in OrEmpty(c.uuids) + OrEmpty(c.optionalUuids) then [UUIDBytes] else [])
              + (if path in OrEmpty(c.nonEmpty) + OrEmpty(c.optionalNonEmpty) then [NonEmpty] else [])
              + (if path in OrEmpty(c.nonDefault) + OrEmpty(c.optionalNonDefault) then [NonDefault] else [])
              + ExplicitValidator(c, path);
    Rule(path, vs, isOptional)
  }

  /** The error for an ill-formed path is never the all-None error. */
  lemma FieldNameErrorDiffers(name: string)
    ensures Fields.FieldNameError(name) != NoFieldsMessage
  {
    Fields.FieldNameErrorLength(name);
    assert |NoFieldsMessage| == 45;
  }

  /** The checks after the all-None test on the listed paths, given whether
      some path is both mandatory and optional: the first ill-formed path is
      reported before an overlap. */
  function NamesError(names: seq<string>, overlap: bool): (r: Option<Exception>)
    ensures Fields.ValidateFieldNames(names).Some? ==> r == Fields.ValidateFieldNames(names)
    ensures Fields.ValidateFieldNames(names).None? ==> (r.Some? <==> overlap)
    ensures Fields.ValidateFieldNames(names).None? && r.Some? ==> r.value == ValueError(OverlapMessage)
  {
    var e := Fields.ValidateFieldNames(names);
    if e.Some? then e
    else if overlap then Some(ValueError(OverlapMessage))
    else None
  }

  /** The checks pass exactly when every path is well formed and there is no
      overlap; and what they raise is never the all-None error. */
  lemma NamesErrorMeaning(names: seq<string>, overlap: bool)
    ensures NamesError(names, overlap).None? <==> (forall p :: p in names ==> Fields.IsValidFieldPath(p)) && !overlap
    ensures NamesError(names, overlap) != Some(ValueError(NoFieldsMessage))
  {
    Fields.ValidateFieldNamesRejectsFirstInvalid(names);
    NamesErrorNotNoFields(names, overlap);
  }

  lemma NamesErrorNotNoFields(names: seq<string>, overlap: bool)
    ensures NamesError(names, overlap) != Some(ValueError(NoFieldsMessage))
  {
    var e := Fields.ValidateFieldNames(names);
    if e.Some? {
      var k := Fields.FirstInvalid(Fields.Validity(names)).value;
      assert e.value == ValueError(Fields.FieldNameError(names[k]));
      FieldNameErrorDiffers(names[k]);
    } else {
      assert |OverlapMessage| != |NoFieldsMessage|;
    }
  }

  /** The checks after the all-None test (validate_args_decorator.py:94-118). */
  function ConfigError(c: Config): Option<Exception>
  {
    NamesError(FieldNames(c), MandatoryFields(c) * OptionalFields(c) != {})
  }

  /** One rule per entry of `field_names`, duplicates included
      (validate_args_decorator.py:122-140). */
  function Rules(c: Config, names: seq<string>): (rs: seq<Rule>)
    ensures |rs| == |names| && forall i :: 0 <= i < |names| ==> rs[i] == RuleFor(c, names[i])
  {
    seq(|names|, i requires 0 <= i < |names| => RuleFor(c, names[i]))
  }

  /** `validate_args(...)` up to the definition of the wrapper
      (validate_args_decorator.py:80-140): raises on an all-None
      configuration, then on the first ill-formed path, then on a path that
      is both mandatory and optional; otherwise yields one rule per entry of
      `field_names`. */
  function ValidateArgs(c: Config): (r: Result<seq<Rule>>)
    ensures AllNone(c) <==> r == Raise(ValueError(NoFieldsMessage))
    ensures !AllNone(c) && ConfigError(c).Some? ==> r == Raise(ConfigError(c).value)
    ensures !AllNone(c) && ConfigError(c).None? ==> r == Ok(Rules(c, FieldNames(c)))
    ensures r.Ok? ==> (forall p :: p in FieldNames(c) ==> Fields.IsValidFieldPath(p))
                      && MandatoryFields(c) * OptionalFields(c) == {}
  {
    if AllNone(c) then Raise(ValueError(NoFieldsMessage))
    else
      NamesErrorMeaning(FieldNames(c), MandatoryFields(c) * OptionalFields(c) != {});
      match ConfigError(c)
      case Some(e) => Raise(e)
      case None => Ok(Rules(c, FieldNames(c)))
  }

  /** The position of a bucket's built-in validator among a path's validators. */
  function BuiltInRank(v: Validator): nat
  {
    match v
    case UUIDBytes => 0
    case NonEmpty => 1
    case NonDefault => 2
    case _ => 3
  }

  /** The bucket checks of a path, given which buckets list it. */
  function BucketChecks(uuid: bool, nonEmpty: bool, nonDefault: bool): seq<Validator>
  {
    (if uuid then [UUIDBytes] else []) + (if nonEmpty then [NonEmpty] else []) + (if nonDefault then [NonDefault] else [])
  }

  /** Each bucket check is there exactly when its bucket lists the path, and
      they come at most once each, in the order UUID, non-empty, non-default. */
  lemma BucketChecksOrder(uuid: bool, nonEmpty: bool, nonDefault: bool)
    ensures var b := BucketChecks(uuid, nonEmpty, nonDefault);
            && (UUIDBytes in b <==> uuid) && (NonEmpty in b <==> nonEmpty) && (NonDefault in b <==> nonDefault)
            && (forall i :: 0 <= i < |b| ==> BuiltInRank(b[i]) < 3)
            && (forall i, j :: 0 <= i < j < |b| ==> BuiltInRank(b[i]) < BuiltInRank(b[j]))
  {
  }

  /** A path's validators are its buckets' built-in checks, each at most once
      and in the order UUID, non-empty, non-default, followed by at most one
      explicit validator; a built-in check is there exactly when a bucket,
      mandatory or optional, lists the path. */
  lemma RuleForBuiltIns(c: Config, path: string)
    ensures var uuid := path in OrEmpty(c.uuids) || path in OrEmpty(c.optionalUuids);
            var nonEmpty := path in OrEmpty(c.nonEmpty) || path in OrEmpty(c.optionalNonEmpty);
            var nonDefault := path in OrEmpty(c.nonDefault) || path in OrEmpty(c.optionalNonDefault);
            var e := ExplicitValidator(c, path);
            && |e| <= 1
            && RuleFor(c, path).validators == BucketChecks(uuid, nonEmpty, nonDefault) + e
  {
  }

  /** In an accepted configuration a path that a mandatory bucket lists is
      walked as mandatory, and one an optional bucket lists as optional. */
  lemma AcceptedRuleOptionality(c: Config, path: string)
    requires ValidateArgs(c).Ok?
    ensures path in MandatoryFields(c) ==> !RuleFor(c, path).isOptional
    ensures path in OptionalFields(c) ==> RuleFor(c, path).isOptional
  {
    assert MandatoryFields(c) * OptionalFields(c) == {};
    assert path !in MandatoryFields(c) * OptionalFields(c);
    assert RuleFor(c, path).isOptional <==> path in OptionalFields(c);
  }

  /** A path that only `has` lists gets no validator and is mandatory. */
  lemma HasOnlyPath(c: Config, path: string)
    requires path in OrEmpty(c.has)
    requires path !in OrEmpty(c.uuids) + OrEmpty(c.optionalUuids) + OrEmpty(c.nonEmpty) + OrEmpty(c.optionalNonEmpty)
                      + OrEmpty(c.nonDefault) + OrEmpty(c.optionalNonDefault)
                      + Keys(OrEmptyDict(c.validators)) + Keys(OrEmptyDict(c.optionalValidators))
    ensures RuleFor(c, path).validators == [] && !RuleFor(c, path).isOptional
  {
  }

  // ---------------------------------------------------------------------------
  // The path walk (validate_args_decorator.py:187-268)
  // ---------------------------------------------------------------------------

  /** What the leaf checks of one walk share: the validators' environment,
      the validation context and the validators to run. */
  datatype Checks = Checks(env: Environment, ctx: ValidationContext, validators: seq<Validator>)

  /** Everything a walk along one path carries unchanged. */
  datatype Walk = Walk(checks: Checks, isOptional: bool)

  /** The qualified name of a field under `leading_parts_name`. */
  function FullName(leading: Option<string>, field: string): string
  {
    if leading.None? then field else leading.value + "." + field
  }

  /** The name of element `i` of a repeated field. */
  function ElementName(full: string, i: nat): string
  {
    full + "[" + NatToString(i) + "]"
  }

  function PresenceReason(full: string): string
  {
    "request must have " + full
  }

  /** A `None` reason is reported as "". */
  function ReasonText(res: ValidationResult): string
  {
    if res.invalidReason.None? then "" else res.invalidReason.value
  }

  const NotIterable := "object is not iterable"

  /** One `v.check(...)` and the violation it may append. */
  function CheckInto(k: Checks, v: Validator, name: string, value: Value, descriptor: Descriptor,
                     acc: seq<Violation>): Result<seq<Violation>>
  {
    match Check(k.env, v, name, value, descriptor, k.ctx)
    case Raise(e) => Raise(e)
    case Ok(res) => Ok(if res.valid then acc else acc + [Violation(name, ReasonText(res))])
  }

  /** One validator over the elements `j..` of a repeated field
      (validate_args_decorator.py:247-258). */
  function ElementChecksFrom(k: Checks, v: Validator, items: seq<Value>, descriptor: Descriptor, full: string,
                             j: nat, acc: seq<Violation>): Result<seq<Violation>>
    requires j <= |items|
    decreases |items| - j
  {
    if j == |items| then Ok(acc)
    else
      match CheckInto(k, v, ElementName(full, j), items[j], descriptor, acc)
      case Raise(e) => Raise(e)
      case Ok(acc') => ElementChecksFrom(k, v, items, descriptor, full, j + 1, acc')
  }

  /** One validator at the last segment: on each element when the path ends in
      "[]" and the field is repeated, otherwise on the value itself
      (validate_args_decorator.py:246-267). The root descriptor has no label. */
  function ApplyValidator(k: Checks, v: Validator, raw: string, value: Value, descriptor: Descriptor, full: string,
                          acc: seq<Violation>): Result<seq<Violation>>
  {
    if EndsWith(raw, "[]") && descriptor.MessageDescriptor? then Raise(AttributeError("label"))
    else if EndsWith(raw, "[]") && descriptor.repeated then
      if !value.List? then Raise(TypeError(NotIterable))
      else ElementChecksFrom(k, v, value.items, descriptor, full, 0, acc)
    else CheckInto(k, v, full, value, descriptor, acc)
  }

  /** The validators `n..` at the last segment (validate_args_decorator.py:245-267). */
  function ValidatorsFrom(k: Checks, raw: string, value: Value, descriptor: Descriptor, full: string,
                          n: nat, acc: seq<Violation>): Result<seq<Violation>>
    requires n <= |k.validators|
    decreases |k.validators| - n
  {
    if n == |k.validators| then Ok(acc)
    else
      match ApplyValidator(k, k.validators[n], raw, value, descriptor, full, acc)
      case Raise(e) => Raise(e)
      case Ok(acc') => ValidatorsFrom(k, raw, value, descriptor, full, n + 1, acc')
  }

  /** `_recurse_validate(message, name, ..., leading_parts_name, is_optional)`:
      the violations found along path `name` below `message`, or the
      exception the walk raises. */
  function Resolve(w: Walk, message: Value, name: string, leading: Option<string>): Result<seq<Violation>>
    decreases |Split(name)|, 1, 0
  {
    var parts := Split(name);
    var raw := parts[0];
    var field := RStripBrackets(raw);
    var remaining := DropEmpty(parts[1..]);
    if !message.Msg? then Raise(AttributeError("DESCRIPTOR"))
    else
      var m := message.message;
      if leading.None? && field == "" then
        if remaining != [] then Raise(AttributeError("label"))
        else ValidatorsFrom(w.checks, raw, message, MessageDescriptor(m.typeName), m.typeName, 0, [])
      else if field !in m.fields then Raise(KeyError(field))
      else
        var f := m.fields[field];
        var full := FullName(leading, field);
        if !f.repeated && f.isMessage && !f.hasField then
          if w.isOptional then Ok([]) else Ok([Violation(full, PresenceReason(full))])
        else if remaining == [] then ValidatorsFrom(w.checks, raw, f.value, DescriptorOf(f), full, 0, [])
        else
          RemainingPath(name);
          var rest := Join(remaining);
          if !f.repeated then Resolve(w, f.value, rest, Some(full))
          else if !f.value.List? then Raise(TypeError(NotIterable))
          else ElementsFrom(w, f.value.items, rest, full, 0, [])
  }

  /** The walk of the rest of the path below each element `i..` of a repeated
      field, element `i` named `full[i]` (validate_args_decorator.py:221-232). */
  function ElementsFrom(w: Walk, items: seq<Value>, rest: string, full: string, i: nat,
                        acc: seq<Violation>): Result<seq<Violation>>
    requires i <= |items|
    decreases |Split(rest)| + 1, 0, |items| - i
  {
    if i == |items| then Ok(acc)
    else
      match Resolve(w, items[i], rest, Some(ElementName(full, i)))
      case Raise(e) => Raise(e)
      case Ok(es) => ElementsFrom(w, items, rest, full, i + 1, acc + es)
  }

  /** `_recurse_validate`, step by step as the source does it. */
  method RecurseValidate(w: Walk, message: Value, name: string, leading: Option<string>)
    returns (r: Result<seq<Violation>>)
    ensures r == Resolve(w, message, name, leading)
    decreases |Split(name)|, 1, 0
  {
    var parts := Split(name);
    var raw := parts[0];
    var field := RStripBrackets(raw);
    var remaining := DropEmpty(parts[1..]);
    if !message.Msg? {
      return Raise(AttributeError("DESCRIPTOR"));
    }
    var m := message.message;
    var value: Value;
    var descriptor: Descriptor;
    var full: string;
    if leading.None? && field == "" {
      value := message;
      descriptor := MessageDescriptor(m.typeName);
      full := m.typeName;
    } else {
      if field !in m.fields {
        return Raise(KeyError(field));
      }
      var f := m.fields[field];
      descriptor := DescriptorOf(f);
      full := FullName(leading, field);
      if !f.repeated && f.isMessage && !f.hasField {
        if w.isOptional {
          return Ok([]);
        }
        return Ok([Violation(full, PresenceReason(full))]);
      }
      value := f.value;
    }
    if remaining != [] {
      if descriptor.MessageDescriptor? {
        return Raise(AttributeError("label"));
      }
      RemainingPath(name);
      var rest := Join(remaining);
      if descriptor.repeated {
        if !value.List? {
          return Raise(TypeError(NotIterable));
        }
        r := WalkElements(w, value.items, rest, full);
      } else {
        r := RecurseValidate(w, value, rest, Some(full));
      }
    } else {
      r := RunValidators(w.checks, raw, value, descriptor, full);
    }
  }

  /** The loop over the elements of a repeated field in the middle of a path
      (validate_args_decorator.py:221-232). */
  method WalkElements(w: Walk, items: seq<Value>, rest: string, full: string) returns (r: Result<seq<Violation>>)
    ensures r == ElementsFrom(w, items, rest, full, 0, [])
    decreases |Split(rest)| + 1, 0, 0
  {
    var errors: seq<Violation> := [];
    var i := 0;
    while i < |items|
      invariant 0 <= i <= |items|
      invariant ElementsFrom(w, items, rest, full, i, errors) == ElementsFrom(w, items, rest, full, 0, [])
    {
      var sub := RecurseValidate(w, items[i], rest, Some(ElementName(full, i)));
      if sub.Raise? {
        return sub;
      }
      errors := errors + sub.value;
      i := i + 1;
    }
    return Ok(errors);
  }

  /** The loop over the validators at the last segment
      (validate_args_decorator.py:245-267). */
  method RunValidators(k: Checks, raw: string, value: Value, descriptor: Descriptor, full: string)
    returns (r: Result<seq<Violation>>)
    ensures r == ValidatorsFrom(k, raw, value, descriptor, full, 0, [])
  {
    var errors: seq<Violation> := [];
    var n := 0;
    while n < |k.validators|
      invariant 0 <= n <= |k.validators|
      invariant ValidatorsFrom(k, raw, value, descriptor, full, n, errors)
             == ValidatorsFrom(k, raw, value, descriptor, full, 0, [])
    {
      var v := k.validators[n];
      if EndsWith(raw, "[]") && descriptor.MessageDescriptor? {
        return Raise(AttributeError("label"));
      }
      if EndsWith(raw, "[]") && descriptor.repeated {
        if !value.List? {
          return Raise(TypeError(NotIterable));
        }
        var items := value.items;
        ghost var before := errors;
        var j := 0;
        while j < |items|
          invariant 0 <= j <= |items|
          invariant ElementChecksFrom(k, v, items, descriptor, full, j, errors)
                 == ElementChecksFrom(k, v, items, descriptor, full, 0, before)
        {
          var elementName := ElementName(full, j);
          var res := Check(k.env, v, elementName, items[j], descriptor, k.ctx);
          if res.Raise? {
            return Raise(res.error);
          }
          if !res.value.valid {
            errors := errors + [Violation(elementName, ReasonText(res.value))];
          }
          j := j + 1;
        }
      } else {
        var res := Check(k.env, v, full, value, descriptor, k.ctx);
        if res.Raise? {
          return Raise(res.error);
        }
        if !res.value.valid {
          errors := errors + [Violation(full, ReasonText(res.value))];
        }
      }
      n := n + 1;
    }
    return Ok(errors);
  }

  // ---------------------------------------------------------------------------
  // Aggregation and the wrappers (validate_args_decorator.py:120-184)
  // ---------------------------------------------------------------------------

  /** The walk for one rule. */
  function WalkFor(env: Environment, ctx: ValidationContext, rule: Rule): Walk
  {
    Walk(Checks(env, ctx, rule.validators), rule.isOptional)
  }

  /** The violations of the paths `names[i..]`, appended to `acc` in order
      (validate_args_decorator.py:122-150). */
  function FieldErrorsFrom(env: Environment, c: Config, names: seq<string>, request: Message, ctx: ValidationContext,
                           i: nat, acc: seq<Violation>): Result<seq<Violation>>
    requires i <= |names|
    decreases |names| - i
  {
    if i == |names| then Ok(acc)
    else
      match Resolve(WalkFor(env, ctx, RuleFor(c, names[i])), Msg(request), names[i], None)
      case Raise(e) => Raise(e)
      case Ok(es) => FieldErrorsFrom(env, c, names, request, ctx, i + 1, acc + es)
  }

  /** One step of `FieldErrorsFrom`, for a walk whose outcome is `sub`. */
  lemma FieldErrorsStep(env: Environment, c: Config, names: seq<string>, request: Message, ctx: ValidationContext,
                        i: nat, acc: seq<Violation>, sub: Result<seq<Violation>>)
    requires i < |names|
    requires sub == Resolve(WalkFor(env, ctx, RuleFor(c, names[i])), Msg(request), names[i], None)
    ensures sub.Raise? ==> FieldErrorsFrom(env, c, names, request, ctx, i, acc) == Raise(sub.error)
    ensures sub.Ok? ==> FieldErrorsFrom(env, c, names, request, ctx, i, acc)
                        == FieldErrorsFrom(env, c, names, request, ctx, i + 1, acc + sub.value)
  {
  }

  /** Every violation of a request, path by path in `field_names` order. */
  function MessageErrors(env: Environment, c: Config, request: Message, ctx: ValidationContext): Result<seq<Violation>>
  {
    FieldErrorsFrom(env, c, FieldNames(c), request, ctx, 0, [])
  }

  function Reasons(errors: seq<Violation>): (rs: seq<string>)
    ensures |rs| == |errors| && forall i :: 0 <= i < |errors| ==> rs[i] == errors[i].reason
  {
    seq(|errors|, i requires 0 <= i < |errors| => errors[i].reason)
  }

  const SummaryLimit: nat := 1000

  /** `google.rpc.Code.INVALID_ARGUMENT` */
  const INVALID_ARGUMENT: int := 3

  /** The status the request is aborted with: its code, its message and the
      `(field, description)` pairs of the `BadRequest` detail. */
  datatype Status = Status(code: int, message: string, fieldViolations: seq<Violation>)

  /** `_create_rich_validation_error` (validate_args_decorator.py:173-184): the
      message is the reasons joined by ", ", cut to 1000 characters. */
  function CreateRichValidationError(errors: seq<Violation>): (s: Status)
    ensures s.code == INVALID_ARGUMENT && s.fieldViolations == errors
    ensures |s.message| <= SummaryLimit
    ensures IsPrefix(s.message, JoinWith(", ", Reasons(errors)))
    ensures |JoinWith(", ", Reasons(errors))| <= SummaryLimit ==> s.message == JoinWith(", ", Reasons(errors))
    ensures |JoinWith(", ", Reasons(errors))| > SummaryLimit ==> |s.message| == SummaryLimit
  {
    Status(INVALID_ARGUMENT, Truncate(JoinWith(", ", Reasons(errors)), SummaryLimit), errors)
  }

  /** The outcome of `validate_message`: the request passes, or the call is
      aborted with a status. */
  datatype Verdict = Accept | Reject(status: Status)

  /** `validate_message` (validate_args_decorator.py:121-153) as a function:
      abort exactly when some violation was found. */
  function MessageVerdict(env: Environment, c: Config, request: Message, ctx: ValidationContext): (r: Result<Verdict>)
    ensures r.Raise? <==> MessageErrors(env, c, request, ctx).Raise?
    ensures r == Ok(Accept) <==> MessageErrors(env, c, request, ctx) == Ok([])
    ensures r.Ok? && r.value.Reject? ==> r.value.status.fieldViolations == MessageErrors(env, c, request, ctx).value != []
  {
    match MessageErrors(env, c, request, ctx)
    case Raise(e) => Raise(e)
    case Ok(errors) => if |errors| > 0 then Ok(Reject(CreateRichValidationError(errors))) else Ok(Accept)
  }

  /** How the verdict follows from the violations found. */
  lemma VerdictOf(env: Environment, c: Config, request: Message, ctx: ValidationContext)
    ensures var errors := MessageErrors(env, c, request, ctx);
            MessageVerdict(env, c, request, ctx) ==
              match errors
              case Raise(e) => Raise(e)
              case Ok(es) => if |es| > 0 then Ok(Reject(CreateRichValidationError(es))) else Ok(Accept)
  {
  }

  /** `validate_message`, with the loop over `field_names` that builds each
      path's validators and walks it. */
  method ValidateMessage(env: Environment, c: Config, request: Message, ctx: ValidationContext)
    returns (r: Result<Verdict>)
    ensures r == MessageVerdict(env, c, request, ctx)
  {
    var names := FieldNames(c);
    var errors: seq<Violation> := [];
    var i := 0;
    while i < |names|
      invariant 0 <= i <= |names|
      invariant FieldErrorsFrom(env, c, names, request, ctx, i, errors) == MessageErrors(env, c, request, ctx)
    {
      var rule := RuleFor(c, names[i]);
      var sub := RecurseValidate(WalkFor(env, ctx, rule), Msg(request), names[i], None);
      FieldErrorsStep(env, c, names, request, ctx, i, errors, sub);
      if sub.Raise? {
        VerdictOf(env, c, request, ctx);
        return Raise(sub.error);
      }
      errors := errors + sub.value;
      i := i + 1;
    }
    VerdictOf(env, c, request, ctx);
    if |errors| > 0 {
      return Ok(Reject(CreateRichValidationError(errors)));
    }
    return Ok(Accept);
  }

  /** The context of a unary call and of element `i` of a stream. */
  const UnaryContext := ValidationContext(false, None)

  function StreamContext(i: nat): ValidationContext
  {
    ValidationContext(true, Some(i))
  }

  /** How a stream ends: every request reached the handler, or request
      `index` was rejected after `requests[..index]` had reached it. */
  datatype StreamOutcome = Forwarded(requests: seq<Message>) | Aborted(index: nat, status: Status)

  /** The verdict on each request of a stream, request `j` being validated
      with context `StreamContext(j)`. */
  function StreamVerdicts(env: Environment, c: Config, requests: seq<Message>): (vs: seq<Result<Verdict>>)
    ensures |vs| == |requests|
    ensures forall j :: 0 <= j < |requests| ==> vs[j] == MessageVerdict(env, c, requests[j], StreamContext(j))
  {
    seq(|requests|, j requires 0 <= j < |requests| => MessageVerdict(env, c, requests[j], StreamContext(j)))
  }

  /** How the stream `requests[i..]` ends, given the verdict on each request,
      the earlier ones having passed. */
  function StreamFrom(vs: seq<Result<Verdict>>, requests: seq<Message>, i: nat): Result<StreamOutcome>
    requires |vs| == |requests| && i <= |requests|
    decreases |requests| - i
  {
    if i == |requests| then Ok(Forwarded(requests))
    else
      match vs[i]
      case Raise(e) => Raise(e)
      case Ok(Reject(status)) => Ok(Aborted(i, status))
      case Ok(Accept) => StreamFrom(vs, requests, i + 1)
  }

  /** `validate_streaming` (validate_args_decorator.py:155-158): each request
      is validated, with its position in the context, before it is passed on. */
  method ValidateStreaming(env: Environment, c: Config, requests: seq<Message>) returns (r: Result<StreamOutcome>)
    ensures r == StreamFrom(StreamVerdicts(env, c, requests), requests, 0)
  {
    ghost var vs := StreamVerdicts(env, c, requests);
    var i := 0;
    while i < |requests|
      invariant 0 <= i <= |requests|
      invariant StreamFrom(vs, requests, i) == StreamFrom(vs, requests, 0)
    {
      var verdict := ValidateMessage(env, c, requests[i], StreamContext(i));
      assert verdict == vs[i];
      if verdict.Raise? {
        return Raise(verdict.error);
      }
      if verdict.value.Reject? {
        return Ok(Aborted(i, verdict.value.status));
      }
      i := i + 1;
    }
    return Ok(Forwarded(requests));
  }

  /** The stream is cut at its first failing request: everything before it
      passed, it was rejected (or raised), and nothing after it is looked at;
      a stream is forwarded whole only when every request passes. */
  lemma {:induction false} StreamStopsAtFirstFailure(vs: seq<Result<Verdict>>, requests: seq<Message>, i: nat)
    requires |vs| == |requests| && i <= |requests|
    requires forall j :: 0 <= j < i ==> vs[j] == Ok(Accept)
    ensures var r := StreamFrom(vs, requests, i);
            && (r.Ok? && r.value.Forwarded? ==>
                  r.value.requests == requests && forall j :: 0 <= j < |requests| ==> vs[j] == Ok(Accept))
            && (r.Ok? && r.value.Aborted? ==>
                  r.value.index < |requests|
                  && (forall j :: 0 <= j < r.value.index ==> vs[j] == Ok(Accept))
                  && vs[r.value.index] == Ok(Reject(r.value.status)))
            && (r.Raise? ==>
                  exists k :: 0 <= k < |requests|
                    && (forall j :: 0 <= j < k ==> vs[j] == Ok(Accept))
                    && vs[k] == Raise(r.error))
    decreases |requests| - i
  {
    if i < |requests| && vs[i] == Ok(Accept) {
      StreamStopsAtFirstFailure(vs, requests, i + 1);
    }
  }
}
