/** src/grpc_argument_validator/validate_streaming_args_decorator.py: the
    decorator for client-streaming calls. Configuration differs from the unary
    one in that each `has` entry is rewritten into a presence validator on its
    parent path, written into the caller's `validators` dict; the walk has no
    presence test and no optional flag, collects raw reasons, and each request
    of the stream is validated, with its index, before it reaches the handler. */
module ValidateStreamingArgsDecorator {
  import opened Outcomes
  import opened Strings
  import opened Messages
  import opened Dicts
  import opened DictAssignments
  import opened StreamingArgumentValidators
  import Fields
  import Unary = ValidateArgsDecorator

  type ValidatorMap = Dict<Option<StreamingValidator>>

  /** The dict object a caller passes as `validators`. The decorator writes
      the rewritten `has` entries into it when it is non-empty. */
  class ValidatorDict {
    var entries: ValidatorMap

    constructor (entries: ValidatorMap)
      ensures this.entries == entries
    {
      this.entries := entries;
    }
  }

  /** The decorator's arguments other than `validators`, which is passed as an
      object of its own. */
  datatype StreamingConfig = StreamingConfig(
    has: Option<seq<string>>,
    uuids: Option<seq<string>>,
    nonDefault: Option<seq<string>>,
    nonEmpty: Option<seq<string>>,
    optionalUuids: Option<seq<string>>,
    optionalNonEmpty: Option<seq<string>>,
    optionalNonDefault: Option<seq<string>>,
    optionalValidators: Option<ValidatorMap>)

  /** `all(arg is None for arg in locals().values())` (line 66) */
  predicate AllNone(c: StreamingConfig, validators: Option<ValidatorMap>)
  {
    c.has.None? && c.uuids.None? && c.nonDefault.None? && c.nonEmpty.None? && c.optionalUuids.None?
    && c.optionalNonEmpty.None? && c.optionalNonDefault.None? && validators.None? && c.optionalValidators.None?
  }

  // ---------------------------------------------------------------------------
  // The `has` rewrite (lines 77-85)
  // ---------------------------------------------------------------------------

  /** `*path, value_name = h.split(".")`, then `"."` for an empty `path`, else
      `".".join(path)`. */
  function Parent(h: string): string
  {
    var parts := Split(h);
    var path := parts[..|parts| - 1];
    if path == [] then "." else Join(path)
  }

  /** `value_name`: the last piece of `h`. */
  function Child(h: string): string
  {
    var parts := Split(h);
    parts[|parts| - 1]
  }

  /** A dot-free entry is a field of the root message, its parent being "."
      and its child the entry itself; otherwise the entry is its parent path
      and its child, a dot-free name, joined by a dot. */
  lemma ParentChild(h: string)
    ensures '.' !in h ==> Parent(h) == "." && Child(h) == h
    ensures '.' in h ==> Parent(h) + "." + Child(h) == h && '.' !in Child(h)
  {
    var parts := Split(h);
    JoinSplit(h);
    if '.' !in h {
      SplitPrepend(h, "");
      assert h + "" == h && h + Split("")[0] == h;
    } else {
      JoinSnoc(parts);
    }
  }

  /** The assignment `validators_value[path_str] = StreamingHasFieldValidator(value_name)`
      made for each `has` entry, in order. */
  function HasEntries(has: seq<string>): (r: seq<(string, Option<StreamingValidator>)>)
    ensures |r| == |has|
    ensures forall j :: 0 <= j < |has| ==> r[j] == (Parent(has[j]), Some(HasField(Child(has[j]))))
  {
    seq(|has|, j requires 0 <= j < |has| => (Parent(has[j]), Some(HasField(Child(has[j])))))
  }

  /** The dict after the whole `has` loop. */
  function RewriteHas(d: ValidatorMap, has: seq<string>): ValidatorMap
  {
    AssignAll(d, HasEntries(has), |has|)
  }

  /** After the `has` loop the parent path of the last `has` entry under it
      maps to that entry's presence check, overriding an explicit validator
      of the caller's for the same path. */
  lemma LastHasWins(d: ValidatorMap, has: seq<string>, j: nat)
    requires j < |has|
    requires forall j' :: j < j' < |has| ==> Parent(has[j']) != Parent(has[j])
    ensures Get(RewriteHas(d, has), Parent(has[j])) == Some(Some(HasField(Child(has[j]))))
  {
    var pairs := HasEntries(has);
    LastWriteSeen(d, pairs, |has|, j);
  }

  /** A path that is no `has` entry's parent keeps the caller's entry. */
  lemma OtherPathsKept(d: ValidatorMap, has: seq<string>, k: string)
    requires forall j :: 0 <= j < |has| ==> Parent(has[j]) != k
    ensures Get(RewriteHas(d, has), k) == Get(d, k)
  {
    LastWriteWins(d, HasEntries(has), |has|, k);
  }

  /** The `has` loop keeps the caller's keys first and in order and adds the
      parent path of every `has` entry, and nothing else. */
  lemma RewriteKeys(d: ValidatorMap, has: seq<string>)
    ensures var ks := Keys(RewriteHas(d, has));
            && |Keys(d)| <= |ks| && ks[..|Keys(d)|] == Keys(d)
            && (forall j :: 0 <= j < |has| ==> Parent(has[j]) in ks)
            && (forall k :: k in ks ==> k in Keys(d) || exists j :: 0 <= j < |has| && Parent(has[j]) == k)
  {
    AssignAllKeys(d, HasEntries(has), |has|);
  }

  /** The `has` loop (lines 79-85), writing into `target` in place. */
  method ApplyHas(target: ValidatorDict, has: seq<string>)
    modifies target
    ensures target.entries == RewriteHas(old(target.entries), has)
  {
    ghost var start := target.entries;
    ghost var pairs := HasEntries(has);
    var i := 0;
    while i < |has|
      invariant 0 <= i <= |has|
      invariant target.entries == AssignAll(start, pairs, i)
    {
      target.entries := Assign(target.entries, Parent(has[i]), Some(HasField(Child(has[i]))));
      assert target.entries == AssignAll(start, pairs, i + 1);
      i := i + 1;
    }
  }

  // ---------------------------------------------------------------------------
  // Configuration checks (lines 66-111)
  // ---------------------------------------------------------------------------

  /** `field_names` (lines 87-98): no `has` bucket; the rewritten parents are
      among the keys of `validators`. */
  function FieldNames(c: StreamingConfig, validators: ValidatorMap): seq<string>
  {
    OrEmpty(c.uuids) + OrEmpty(c.optionalUuids) + OrEmpty(c.nonEmpty) + OrEmpty(c.optionalNonEmpty)
    + OrEmpty(c.nonDefault) + OrEmpty(c.optionalNonDefault) + Keys(validators) + Keys(OrEmptyDict(c.optionalValidators))
  }

  /** `mandatory_fields` (line 102), rewritten `has` parents included. */
  function MandatoryFields(c: StreamingConfig, validators: ValidatorMap): set<string>
  {
    ToSet(OrEmpty(c.uuids) + OrEmpty(c.nonEmpty) + OrEmpty(c.nonDefault) + Keys(validators))
  }

  /** `optional_fields` (lines 103-108) */
  function OptionalFields(c: StreamingConfig): set<string>
  {
    ToSet(OrEmpty(c.optionalUuids) + OrEmpty(c.optionalNonEmpty) + OrEmpty(c.optionalNonDefault)
          + Keys(OrEmptyDict(c.optionalValidators)))
  }

  /** What the wrapper keeps: the paths to walk and the rewritten validators. */
  datatype Prepared = Prepared(fieldNames: seq<string>, validators: ValidatorMap)

  /** `validators_value` after the rewrite. */
  function EffectiveValidators(c: StreamingConfig, validators: Option<ValidatorMap>): ValidatorMap
  {
    RewriteHas(OrEmptyDict(validators), OrEmpty(c.has))
  }

  /** The checks after the rewrite (lines 87-111): the first ill-formed path
      is reported before an overlap. */
  function ConfigError(c: StreamingConfig, validators: ValidatorMap): Option<Exception>
  {
    Unary.NamesError(FieldNames(c, validators), MandatoryFields(c, validators) * OptionalFields(c) != {})
  }

  /** `validate_streaming_args(...)` as a function of the arguments' values:
      raises on an all-None configuration, then as `ConfigError` says on the
      rewritten one; otherwise keeps the paths and the rewritten validators. */
  function Compile(c: StreamingConfig, validators: Option<ValidatorMap>): (r: Result<Prepared>)
    ensures AllNone(c, validators) <==> r == Raise(ValueError(Unary.NoFieldsMessage))
    ensures var eff := EffectiveValidators(c, validators);
            !AllNone(c, validators) && ConfigError(c, eff).Some? ==> r == Raise(ConfigError(c, eff).value)
    ensures var eff := EffectiveValidators(c, validators);
            !AllNone(c, validators) && ConfigError(c, eff).None? ==> r == Ok(Prepared(FieldNames(c, eff), eff))
    ensures var eff := EffectiveValidators(c, validators);
            r.Ok? ==> (forall p :: p in FieldNames(c, eff) ==> Fields.IsValidFieldPath(p))
                      && MandatoryFields(c, eff) * OptionalFields(c) == {}
  {
    if AllNone(c, validators) then Raise(ValueError(Unary.NoFieldsMessage))
    else
      var eff := EffectiveValidators(c, validators);
      Unary.NamesErrorMeaning(FieldNames(c, eff), MandatoryFields(c, eff) * OptionalFields(c) != {});
      match ConfigError(c, eff)
      case Some(e) => Raise(e)
      case None => Ok(Prepared(FieldNames(c, eff), eff))
  }

  /** `validate_streaming_args(...)` up to the wrapper (lines 66-111). The
      caller's dict is written into when it is non-empty (`validators or
      dict()` keeps the very object), and a fresh dict is used otherwise. */
  method ValidateStreamingArgs(c: StreamingConfig, validators: Option<ValidatorDict>) returns (r: Result<Prepared>)
    modifies if validators.Some? then {validators.value} else {}
    ensures r == Compile(c, if validators.Some? then Some(old(validators.value.entries)) else None)
    ensures validators.Some? ==>
              validators.value.entries ==
                if old(validators.value.entries) != [] then RewriteHas(old(validators.value.entries), OrEmpty(c.has))
                else old(validators.value.entries)
  {
    var passed := if validators.Some? then Some(validators.value.entries) else None;
    if AllNone(c, passed) {
      return Raise(ValueError(Unary.NoFieldsMessage));
    }
    var target: ValidatorDict;
    if validators.Some? && validators.value.entries != [] {
      target := validators.value;
    } else {
      target := new ValidatorDict([]);
    }
    ApplyHas(target, OrEmpty(c.has));
    var e := ConfigError(c, target.entries);
    if e.Some? {
      return Raise(e.value);
    }
    return Ok(Prepared(FieldNames(c, target.entries), target.entries));
  }

  /** Rewritten `has` paths are mandatory and are among the paths walked, so
      naming one in an optional bucket is an overlap. */
  lemma HasParentsAreMandatory(c: StreamingConfig, validators: Option<ValidatorMap>, j: nat)
    requires j < |OrEmpty(c.has)|
    ensures var eff := EffectiveValidators(c, validators);
            Parent(OrEmpty(c.has)[j]) in MandatoryFields(c, eff) && Parent(OrEmpty(c.has)[j]) in FieldNames(c, eff)
  {
    RewriteKeys(OrEmptyDict(validators), OrEmpty(c.has));
  }

  /** `has=["-"]` alone passes every configuration check: "-" is rewritten to
      a presence check on ".", and "." is a well-formed path. */
  lemma IllFormedHasEntryPasses()
    ensures var c := StreamingConfig(Some(["-"]), None, None, None, None, None, None, None);
            Compile(c, None) == Ok(Prepared(["."], [(".", Some(HasField("-")))]))
  {
    var c := StreamingConfig(Some(["-"]), None, None, None, None, None, None, None);
    assert Split("-") == ["-"] by {
      assert Split("") == [""];
      var rest := Split("-"[1..]);
      assert "-"[1..] == "";
      assert rest == [""];
      assert |"-"| == 1 && "-"[0] == '-';
      assert "-" == ['-'];
      assert ['-'] + rest[0] == ['-'];
      assert rest[1..] == [];
    }
    assert Parent("-") == "." && Child("-") == "-";
    assert HasEntries(["-"]) == [(".", Some(HasField("-")))];
    assert RewriteHas([], ["-"]) == [(".", Some(HasField("-")))];
    var eff := EffectiveValidators(c, None);
    assert FieldNames(c, eff) == ["."];
    assert Fields.Parse(".") == Some(Fields.Root);
    assert OptionalFields(c) == {};
  }

  // ---------------------------------------------------------------------------
  // The path walk (lines 150-205)
  // ---------------------------------------------------------------------------

  /** What the leaf checks of one walk share. */
  datatype StreamingChecks = StreamingChecks(env: StreamingEnvironment, index: nat, validators: seq<StreamingValidator>)

  /** One `v.check(...)`; an invalid result appends its raw reason. */
  function CheckInto(k: StreamingChecks, v: StreamingValidator, name: string, value: Value, descriptor: Descriptor,
                     acc: seq<Option<string>>): Result<seq<Option<string>>>
  {
    match Check(k.env, v, k.index, name, value, descriptor)
    case Raise(e) => Raise(e)
    case Ok(res) => Ok(if res.valid then acc else acc + [res.invalidReason])
  }

  /** One validator over the elements `j..` (lines 197-200). */
  function ElementChecksFrom(k: StreamingChecks, v: StreamingValidator, items: seq<Value>, descriptor: Descriptor,
                             full: string, j: nat, acc: seq<Option<string>>): Result<seq<Option<string>>>
    requires j <= |items|
    decreases |items| - j
  {
    if j == |items| then Ok(acc)
    else
      match CheckInto(k, v, Unary.ElementName(full, j), items[j], descriptor, acc)
      case Raise(e) => Raise(e)
      case Ok(acc') => ElementChecksFrom(k, v, items, descriptor, full, j + 1, acc')
  }

  /** One validator at the last segment (lines 196-204). */
  function ApplyValidator(k: StreamingChecks, v: StreamingValidator, raw: string, value: Value, descriptor: Descriptor,
                          full: string, acc: seq<Option<string>>): Result<seq<Option<string>>>
  {
    if EndsWith(raw, "[]") && descriptor.MessageDescriptor? then Raise(AttributeError("label"))
    else if EndsWith(raw, "[]") && descriptor.repeated then
      if !value.List? then Raise(TypeError(Unary.NotIterable))
      else ElementChecksFrom(k, v, value.items, descriptor, full, 0, acc)
    else CheckInto(k, v, full, value, descriptor, acc)
  }

  /** The validators `n..` at the last segment (lines 195-204). */
  function ValidatorsFrom(k: StreamingChecks, raw: string, value: Value, descriptor: Descriptor, full: string,
                          n: nat, acc: seq<Option<string>>): Result<seq<Option<string>>>
    requires n <= |k.validators|
    decreases |k.validators| - n
  {
    if n == |k.validators| then Ok(acc)
    else
      match ApplyValidator(k, k.validators[n], raw, value, descriptor, full, acc)
      case Raise(e) => Raise(e)
      case Ok(acc') => ValidatorsFrom(k, raw, value, descriptor, full, n + 1, acc')
  }

  /** `_recurse_validate(message_index, message, name, validators,
      leading_parts_name)`: the raw reasons found along path `name`. Unlike
      the unary walk, an unset sub-message is walked into like any other. */
  function Resolve(k: StreamingChecks, message: Value, name: string, leading: Option<string>): Result<seq<Option<string>>>
    decreases |Split(name)|, 1, 0
  {
    var parts := Split(name);
    var raw := parts[0];
    var field := RStripBrackets(raw);
    var remaining := DropEmpty(parts[1..]);
    if !message.Msg? then Raise(AttributeError("DESCRIPTOR"))
    else
      var m := message.message;
      if leading.None? && field == "" then
        if remaining != [] then Raise(AttributeError("label"))
        else ValidatorsFrom(k, raw, message, MessageDescriptor(m.typeName), m.typeName, 0, [])
      else if field !in m.fields then Raise(KeyError(field))
      else
        var f := m.fields[field];
        var full := Unary.FullName(leading, field);
        if remaining == [] then ValidatorsFrom(k, raw, f.value, DescriptorOf(f), full, 0, [])
        else
          RemainingPath(name);
          var rest := Join(remaining);
          if !f.repeated then Resolve(k, f.value, rest, Some(full))
          else if !f.value.List? then Raise(TypeError(Unary.NotIterable))
          else ElementsFrom(k, f.value.items, rest, full, 0, [])
  }

  /** The walk below each element `i..` of a repeated field (lines 173-183). */
  function ElementsFrom(k: StreamingChecks, items: seq<Value>, rest: string, full: string, i: nat,
                        acc: seq<Option<string>>): Result<seq<Option<string>>>
    requires i <= |items|
    decreases |Split(rest)| + 1, 0, |items| - i
  {
    if i == |items| then Ok(acc)
    else
      match Resolve(k, items[i], rest, Some(Unary.ElementName(full, i)))
      case Raise(e) => Raise(e)
      case Ok(es) => ElementsFrom(k, items, rest, full, i + 1, acc + es)
  }

  /** `_recurse_validate`, step by step. */
  method RecurseValidate(k: StreamingChecks, message: Value, name: string, leading: Option<string>)
    returns (r: Result<seq<Option<string>>>)
    ensures r == Resolve(k, message, name, leading)
    decreases |Split(name)|, 1, 0
  {
    var parts := Split(name);
    var raw := parts[0];
    var field := RStripBrackets(raw);
    var remaining := DropEmpty(parts[1..]);
    if !message.Msg? {
      return Raise(AttributeError("DESCRIPTOR"));
    }
    var m := message.message;
    var value: Value;
    var descriptor: Descriptor;
    var full: string;
    if leading.None? && field == "" {
      value := message;
      descriptor := MessageDescriptor(m.typeName);
      full := m.typeName;
    } else {
      if field !in m.fields {
        return Raise(KeyError(field));
      }
      var f := m.fields[field];
      descriptor := DescriptorOf(f);
      full := Unary.FullName(leading, field);
      value := f.value;
    }
    if remaining != [] {
      if descriptor.MessageDescriptor? {
        return Raise(AttributeError("label"));
      }
      RemainingPath(name);
      var rest := Join(remaining);
      if descriptor.repeated {
        if !value.List? {
          return Raise(TypeError(Unary.NotIterable));
        }
        r := WalkElements(k, value.items, rest, full);
      } else {
        r := RecurseValidate(k, value, rest, Some(full));
      }
    } else {
      r := RunValidators(k, raw, value, descriptor, full);
    }
  }

  /** The loop over the elements of a repeated field (lines 173-183). */
  method WalkElements(k: StreamingChecks, items: seq<Value>, rest: string, full: string)
    returns (r: Result<seq<Option<string>>>)
    ensures r == ElementsFrom(k, items, rest, full, 0, [])
    decreases |Split(rest)| + 1, 0, 0
  {
    var errors: seq<Option<string>> := [];
    var i := 0;
    while i < |items|
      invariant 0 <= i <= |items|
      invariant ElementsFrom(k, items, rest, full, i, errors) == ElementsFrom(k, items, rest, full, 0, [])
    {
      var sub := RecurseValidate(k, items[i], rest, Some(Unary.ElementName(full, i)));
      if sub.Raise? {
        return sub;
      }
      errors := errors + sub.value;
      i := i + 1;
    }
    return Ok(errors);
  }

  /** The loop over the validators at the last segment (lines 195-204). */
  method RunValidators(k: StreamingChecks, raw: string, value: Value, descriptor: Descriptor, full: string)
    returns (r: Result<seq<Option<string>>>)
    ensures r == ValidatorsFrom(k, raw, value, descriptor, full, 0, [])
  {
    var errors: seq<Option<string>> := [];
    var n := 0;
    while n < |k.validators|
      invariant 0 <= n <= |k.validators|
      invariant ValidatorsFrom(k, raw, value, descriptor, full, n, errors)
             == ValidatorsFrom(k, raw, value, descriptor, full, 0, [])
    {
      var v := k.validators[n];
      if EndsWith(raw, "[]") && descriptor.MessageDescriptor? {
        return Raise(AttributeError("label"));
      }
      if EndsWith(raw, "[]") && descriptor.repeated {
        if !value.List? {
          return Raise(TypeError(Unary.NotIterable));
        }
        var items := value.items;
        ghost var before := errors;
        var j := 0;
        while j < |items|
          invariant 0 <= j <= |items|
          invariant ElementChecksFrom(k, v, items, descriptor, full, j, errors)
                 == ElementChecksFrom(k, v, items, descriptor, full, 0, before)
        {
          var res := Check(k.env, v, k.index, Unary.ElementName(full, j), items[j], descriptor);
          if res.Raise? {
            return Raise(res.error);
          }
          if !res.value.valid {
            errors := errors + [res.value.invalidReason];
          }
          j := j + 1;
        }
      } else {
        var res := Check(k.env, v, k.index, full, value, descriptor);
        if res.Raise? {
          return Raise(res.error);
        }
        if !res.value.valid {
          errors := errors + [res.value.invalidReason];
        }
      }
      n := n + 1;
    }
    return Ok(errors);
  }

  // ---------------------------------------------------------------------------
  // Per-request validation and the stream (lines 116-143)
  // ---------------------------------------------------------------------------

  /** The explicit validator for a path (lines 127-130). */
  function ExplicitValidator(c: StreamingConfig, validators: ValidatorMap, path: string): seq<StreamingValidator>
  {
    var ov := OrEmptyDict(c.optionalValidators);
    if path in Keys(validators) + Keys(ov) then
      var found := Get(Merge(validators, ov), path);
      if found.Some? && found.value.Some? then [found.value.value] else []
    else []
  }

  /** The lookup in `{**validators, **optional_validators}` finds the optional
      dict's entry first, and a None entry contributes no validator. */
  lemma ExplicitValidatorLookup(c: StreamingConfig, validators: ValidatorMap, path: string)
    ensures var ov := OrEmptyDict(c.optionalValidators);
            var r := ExplicitValidator(c, validators, path);
            r == (if path in Keys(ov) then (if Get(ov, path).value.Some? then [Get(ov, path).value.value] else [])
                  else if path in Keys(validators) then
                    (if Get(validators, path).value.Some? then [Get(validators, path).value.value] else [])
                  else [])
  {
    GetMerge(validators, OrEmptyDict(c.optionalValidators), path);
  }

  /** The validators of one path (lines 120-130), in the order UUID,
      non-empty, non-default, explicit; optional buckets contribute like
      mandatory ones. */
  function RuleValidators(c: StreamingConfig, validators: ValidatorMap, path: string): seq<StreamingValidator>
  {
    (if path in OrEmpty(c.uuids) + OrEmpty(c.optionalUuids) then [StreamingUUIDBytes] else [])
    + (if path in OrEmpty(c.nonEmpty) + OrEmpty(c.optionalNonEmpty) then [StreamingNonEmpty] else [])
    + (if path in OrEmpty(c.nonDefault) + OrEmpty(c.optionalNonDefault) then [StreamingNonDefault] else [])
    + ExplicitValidator(c, validators, path)
  }

  /** A `has` entry whose parent no later entry rewrites, and which the
      optional validators do not name, puts the presence check last among its
      parent path's validators. */
  lemma HasCheckRuns(c: StreamingConfig, validators: Option<ValidatorMap>, j: nat)
    requires j < |OrEmpty(c.has)|
    requires forall j' :: j < j' < |OrEmpty(c.has)| ==> Parent(OrEmpty(c.has)[j']) != Parent(OrEmpty(c.has)[j])
    requires Parent(OrEmpty(c.has)[j]) !in Keys(OrEmptyDict(c.optionalValidators))
    ensures var vs := RuleValidators(c, EffectiveValidators(c, validators), Parent(OrEmpty(c.has)[j]));
            |vs| > 0 && vs[|vs| - 1] == HasField(Child(OrEmpty(c.has)[j]))
  {
    var h := OrEmpty(c.has)[j];
    var eff := EffectiveValidators(c, validators);
    LastHasWins(OrEmptyDict(validators), OrEmpty(c.has), j);
    assert Get(eff, Parent(h)) == Some(Some(HasField(Child(h))));
    ExplicitValidatorLookup(c, eff, Parent(h));
    assert ExplicitValidator(c, eff, Parent(h)) == [HasField(Child(h))];
  }

  /** The raw reasons for the paths `names[i..]` of request `index`. */
  function FieldErrorsFrom(env: StreamingEnvironment, c: StreamingConfig, p: Prepared, index: nat, request: Message,
                           i: nat, acc: seq<Option<string>>): Result<seq<Option<string>>>
    requires i <= |p.fieldNames|
    decreases |p.fieldNames| - i
  {
    if i == |p.fieldNames| then Ok(acc)
    else
      var k := StreamingChecks(env, index, RuleValidators(c, p.validators, p.fieldNames[i]));
      match Resolve(k, Msg(request), p.fieldNames[i], None)
      case Raise(e) => Raise(e)
      case Ok(es) => FieldErrorsFrom(env, c, p, index, request, i + 1, acc + es)
  }

  function MessageErrors(env: StreamingEnvironment, c: StreamingConfig, p: Prepared, index: nat, request: Message)
    : Result<seq<Option<string>>>
  {
    FieldErrorsFrom(env, c, p, index, request, 0, [])
  }

  /** Whether every reason is a string. */
  predicate AllStrings(reasons: seq<Option<string>>)
  {
    forall i :: 0 <= i < |reasons| ==> reasons[i].Some?
  }

  function ReasonStrings(reasons: seq<Option<string>>): (r: seq<string>)
    requires AllStrings(reasons)
    ensures |r| == |reasons| && forall i :: 0 <= i < |r| ==> Some(r[i]) == reasons[i]
  {
    seq(|reasons|, i requires 0 <= i < |reasons| => reasons[i].value)
  }

  /** `", ".join(errors)`, which raises TypeError on a None reason. */
  function JoinReasons(reasons: seq<Option<string>>): (r: Result<string>)
    ensures r.Raise? <==> !AllStrings(reasons)
    ensures r.Ok? ==> r.value == JoinWith(", ", ReasonStrings(reasons))
  {
    if AllStrings(reasons) then Ok(JoinWith(", ", ReasonStrings(reasons)))
    else Raise(TypeError("sequence item: expected str instance, NoneType found"))
  }

  /** The outcome of the streaming `validate_message`: the request is passed
      on, or the call is aborted with a message. */
  datatype StreamingVerdict = Pass | Abort(message: string)

  /** `validate_message(message_index, request)` (lines 116-137). */
  function MessageVerdict(env: StreamingEnvironment, c: StreamingConfig, p: Prepared, index: nat, request: Message)
    : (r: Result<StreamingVerdict>)
    ensures r == Ok(Pass) <==> MessageErrors(env, c, p, index, request) == Ok([])
    ensures r.Ok? && r.value.Abort? ==>
              MessageErrors(env, c, p, index, request).Ok? &&
              var errors := MessageErrors(env, c, p, index, request).value;
              && errors != [] && AllStrings(errors)
              && |r.value.message| <= Unary.SummaryLimit
              && r.value.message == Truncate(JoinWith(", ", ReasonStrings(errors)), Unary.SummaryLimit)
    ensures MessageErrors(env, c, p, index, request).Ok? ==>
              (!AllStrings(MessageErrors(env, c, p, index, request).value) ==> r.Raise? && r.error.TypeError?)
  {
    match MessageErrors(env, c, p, index, request)
    case Raise(e) => Raise(e)
    case Ok(errors) =>
      if |errors| > 0 then
        match JoinReasons(errors)
        case Raise(e) => Raise(e)
        case Ok(joined) => Ok(Abort(Truncate(joined, Unary.SummaryLimit)))
      else Ok(Pass)
  }

  /** One step of `FieldErrorsFrom`, for a walk whose outcome is `sub`. */
  lemma FieldErrorsStep(env: StreamingEnvironment, c: StreamingConfig, p: Prepared, index: nat, request: Message,
                        i: nat, acc: seq<Option<string>>, sub: Result<seq<Option<string>>>)
    requires i < |p.fieldNames|
    requires sub == Resolve(StreamingChecks(env, index, RuleValidators(c, p.validators, p.fieldNames[i])),
                            Msg(request), p.fieldNames[i], None)
    ensures sub.Raise? ==> FieldErrorsFrom(env, c, p, index, request, i, acc) == Raise(sub.error)
    ensures sub.Ok? ==> FieldErrorsFrom(env, c, p, index, request, i, acc)
                        == FieldErrorsFrom(env, c, p, index, request, i + 1, acc + sub.value)
  {
  }

  /** How the verdict follows from the reasons found. */
  lemma VerdictOf(env: StreamingEnvironment, c: StreamingConfig, p: Prepared, index: nat, request: Message)
    ensures MessageVerdict(env, c, p, index, request) ==
              match MessageErrors(env, c, p, index, request)
              case Raise(e) => Raise(e)
              case Ok(errors) =>
                if |errors| > 0 then
                  match JoinReasons(errors)
                  case Raise(e) => Raise(e)
                  case Ok(joined) => Ok(Abort(Truncate(joined, Unary.SummaryLimit)))
                else Ok(Pass)
  {
  }

  /** The streaming `validate_message`, with its loop over `field_names`. */
  method ValidateMessage(env: StreamingEnvironment, c: StreamingConfig, p: Prepared, index: nat, request: Message)
    returns (r: Result<StreamingVerdict>)
    ensures r == MessageVerdict(env, c, p, index, request)
  {
    var errors: seq<Option<string>> := [];
    var i := 0;
    while i < |p.fieldNames|
      invariant 0 <= i <= |p.fieldNames|
      invariant FieldErrorsFrom(env, c, p, index, request, i, errors) == MessageErrors(env, c, p, index, request)
    {
      var fieldValidators := RuleValidators(c, p.validators, p.fieldNames[i]);
      var sub := RecurseValidate(StreamingChecks(env, index, fieldValidators), Msg(request), p.fieldNames[i], None);
      FieldErrorsStep(env, c, p, index, request, i, errors, sub);
      if sub.Raise? {
        VerdictOf(env, c, p, index, request);
        return Raise(sub.error);
      }
      errors := errors + sub.value;
      i := i + 1;
    }
    VerdictOf(env, c, p, index, request);
    if |errors| > 0 {
      var joined := JoinReasons(errors);
      if joined.Raise? {
        return Raise(joined.error);
      }
      return Ok(Abort(Truncate(joined.value, Unary.SummaryLimit)));
    }
    return Ok(Pass);
  }

  /** How a stream ends: every request was passed on, or request `index` was
      rejected after `requests[..index]` had been passed on. */
  datatype StreamOutcome = Forwarded(requests: seq<Message>) | Aborted(index: nat, message: string)

  /** The verdict on each request of a stream, request `j` being validated
      with index `j`. */
  function StreamVerdicts(env: StreamingEnvironment, c: StreamingConfig, p: Prepared, requests: seq<Message>)
    : (vs: seq<Result<StreamingVerdict>>)
    ensures |vs| == |requests|
    ensures forall j :: 0 <= j < |requests| ==> vs[j] == MessageVerdict(env, c, p, j, requests[j])
  {
    seq(|requests|, j requires 0 <= j < |requests| => MessageVerdict(env, c, p, j, requests[j]))
  }

  /** How the stream `requests[i..]` ends, given the verdict on each request,
      the earlier ones having passed. */
  function StreamFrom(vs: seq<Result<StreamingVerdict>>, requests: seq<Message>, i: nat): Result<StreamOutcome>
    requires |vs| == |requests| && i <= |requests|
    decreases |requests| - i
  {
    if i == |requests| then Ok(Forwarded(requests))
    else
      match vs[i]
      case Raise(e) => Raise(e)
      case Ok(Abort(message)) => Ok(Aborted(i, message))
      case Ok(Pass) => StreamFrom(vs, requests, i + 1)
  }

  /** `request_validator` (lines 139-141): request `i` is validated with index
      `i` before it is yielded. */
  method RequestValidator(env: StreamingEnvironment, c: StreamingConfig, p: Prepared, requests: seq<Message>)
    returns (r: Result<StreamOutcome>)
    ensures r == StreamFrom(StreamVerdicts(env, c, p, requests), requests, 0)
  {
    ghost var vs := StreamVerdicts(env, c, p, requests);
    var i := 0;
    while i < |requests|
      invariant 0 <= i <= |requests|
      invariant StreamFrom(vs, requests, i) == StreamFrom(vs, requests, 0)
    {
      var verdict := ValidateMessage(env, c, p, i, requests[i]);
      assert verdict == vs[i];
      if verdict.Raise? {
        return Raise(verdict.error);
      }
      if verdict.value.Abort? {
        return Ok(Aborted(i, verdict.value.message));
      }
      i := i + 1;
    }
    return Ok(Forwarded(requests));
  }

  /** The stream is cut at its first failing request, and is passed on whole
      only when every request passes. */
  lemma {:induction false} StreamStopsAtFirstFailure(vs: seq<Result<StreamingVerdict>>, requests: seq<Message>, i: nat)
    requires |vs| == |requests| && i <= |requests|
    requires forall j :: 0 <= j < i ==> vs[j] == Ok(Pass)
    ensures var r := StreamFrom(vs, requests, i);
            && (r.Ok? && r.value.Forwarded? ==>
                  r.value.requests == requests && forall j :: 0 <= j < |requests| ==> vs[j] == Ok(Pass))
            && (r.Ok? && r.value.Aborted? ==>
                  r.value.index < |requests|
                  && (forall j :: 0 <= j < r.value.index ==> vs[j] == Ok(Pass))
                  && vs[r.value.index] == Ok(Abort(r.value.message)))
            && (r.Raise? ==>
                  exists k :: 0 <= k < |requests|
                    && (forall j :: 0 <= j < k ==> vs[j] == Ok(Pass))
                    && vs[k] == Raise(r.error))
    decreases |requests| - i
  {
    if i < |requests| && vs[i] == Ok(Pass) {
      StreamStopsAtFirstFailure(vs, requests, i + 1);
    }
  }
}
