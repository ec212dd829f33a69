# grpc-argument-validator: the field-path validation engine in Dafny

This project models the core of `grpc_argument_validator`. The library is
a pair of Python decorators, `validate_args` (unary and streaming-response
calls) and `validate_streaming_args` (client-streaming calls). Each checks
the fields of incoming protobuf requests against a configuration of field
paths.

- **Configuration.** When a decorator is applied, it checks its
  configuration once:
  - at least one argument must be given;
  - every path must be well formed under the path grammar;
  - no path may be both mandatory and optional.

  It then fixes the list of paths to walk. The streaming decorator first
  rewrites each `has` entry into a presence validator on the entry's parent
  path. When the caller passed a non-empty `validators` dict, the rewrite
  is written into that dict object; otherwise (`validators or dict()`) into
  a fresh one.
- **Per request.** For every request, each path is walked through the
  message:
  - the root reference `.`;
  - unset singular sub-messages;
  - repeated fields, whose elements are named `path[i]`;
  - a trailing `[]`, which applies the validators to each element.

  The leaf validators (UUID bytes, non-empty, non-default, regexp, custom)
  produce violations in a fixed order. If any exist, the call is aborted
  with the reasons joined by `", "` and cut to 1000 characters.
- **Streams.** Each request of a stream is validated, with its index,
  before it is passed on. The first failing request ends the stream.

## How the model is built

- **Values.** Python values are datatypes:
  - a message is its type name and a map from field name to a field record
    (`repeated`, `isMessage`, `hasField`, `default`, `value`);
  - Python exceptions are an explicit `Raise(Exception)` outcome;
  - dicts are insertion-ordered association lists.
- **Pure code.** The grammar, the leaf checks and the configuration checks
  are functions, with lemmas about them.
- **Imperative code.** The loops of the source are methods:
  - `_recurse_validate` and its loops over elements and validators;
  - `validate_message`'s loop over the paths;
  - the two stream loops;
  - the `has` loop, which assigns into a dict object in place.

  Each method is proved equal to a specification function. For the loops
  that function is a fold over the same list, with an accumulator. For
  `_recurse_validate` it is `Resolve`, which recurses over the pieces of the
  path and, below a repeated field, over its elements.
- **Two path grammars.** The grammar is given twice. In `Fields` it is a
  recogniser that splits on `.`, strips a trailing `[]`, and checks each
  piece is an identifier. In `FieldPath` (the second copy of the regular
  expression) it is a character-by-character automaton. Both are proved
  equal to the language of a syntax datatype. They include the rule that
  `$` also matches before one final newline.

## Model

| member | source | states |
|---|---|---|
| Fields.Parse | src/grpc_argument_validator/fields.py:13 | an accepted path is well formed and is the text of the syntax it returns |
| Fields.ParseRender | src/grpc_argument_validator/fields.py:13 | the recogniser accepts the text of every well-formed path and returns that path (printer and recogniser are inverse) |
| Fields.IsValidFieldPathIsLanguage | src/grpc_argument_validator/fields.py:13 | `is_valid_field_path` holds exactly for the texts of well-formed paths, optionally followed by one newline (`$` before a final `\n`) |
| Fields.FirstInvalidIsFirst | src/grpc_argument_validator/fields.py:26-27 | the search finds a failing name exactly when one exists, and it finds the first |
| Fields.ValidateFieldNamesRejectsFirstInvalid | src/grpc_argument_validator/fields.py:26-32 | `validate_field_names` returns normally iff every name is well formed; otherwise it raises `ValueError` naming the first ill-formed name in iteration order |
| FieldPath.SameAsFields | src/grpc_argument_validator/field_path.py:5 | the duplicate `is_valid_field_path` accepts exactly the strings `fields.is_valid_field_path` accepts |
| FieldPath.AcceptsLanguage | src/grpc_argument_validator/field_path.py:5 | every well-formed path, with or without one trailing newline, is accepted |
| FieldPath.AcceptedIsInLanguage | src/grpc_argument_validator/field_path.py:5 | every accepted string is a well-formed path, with or without one trailing newline |
| FieldPath.FirstCharacter | src/grpc_argument_validator/field_path.py:5 | an accepted path is non-empty and starts with `.` or an ASCII letter (so "0" and "-" are rejected) |
| FieldPath.DotFollowedByLetter | src/grpc_argument_validator/field_path.py:5 | a non-leading dot is followed by a letter (no trailing dot, no empty segment); a leading dot is the whole root path or is followed by a letter |
| FieldPath.MarkerOnlyAtEnd | src/grpc_argument_validator/field_path.py:5 | `[` occurs only as the single `[]` marker ending the last segment (before the optional newline), never first |
| FieldPath.NewlineOnlyAtEnd | src/grpc_argument_validator/field_path.py:5 | the one tolerated newline is the last character |
| FieldPath.AcceptedExamples | src/grpc_argument_validator/field_path.py:5 | ".", "a.b", ".a.b", "tags[]", "a_1" and "a\n" are accepted |
| FieldPath.RejectedExamples | src/grpc_argument_validator/field_path.py:5 | "", "0", "-", "a.", "a..b", "[]", ".." and "1a" are rejected |
| FieldPath.RejectedSuffixExamples | src/grpc_argument_validator/field_path.py:5 | "a[].b", "a[][]" and "a\n\n" are rejected |
| ArgumentValidators.CheckUUIDBytes | src/grpc_argument_validator/argument_validators.py:39-46 | valid iff the value is a byte string of length 16; otherwise "<name> must be a valid UUID", except that a 16-long non-bytes value raises the library's assertion |
| ArgumentValidators.CheckNonDefault | src/grpc_argument_validator/argument_validators.py:52-57 | valid iff the value differs from the descriptor's default; otherwise "<name> must have non-default value"; a message-type descriptor raises |
| ArgumentValidators.CheckNonEmpty | src/grpc_argument_validator/argument_validators.py:63-68 | valid iff `len(value) > 0`; otherwise "<name> must be non-empty"; a value without `len` raises `TypeError` |
| ArgumentValidators.CheckRegexp | src/grpc_argument_validator/argument_validators.py:79-87 | valid iff the fixed pattern matches at the start of the string; otherwise "<name> must match regexp pattern: <pattern>"; a non-string raises `TypeError` |
| ArgumentValidators.Check | src/grpc_argument_validator/argument_validators.py:39-87 | a built-in result is valid iff it has no reason, and an invalid one's reason is the check's text and begins with the name; a custom validator's result is its own |
| ArgumentValidators.BuiltInsIgnoreContext | src/grpc_argument_validator/argument_validators.py:39-87 | no built-in validator depends on the validation context |
| StreamingArgumentValidators.CheckUUIDBytes | src/grpc_argument_validator/streaming_argument_validators.py:38-45 | valid iff 16 bytes; otherwise the unary reason prefixed by "in message request <i> " |
| StreamingArgumentValidators.CheckNonDefault | src/grpc_argument_validator/streaming_argument_validators.py:51-56 | valid iff the value differs from the default; otherwise the index-prefixed reason |
| StreamingArgumentValidators.CheckNonEmpty | src/grpc_argument_validator/streaming_argument_validators.py:62-67 | valid iff `len(value) > 0`; otherwise the index-prefixed reason |
| StreamingArgumentValidators.CheckRegexp | src/grpc_argument_validator/streaming_argument_validators.py:81-88 | valid iff the pattern matches at the start; otherwise the index-prefixed reason naming the pattern |
| StreamingArgumentValidators.CheckHasField | src/grpc_argument_validator/validate_streaming_args_decorator.py:14 | the presence check is valid iff the named singular field of the message is set; it raises on a non-message, an undeclared or a repeated field |
| StreamingArgumentValidators.Check | src/grpc_argument_validator/streaming_argument_validators.py:38-88 | a built-in result is valid iff it carries no reason; a custom validator's result is its own |
| StreamingArgumentValidators.AgreesWithNonStreaming | src/grpc_argument_validator/streaming_argument_validators.py:38-88 | the index changes only the reason: each streaming check raises, accepts and rejects exactly as its unary counterpart, with the reason prefixed by "in message request <i> " |
| Strings.Split | src/grpc_argument_validator/validate_args_decorator.py:196 | `name.split(".")` gives one more piece than there are dots, none containing a dot |
| Strings.SplitJoin | src/grpc_argument_validator/validate_args_decorator.py:226 | joining dot-free pieces with "." and splitting again gives the pieces back |
| Strings.RStripBrackets | src/grpc_argument_validator/validate_args_decorator.py:197 | `rstrip("[]")` is the longest prefix not ending in a bracket, and only brackets were removed |
| Strings.DropEmptyKeepsNonEmpty | src/grpc_argument_validator/validate_args_decorator.py:199 | the filter leaves no empty piece and keeps every non-empty piece exactly as often as it occurs |
| Strings.DropEmptyConcat | src/grpc_argument_validator/validate_args_decorator.py:199 | filtering a concatenation is the concatenation of the filtered parts, so the kept pieces stay in their order |
| Strings.DropEmptyNoEmpty | src/grpc_argument_validator/validate_args_decorator.py:199 | a list without empty pieces is left unchanged |
| Strings.RemainingPath | src/grpc_argument_validator/validate_args_decorator.py:196-199 | the path the walk recurses on splits back into the remaining pieces and has fewer pieces, so the walk terminates |
| Strings.Truncate | src/grpc_argument_validator/validate_args_decorator.py:183 | `s[:n]` is a prefix of `s`; it is exactly `n` long when `s` is longer, and `s` itself otherwise |
| Strings.NatToString | src/grpc_argument_validator/validate_args_decorator.py:227 | `str(i)` is a non-empty string of decimal digits with no leading zero |
| Strings.NatToStringValue | src/grpc_argument_validator/validate_args_decorator.py:227 | the digits of `str(i)` read back in base ten give `i` |
| Strings.NatToStringInjective | src/grpc_argument_validator/validate_args_decorator.py:227 | distinct indices give distinct strings, so element names `full[i]` never collide |
| Dicts.Assign | src/grpc_argument_validator/validate_streaming_args_decorator.py:85 | `d[k] = v` keeps the key order when `k` is present and appends `k` otherwise |
| Dicts.GetAssign | src/grpc_argument_validator/validate_streaming_args_decorator.py:85 | after `d[k] = v`, `k` maps to `v` and every other key to what it did |
| Dicts.GetMerge | src/grpc_argument_validator/validate_args_decorator.py:138 | a lookup in `{**a, **b}` finds `b`'s entry when `b` has the key, else `a`'s |
| DictAssignments.LastWriteWins | src/grpc_argument_validator/validate_streaming_args_decorator.py:79-85 | after a run of assignments a key holds the value of its last write, and an unwritten key keeps its value |
| DictAssignments.AssignAllKeys | src/grpc_argument_validator/validate_streaming_args_decorator.py:79-85 | a run of assignments keeps the original keys first and in order, and adds exactly the keys written |
| ValidateArgsDecorator.ExplicitValidator | src/grpc_argument_validator/validate_args_decorator.py:137-140 | the explicit validator comes from `optional_validators` when it names the path, else from `validators`; a None entry contributes nothing |
| ValidateArgsDecorator.BucketChecksOrder | src/grpc_argument_validator/validate_args_decorator.py:131-136 | the built-in checks are UUID, non-empty, non-default in that order, each present iff its bucket (mandatory or optional) names the path |
| ValidateArgsDecorator.RuleForBuiltIns | src/grpc_argument_validator/validate_args_decorator.py:124-140 | a path's validators are the built-in checks its buckets select, followed by at most one explicit validator |
| ValidateArgsDecorator.AcceptedRuleOptionality | src/grpc_argument_validator/validate_args_decorator.py:109-129 | in an accepted configuration a mandatory path is walked as mandatory and an optional one as optional |
| ValidateArgsDecorator.HasOnlyPath | src/grpc_argument_validator/validate_args_decorator.py:124-140 | a path named only in `has` gets no validators and is mandatory, so only its presence is checked |
| ValidateArgsDecorator.FieldNameErrorDiffers | src/grpc_argument_validator/validate_args_decorator.py:81 | the ill-formed-path error is never the all-None error |
| ValidateArgsDecorator.NamesError | src/grpc_argument_validator/validate_args_decorator.py:107-118 | an ill-formed path is reported before an overlap, and the overlap error is raised iff the paths are well formed and overlap |
| ValidateArgsDecorator.NamesErrorMeaning | src/grpc_argument_validator/validate_args_decorator.py:107-118 | the checks pass iff every path is well formed and no path is both mandatory and optional, and never raise the all-None error |
| ValidateArgsDecorator.ValidateArgs | src/grpc_argument_validator/validate_args_decorator.py:80-118 | "Should provide at least one field to validate" iff every argument is None (empty lists pass); then the first syntax error, then the overlap error; otherwise the rules; success implies every path is well formed and no overlap |
| ValidateArgsDecorator.RecurseValidate | src/grpc_argument_validator/validate_args_decorator.py:187-268 | the walk returns exactly the violations, or the exception, that `Resolve` specifies |
| ValidateArgsDecorator.WalkElements | src/grpc_argument_validator/validate_args_decorator.py:220-232 | the loop over a repeated field's elements equals the fold naming element `i` as `full[i]` |
| ValidateArgsDecorator.RunValidators | src/grpc_argument_validator/validate_args_decorator.py:245-267 | the loop over the validators (and, with `[]` on a repeated field, over the elements) equals the fold `ValidatorsFrom` |
| ValidateArgsDecorator.CreateRichValidationError | src/grpc_argument_validator/validate_args_decorator.py:173-184 | code INVALID_ARGUMENT, the violations as field/description pairs, and a message that is a prefix of the reasons joined by ", ": exactly the first 1000 characters when the join is longer, the whole join otherwise |
| ValidateArgsDecorator.MessageVerdict | src/grpc_argument_validator/validate_args_decorator.py:121-153 | the request passes iff the walks find no violation; it is aborted with exactly the violations found otherwise; a raise in a walk escapes |
| ValidateArgsDecorator.ValidateMessage | src/grpc_argument_validator/validate_args_decorator.py:121-153 | the loop over `field_names` gives exactly `MessageVerdict` |
| ValidateArgsDecorator.ValidateStreaming | src/grpc_argument_validator/validate_args_decorator.py:155-158 | the stream loop gives exactly the fold over the requests' verdicts |
| ValidateArgsDecorator.StreamStopsAtFirstFailure | src/grpc_argument_validator/validate_args_decorator.py:155-158 | a stream is forwarded whole iff every request passes; otherwise it ends at the first request that is rejected or raises, all before it having passed |
| ResolverProperties.PresenceOnly | src/grpc_argument_validator/validate_args_decorator.py:209-216 | a path without validators reports only "request must have ..." violations, and none when optional |
| ResolverProperties.OptionalDropsPresence | src/grpc_argument_validator/validate_args_decorator.py:209-216 | the optional walk raises exactly when the mandatory one does, and otherwise reports the mandatory walk's violations in order without its presence errors |
| ResolverProperties.NamesQualified | src/grpc_argument_validator/validate_args_decorator.py:201-248 | every violation is named under the qualified name of the path's first segment (the type name for the root path) |
| ResolverProperties.HasPathReportsOnlyPresence | src/grpc_argument_validator/validate_args_decorator.py:209-216 | the walk of a path named only in `has` reports nothing but "request must have ..." violations |
| ResolverProperties.UnsetSubMessageStops | src/grpc_argument_validator/validate_args_decorator.py:209-216 | an unset singular sub-message ends the walk: no violation on an optional path, else exactly "request must have <full name>" |
| ResolverProperties.SetFieldDescends | src/grpc_argument_validator/validate_args_decorator.py:233-243 | a set singular field with more path to go is walked into under its qualified name, with the rest of the path |
| ResolverProperties.EmptyRepeatedMidPath | src/grpc_argument_validator/validate_args_decorator.py:220-232 | an empty repeated field in the middle of a path yields no violation |
| ResolverProperties.UnsetLastSegment | src/grpc_argument_validator/validate_args_decorator.py:196-243 | for `a.b.c` with `a` and `b` set and `c` an unset message field, the mandatory walk reports exactly "request must have a.b.c" |
| ResolverProperties.ElementsFanOut | src/grpc_argument_validator/validate_args_decorator.py:245-258 | with `[]` on a repeated field, the violations are those of each validator in turn, over the elements in index order, each named `full[i]`, never the container |
| ResolverProperties.InsertsConcat | src/grpc_argument_validator/validate_args_decorator.py:142-150 | dropping presence errors commutes with concatenating the violations of consecutive walks |
| ValidateStreamingArgsDecorator.ValidatorDict.constructor | src/grpc_argument_validator/validate_streaming_args_decorator.py:77 | a dict object holds the given entries |
| ValidateStreamingArgsDecorator.ParentChild | src/grpc_argument_validator/validate_streaming_args_decorator.py:80-84 | a `has` path without a dot has parent "." and is its own child; otherwise parent, ".", child rebuild the path and the child has no dot |
| ValidateStreamingArgsDecorator.ApplyHas | src/grpc_argument_validator/validate_streaming_args_decorator.py:79-85 | the loop rewrites the dict object in place into the result of the assignments in order |
| ValidateStreamingArgsDecorator.LastHasWins | src/grpc_argument_validator/validate_streaming_args_decorator.py:79-85 | the last `has` entry under a parent path wins, replacing any explicit validator the caller gave for that path |
| ValidateStreamingArgsDecorator.OtherPathsKept | src/grpc_argument_validator/validate_streaming_args_decorator.py:79-85 | a path that is no entry's parent keeps the caller's validator |
| ValidateStreamingArgsDecorator.RewriteKeys | src/grpc_argument_validator/validate_streaming_args_decorator.py:79-98 | after the rewrite the caller's keys come first in order, every parent path is a key, and nothing else is |
| ValidateStreamingArgsDecorator.Compile | src/grpc_argument_validator/validate_streaming_args_decorator.py:66-111 | the all-None error iff every argument is None; then the first ill-formed path, then the overlap, on the rewritten configuration; success implies all paths well formed and no overlap |
| ValidateStreamingArgsDecorator.ValidateStreamingArgs | src/grpc_argument_validator/validate_streaming_args_decorator.py:66-111 | the outcome is `Compile` of the arguments; a non-empty caller dict is rewritten in place and an empty one is left alone |
| ValidateStreamingArgsDecorator.HasParentsAreMandatory | src/grpc_argument_validator/validate_streaming_args_decorator.py:87-102 | every rewritten parent path is walked and is mandatory, so naming it in an optional bucket is an overlap |
| ValidateStreamingArgsDecorator.IllFormedHasEntryPasses | src/grpc_argument_validator/validate_streaming_args_decorator.py:79-111 | `has=["-"]` alone passes every configuration check, as a presence check on "." |
| ValidateStreamingArgsDecorator.ExplicitValidatorLookup | src/grpc_argument_validator/validate_streaming_args_decorator.py:127-130 | the explicit validator comes from `optional_validators` first, else from the rewritten `validators`; a None entry contributes nothing |
| ValidateStreamingArgsDecorator.HasCheckRuns | src/grpc_argument_validator/validate_streaming_args_decorator.py:79-130 | the presence check of the last `has` entry under a parent is the last validator run on that parent path, unless `optional_validators` names it |
| ValidateStreamingArgsDecorator.RecurseValidate | src/grpc_argument_validator/validate_streaming_args_decorator.py:150-205 | the walk returns exactly the raw reasons, or the exception, that `Resolve` specifies |
| ValidateStreamingArgsDecorator.WalkElements | src/grpc_argument_validator/validate_streaming_args_decorator.py:172-183 | the loop over a repeated field's elements equals the fold |
| ValidateStreamingArgsDecorator.RunValidators | src/grpc_argument_validator/validate_streaming_args_decorator.py:194-204 | the loop over validators and elements equals the fold |
| ValidateStreamingArgsDecorator.JoinReasons | src/grpc_argument_validator/validate_streaming_args_decorator.py:136 | `", ".join(errors)` raises `TypeError` iff some reason is None, and otherwise joins them |
| ValidateStreamingArgsDecorator.MessageVerdict | src/grpc_argument_validator/validate_streaming_args_decorator.py:116-137 | the request passes iff no reason was collected; an abort carries the join of all-string reasons cut to at most 1000 characters; a None reason raises `TypeError` |
| ValidateStreamingArgsDecorator.ValidateMessage | src/grpc_argument_validator/validate_streaming_args_decorator.py:116-137 | the loop over `field_names` gives exactly `MessageVerdict` |
| ValidateStreamingArgsDecorator.RequestValidator | src/grpc_argument_validator/validate_streaming_args_decorator.py:139-141 | the generator loop gives exactly the fold over the requests' verdicts |
| ValidateStreamingArgsDecorator.StreamStopsAtFirstFailure | src/grpc_argument_validator/validate_streaming_args_decorator.py:139-141 | the stream is passed on whole iff every request passes; otherwise it ends at the first failing request |
| StreamingResolverProperties.NoValidatorsNoReasons | src/grpc_argument_validator/validate_streaming_args_decorator.py:163-170 | the streaming walk has no presence test: a path without validators reports nothing |
| StreamingResolverProperties.UnsetSubMessageWalkedInto | src/grpc_argument_validator/validate_streaming_args_decorator.py:167-193 | where the unary walk stops at an unset sub-message with one presence violation (none when optional), the streaming walk continues into the sub-message's value |
| StreamingResolverProperties.ResolveAgree | src/grpc_argument_validator/validate_streaming_args_decorator.py:150-205 | along a path whose singular sub-messages are set, with the counterparts of built-in validators, the streaming walk raises iff the unary walk does (the same exception), and otherwise reports the unary reasons in order, each prefixed by "in message request <i> " |
| StreamingResolverProperties.CheckIntoAgree | src/grpc_argument_validator/validate_streaming_args_decorator.py:198-204 | one streaming check appends the prefixed unary reason exactly when the unary check appends a violation |

## Left out

- gRPC transport is not modelled: `context.abort`, `abort_with_status`,
  `rpc_status.to_status`, `Any.Pack` and the `BadRequest` payload. An abort
  is the outcome `Reject(status)` or `Abort(message)`, and the status holds
  the `(field, description)` pairs as a sequence.
- The decorator glue is not modelled: `functools.wraps`, the
  `isinstance(request, Iterable)` dispatch, and the call of the wrapped
  handler.
- A stream is a finite sequence. Generator laziness is not modelled. In the
  source the handler receives request `i` before request `i + 1` is
  validated; the model only states which prefix passed and where the stream
  stopped.
- Protobuf runtime reflection (`DESCRIPTOR`, `fields_by_name`, `HasField`,
  `getattr`) is replaced by the explicit message datatype. Map fields,
  oneofs and extensions are not modelled.
- CheckHasField: every singular field is treated as supporting `HasField`. Protobuf raises `ValueError` for proto3 scalar fields without presence, and the model does not tell those apart.
- CheckHasField: `StreamingHasFieldValidator` is imported but not defined in the library's source, so its reason text is a given function of the index, name and field.
- CheckRegexp: `re.match` is a given predicate ("matches at the start of the text"). The regex engine and the `re.error` that an invalid pattern raises are not modelled.
- CheckUUIDBytes: `uuid.UUID(bytes=...)` is reduced to its length test and its byte-string assertion. Nothing else of the `uuid` module is modelled.
- Custom validators are given functions of their arguments. Their side effects are not modelled.
- Exception messages other than the decorators' own `ValueError` texts are stand-ins. This covers the key of a `KeyError`, the attribute of an `AttributeError`, and the `TypeError` texts.
- Aliasing of the caller's arguments is not modelled. Both decorators keep the caller's own list and dict objects (`x or []`, `validators or dict()`, validate_args_decorator.py:82-92 and validate_streaming_args_decorator.py:69-77) and read them again for every request (validate_args_decorator.py:124-140, validate_streaming_args_decorator.py:119-130). A change the caller makes to them after decoration would therefore be seen by later requests. The model's `Config` and `StreamingConfig` are values fixed at decoration time; only the `has` rewrite into the caller's dict is modelled in place.
- Values have no floats. Python's `!=` against a field's default is
  structural equality of values.
- `argument_validator_config.py` is a global boolean that neither decorator
  reads, so it is not part of this model.
- `validation_result.py` and `validation_context.py` have no behaviour.
  They are the datatypes `ValidationResult` and `ValidationContext`.
- The configuration's "root path followed by more segments" (e.g. `.a`) is
  not excluded by a precondition. The walk raises the `AttributeError` that
  reading `.label` from a message type's descriptor raises in the source.
- An undeclared field on a path is also not excluded by a precondition. The
  walk raises the `KeyError` that `fields_by_name[...]` raises.
- The streaming tests quote reasons such as `'uuid.value' must be a valid
  UUID`, which the code never produces. The model follows the code's reason
  strings.
