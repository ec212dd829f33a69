/** Properties of the streaming path walk of
    validate_streaming_args_decorator.py:150-205, set against the unary one. */
module StreamingResolverProperties {
  import opened Outcomes
  import opened Strings
  import opened Messages
  import opened ValidateStreamingArgsDecorator
  import opened StreamingArgumentValidators
  import ArgumentValidators
  import Unary = ValidateArgsDecorator

  /** The streaming walk has no presence test: a path without validators
      reports nothing, however many sub-messages on it are unset. */
  lemma {:induction false} NoValidatorsNoReasons(k: StreamingChecks, message: Value, name: string, leading: Option<string>)
    requires k.validators == []
    ensures var r := Resolve(k, message, name, leading);
            r.Ok? ==> r.value == []
    decreases |Split(name)|, 1, 0
  {
    var parts := Split(name);
    var field := RStripBrackets(parts[0]);
    var remaining := DropEmpty(parts[1..]);
    if message.Msg? && !(leading.None? && field == "") && field in message.message.fields && remaining != [] {
      var f := message.message.fields[field];
      var full := Unary.FullName(leading, field);
      RemainingPath(name);
      var rest := Join(remaining);
      if !f.repeated {
        NoValidatorsNoReasons(k, f.value, rest, Some(full));
      } else if f.value.List? {
        NoValidatorsNoReasonsElements(k, f.value.items, rest, full, 0);
      }
    }
  }

  lemma {:induction false} NoValidatorsNoReasonsElements(k: StreamingChecks, items: seq<Value>, rest: string,
                                                         full: string, i: nat)
    requires k.validators == [] && i <= |items|
    ensures var r := ElementsFrom(k, items, rest, full, i, []);
            r.Ok? ==> r.value == []
    decreases |Split(rest)| + 1, 0, |items| - i
  {
    if i < |items| {
      var sub := Resolve(k, items[i], rest, Some(Unary.ElementName(full, i)));
      NoValidatorsNoReasons(k, items[i], rest, Some(Unary.ElementName(full, i)));
      if sub.Ok? {
        assert [] + sub.value == [];
        NoValidatorsNoReasonsElements(k, items, rest, full, i + 1);
      }
    }
  }

  /** Where the unary walk stops at an unset singular sub-message with one
      presence violation (or none on an optional path), the streaming walk
      goes on into the sub-message's value. */
  lemma UnsetSubMessageWalkedInto(k: StreamingChecks, w: Unary.Walk, m: Message, name: string, leading: Option<string>)
    requires var field := RStripBrackets(Split(name)[0]);
             && !(leading.None? && field == "") && field in m.fields
             && !m.fields[field].repeated && m.fields[field].isMessage && !m.fields[field].hasField
             && DropEmpty(Split(name)[1..]) != []
    ensures var field := RStripBrackets(Split(name)[0]);
            var full := Unary.FullName(leading, field);
            && Unary.Resolve(w, Msg(m), name, leading)
                 == (if w.isOptional then Ok([]) else Ok([Unary.Violation(full, Unary.PresenceReason(full))]))
            && Resolve(k, Msg(m), name, leading)
                 == Resolve(k, m.fields[field].value, Join(DropEmpty(Split(name)[1..])), Some(full))
  {
    RemainingPath(name);
  }

  // ---------------------------------------------------------------------------
  // The streaming walk against the unary one
  // ---------------------------------------------------------------------------

  /** The reasons the streaming walk reports for the unary walk's violations
      of request `index`: each reason prefixed with "in message request
      <index> ", in the same order. */
  function Streamed(index: nat, es: seq<Unary.Violation>): (r: seq<Option<string>>)
    ensures |r| == |es|
    ensures forall j :: 0 <= j < |es| ==> r[j] == Some(RequestPrefix(index) + es[j].reason)
  {
    seq(|es|, j requires 0 <= j < |es| => Some(RequestPrefix(index) + es[j].reason))
  }

  lemma StreamedConcat(index: nat, a: seq<Unary.Violation>, b: seq<Unary.Violation>)
    ensures Streamed(index, a + b) == Streamed(index, a) + Streamed(index, b)
  {
    assert forall j :: 0 <= j < |a + b| ==> Streamed(index, a + b)[j] == (Streamed(index, a) + Streamed(index, b))[j];
  }

  ghost predicate SameMatches(k: Unary.Checks, sk: StreamingChecks)
  {
    sk.env.matches == k.env.matches
  }

  /** The streaming checks run the counterparts of the unary built-in
      validators, in the same order, with the same `re.match`. */
  ghost predicate Corresponds(k: Unary.Checks, sk: StreamingChecks)
  {
    && |sk.validators| == |k.validators|
    && SameMatches(k, sk)
    && forall i :: 0 <= i < |k.validators| ==>
         !k.validators[i].Custom? && sk.validators[i] == Counterpart(k.validators[i])
  }

  /** The streaming outcome raises exactly when the unary one does, the same
      exception, and otherwise reports the unary violations' reasons, prefixed. */
  predicate Agree(u: Result<seq<Unary.Violation>>, s: Result<seq<Option<string>>>, index: nat)
  {
    && (u.Raise? <==> s.Raise?)
    && (u.Raise? ==> s.error == u.error)
    && (u.Ok? ==> s.value == Streamed(index, u.value))
  }

  /** Every singular sub-message the unary walk would meet along `name` is
      set, so the unary walk never stops at a presence test. */
  predicate AllSet(message: Value, name: string, leading: Option<string>)
    decreases |Split(name)|, 0
  {
    var parts := Split(name);
    var field := RStripBrackets(parts[0]);
    var remaining := DropEmpty(parts[1..]);
    if !message.Msg? || (leading.None? && field == "") || field !in message.message.fields then true
    else
      var f := message.message.fields[field];
      var full := Unary.FullName(leading, field);
      if !f.repeated && f.isMessage && !f.hasField then false
      else if remaining == [] then true
      else
        RemainingPath(name);
        var rest := Join(remaining);
        if !f.repeated then AllSet(f.value, rest, Some(full))
        else f.value.List? ==> AllElementsSet(f.value.items, rest, full)
  }

  predicate AllElementsSet(items: seq<Value>, rest: string, full: string)
    decreases |Split(rest)|, 1
  {
    forall i :: 0 <= i < |items| ==> AllSet(items[i], rest, Some(Unary.ElementName(full, i)))
  }

  lemma CheckIntoAgree(k: Unary.Checks, sk: StreamingChecks, v: ArgumentValidators.Validator, name: string,
                       value: Value, descriptor: Descriptor, acc: seq<Unary.Violation>)
    requires !v.Custom? && SameMatches(k, sk)
    ensures Agree(Unary.CheckInto(k, v, name, value, descriptor, acc),
                  CheckInto(sk, Counterpart(v), name, value, descriptor, Streamed(sk.index, acc)), sk.index)
  {
    AgreesWithNonStreaming(sk.env, k.env, v, sk.index, name, value, descriptor, k.ctx);
    var p := ArgumentValidators.Check(k.env, v, name, value, descriptor, k.ctx);
    var q := Check(sk.env, Counterpart(v), sk.index, name, value, descriptor);
    AppendAgree(sk.index, name, p, q, acc);
  }

  /** The accumulator step of `CheckInto`, on two check results that agree. */
  lemma AppendAgree(index: nat, name: string, p: Result<ValidationResult>,
                    q: Result<ValidationResult>, acc: seq<Unary.Violation>)
    requires (p.Raise? <==> q.Raise?) && (p.Raise? ==> q.error == p.error)
    requires p.Ok? ==> q.value.valid == p.value.valid
    requires p.Ok? && !p.value.valid ==>
               p.value.invalidReason.Some? && q.value.invalidReason == Some(RequestPrefix(index) + p.value.invalidReason.value)
    ensures Agree(match p
                  case Raise(e) => Raise(e)
                  case Ok(res) => Ok(if res.valid then acc else acc + [Unary.Violation(name, Unary.ReasonText(res))]),
                  match q
                  case Raise(e) => Raise(e)
                  case Ok(res) => Ok(if res.valid then Streamed(index, acc) else Streamed(index, acc) + [res.invalidReason]),
                  index)
  {
    if p.Ok? && !p.value.valid {
      var e := Unary.Violation(name, Unary.ReasonText(p.value));
      assert Streamed(index, [e]) == [q.value.invalidReason];
      StreamedConcat(index, acc, [e]);
    }
  }

  lemma {:induction false} ElementChecksAgree(k: Unary.Checks, sk: StreamingChecks, v: ArgumentValidators.Validator,
                                              items: seq<Value>, descriptor: Descriptor, full: string, j: nat,
                                              acc: seq<Unary.Violation>)
    requires !v.Custom? && SameMatches(k, sk) && j <= |items|
    ensures Agree(Unary.ElementChecksFrom(k, v, items, descriptor, full, j, acc),
                  ElementChecksFrom(sk, Counterpart(v), items, descriptor, full, j, Streamed(sk.index, acc)), sk.index)
    decreases |items| - j
  {
    if j < |items| {
      var name := Unary.ElementName(full, j);
      CheckIntoAgree(k, sk, v, name, items[j], descriptor, acc);
      var u := Unary.CheckInto(k, v, name, items[j], descriptor, acc);
      if u.Ok? {
        ElementChecksAgree(k, sk, v, items, descriptor, full, j + 1, u.value);
      }
    }
  }

  lemma ApplyValidatorAgree(k: Unary.Checks, sk: StreamingChecks, v: ArgumentValidators.Validator, raw: string,
                            value: Value, descriptor: Descriptor, full: string, acc: seq<Unary.Violation>)
    requires !v.Custom? && SameMatches(k, sk)
    ensures Agree(Unary.ApplyValidator(k, v, raw, value, descriptor, full, acc),
                  ApplyValidator(sk, Counterpart(v), raw, value, descriptor, full, Streamed(sk.index, acc)), sk.index)
  {
    if EndsWith(raw, "[]") && descriptor.FieldDescriptor? && descriptor.repeated && value.List? {
      ElementChecksAgree(k, sk, v, value.items, descriptor, full, 0, acc);
    } else {
      CheckIntoAgree(k, sk, v, full, value, descriptor, acc);
    }
  }

  lemma {:induction false} ValidatorsAgree(k: Unary.Checks, sk: StreamingChecks, raw: string, value: Value,
                                           descriptor: Descriptor, full: string, n: nat, acc: seq<Unary.Violation>)
    requires Corresponds(k, sk) && n <= |k.validators|
    ensures Agree(Unary.ValidatorsFrom(k, raw, value, descriptor, full, n, acc),
                  ValidatorsFrom(sk, raw, value, descriptor, full, n, Streamed(sk.index, acc)), sk.index)
    decreases |k.validators| - n
  {
    if n < |k.validators| {
      var v := k.validators[n];
      ApplyValidatorAgree(k, sk, v, raw, value, descriptor, full, acc);
      var u := Unary.ApplyValidator(k, v, raw, value, descriptor, full, acc);
      if u.Ok? {
        ValidatorsAgree(k, sk, raw, value, descriptor, full, n + 1, u.value);
      }
    }
  }

  /** Along a path whose singular sub-messages are all set, with built-in
      validators only, the streaming walk of request `index` raises exactly
      when the unary walk does, the same exception, and otherwise reports the
      unary violations' reasons in the same order, each prefixed with "in
      message request <index> " (validate_streaming_args_decorator.py:150-205
      against validate_args_decorator.py:187-268). */
  lemma {:induction false} ResolveAgree(w: Unary.Walk, sk: StreamingChecks, message: Value, name: string,
                                        leading: Option<string>)
    requires Corresponds(w.checks, sk) && AllSet(message, name, leading)
    ensures Agree(Unary.Resolve(w, message, name, leading), Resolve(sk, message, name, leading), sk.index)
    decreases |Split(name)|, 1, 0
  {
    var parts := Split(name);
    var raw := parts[0];
    var field := RStripBrackets(raw);
    var remaining := DropEmpty(parts[1..]);
    if message.Msg? {
      var m := message.message;
      if leading.None? && field == "" {
        if remaining == [] {
          ValidatorsAgree(w.checks, sk, raw, message, MessageDescriptor(m.typeName), m.typeName, 0, []);
        }
      } else if field in m.fields {
        var f := m.fields[field];
        var full := Unary.FullName(leading, field);
        if remaining == [] {
          ValidatorsAgree(w.checks, sk, raw, f.value, DescriptorOf(f), full, 0, []);
        } else {
          RemainingPath(name);
          var rest := Join(remaining);
          if !f.repeated {
            ResolveAgree(w, sk, f.value, rest, Some(full));
          } else if f.value.List? {
            ElementsAgree(w, sk, f.value.items, rest, full, 0, []);
          }
        }
      }
    }
  }

  lemma {:induction false} ElementsAgree(w: Unary.Walk, sk: StreamingChecks, items: seq<Value>, rest: string,
                                         full: string, i: nat, acc: seq<Unary.Violation>)
    requires Corresponds(w.checks, sk) && i <= |items| && AllElementsSet(items, rest, full)
    ensures Agree(Unary.ElementsFrom(w, items, rest, full, i, acc),
                  ElementsFrom(sk, items, rest, full, i, Streamed(sk.index, acc)), sk.index)
    decreases |Split(rest)| + 1, 0, |items| - i
  {
    if i < |items| {
      var name := Unary.ElementName(full, i);
      ResolveAgree(w, sk, items[i], rest, Some(name));
      var u := Unary.Resolve(w, items[i], rest, Some(name));
      if u.Ok? {
        StreamedConcat(sk.index, acc, u.value);
        ElementsAgree(w, sk, items, rest, full, i + 1, acc + u.value);
      }
    }
  }
}
