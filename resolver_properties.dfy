/** Properties of the path walk of validate_args_decorator.py:187-268, each
    proved by induction along the path and over the elements of repeated
    fields. */
module ResolverProperties {
  import opened Outcomes
  import opened Strings
  import opened Messages
  import opened Dicts
  import opened ArgumentValidators
  import opened ValidateArgsDecorator

  // ---------------------------------------------------------------------------
  // Without validators, a walk reports only missing sub-messages
  // ---------------------------------------------------------------------------

  /** A violation raised by the presence test of lines 209-216. */
  predicate IsPresence(v: Violation)
  {
    v.reason == PresenceReason(v.fieldName)
  }

  predicate AllPresence(es: seq<Violation>)
  {
    forall i :: 0 <= i < |es| ==> IsPresence(es[i])
  }

  /** A path with no validators (a `has` entry) can only report that a
      sub-message on the way is unset, and an optional one reports nothing. */
  lemma {:induction false} PresenceOnly(w: Walk, message: Value, name: string, leading: Option<string>)
    requires w.checks.validators == []
    ensures var r := Resolve(w, message, name, leading);
            r.Ok? ==> AllPresence(r.value) && (w.isOptional ==> r.value == [])
    decreases |Split(name)|, 1, 0
  {
    var parts := Split(name);
    var field := RStripBrackets(parts[0]);
    var remaining := DropEmpty(parts[1..]);
    if message.Msg? && !(leading.None? && field == "") && field in message.message.fields {
      var f := message.message.fields[field];
      var full := FullName(leading, field);
      if !(!f.repeated && f.isMessage && !f.hasField) && remaining != [] {
        RemainingPath(name);
        var rest := Join(remaining);
        if !f.repeated {
          PresenceOnly(w, f.value, rest, Some(full));
        } else if f.value.List? {
          PresenceOnlyElements(w, f.value.items, rest, full, 0, []);
        }
      }
    }
  }

  lemma {:induction false} PresenceOnlyElements(w: Walk, items: seq<Value>, rest: string, full: string, i: nat,
                                                acc: seq<Violation>)
    requires w.checks.validators == [] && i <= |items|
    requires AllPresence(acc) && (w.isOptional ==> acc == [])
    ensures var r := ElementsFrom(w, items, rest, full, i, acc);
            r.Ok? ==> AllPresence(r.value) && (w.isOptional ==> r.value == [])
    decreases |Split(rest)| + 1, 0, |items| - i
  {
    if i < |items| {
      var sub := Resolve(w, items[i], rest, Some(ElementName(full, i)));
      PresenceOnly(w, items[i], rest, Some(ElementName(full, i)));
      if sub.Ok? {
        PresenceOnlyElements(w, items, rest, full, i + 1, acc + sub.value);
      }
    }
  }

  /** A path that only `has` lists reports nothing but missing sub-messages. */
  lemma HasPathReportsOnlyPresence(env: Environment, ctx: ValidationContext, c: Config, path: string, request: Message)
    requires path in OrEmpty(c.has)
    requires path !in OrEmpty(c.uuids) + OrEmpty(c.optionalUuids) + OrEmpty(c.nonEmpty) + OrEmpty(c.optionalNonEmpty)
                      + OrEmpty(c.nonDefault) + OrEmpty(c.optionalNonDefault)
                      + Keys(OrEmptyDict(c.validators)) + Keys(OrEmptyDict(c.optionalValidators))
    ensures var r := Resolve(WalkFor(env, ctx, RuleFor(c, path)), Msg(request), path, None);
            r.Ok? ==> AllPresence(r.value)
  {
    HasOnlyPath(c, path);
    PresenceOnly(WalkFor(env, ctx, RuleFor(c, path)), Msg(request), path, None);
  }

  // ---------------------------------------------------------------------------
  // Where the walk stops, descends, or finds nothing
  // ---------------------------------------------------------------------------

  /** An unset singular sub-message ends the walk at that segment, whatever
      follows it on the path: one presence violation, none when optional. */
  lemma UnsetSubMessageStops(w: Walk, m: Message, name: string, leading: Option<string>)
    requires var field := RStripBrackets(Split(name)[0]);
             && !(leading.None? && field == "") && field in m.fields
             && !m.fields[field].repeated && m.fields[field].isMessage && !m.fields[field].hasField
    ensures var full := FullName(leading, RStripBrackets(Split(name)[0]));
            Resolve(w, Msg(m), name, leading)
              == if w.isOptional then Ok([]) else Ok([Violation(full, PresenceReason(full))])
  {
  }

  /** A set (or non-message) singular field in the middle of a path is walked
      into with the rest of the path, named under the field. */
  lemma SetFieldDescends(w: Walk, m: Message, name: string, leading: Option<string>)
    requires var field := RStripBrackets(Split(name)[0]);
             && !(leading.None? && field == "") && field in m.fields
             && !m.fields[field].repeated && !(m.fields[field].isMessage && !m.fields[field].hasField)
             && DropEmpty(Split(name)[1..]) != []
    ensures var field := RStripBrackets(Split(name)[0]);
            Resolve(w, Msg(m), name, leading)
              == Resolve(w, m.fields[field].value, Join(DropEmpty(Split(name)[1..])), Some(FullName(leading, field)))
  {
    RemainingPath(name);
  }

  /** An empty repeated field in the middle of a path yields no violation. */
  lemma EmptyRepeatedMidPath(w: Walk, m: Message, name: string, leading: Option<string>)
    requires var field := RStripBrackets(Split(name)[0]);
             && !(leading.None? && field == "") && field in m.fields
             && m.fields[field].repeated && m.fields[field].value == List([])
             && DropEmpty(Split(name)[1..]) != []
    ensures Resolve(w, Msg(m), name, leading) == Ok([])
  {
    RemainingPath(name);
  }

  /** A segment that names a field as written: non-empty, no dot, and not
      ending in a bracket. */
  predicate PlainSegment(a: string)
  {
    a != "" && '.' !in a && a[|a| - 1] != '[' && a[|a| - 1] != ']'
  }

  lemma PlainUnstripped(a: string)
    requires PlainSegment(a)
    ensures RStripBrackets(a) == a
  {
  }

  lemma ConcatDots(a: string, b: string, c: string)
    ensures a + "." + b + "." + c == a + "." + (b + "." + c)
  {
  }

  /** How the walk takes `a + "." + r` apart, when `r` has no empty piece:
      the field `a`, then the rest `r`. */
  lemma FirstSegment(a: string, r: string)
    requires PlainSegment(a) && "" !in Split(r)
    ensures var s := Split(a + "." + r);
            RStripBrackets(s[0]) == a && DropEmpty(s[1..]) != [] && Join(DropEmpty(s[1..])) == r
  {
    SplitDotted(a, r);
    var s := Split(a + "." + r);
    assert s[0] == a && s[1..] == Split(r);
    PlainUnstripped(a);
    DropEmptyNoEmpty(Split(r));
    JoinSplit(r);
  }

  /** How the walk takes `a.b.c` apart: first segment `a`, then `b.c`, then
      `b`, then `c`, then nothing. */
  lemma PathPieces(a: string, b: string, c: string)
    requires PlainSegment(a) && PlainSegment(b) && PlainSegment(c)
    ensures var bc := b + "." + c;
            var full := a + "." + b + "." + c;
            && RStripBrackets(Split(full)[0]) == a && DropEmpty(Split(full)[1..]) != []
            && Join(DropEmpty(Split(full)[1..])) == bc
            && RStripBrackets(Split(bc)[0]) == b && DropEmpty(Split(bc)[1..]) != []
            && Join(DropEmpty(Split(bc)[1..])) == c
            && RStripBrackets(Split(c)[0]) == c
  {
    var bc := b + "." + c;
    SplitNoDot(c);
    SplitDotted(b, c);
    assert Split(bc) == [b, c];
    ConcatDots(a, b, c);
    FirstSegment(a, bc);
    FirstSegment(b, c);
    PlainUnstripped(c);
  }

  /** A `has` entry `a.b.c` on a request whose `a` and `a.b` are set and whose
      `a.b.c` is an unset sub-message: the walk reports exactly
      "request must have a.b.c" (for instance `has=["rectangle.hi.name"]`). */
  lemma UnsetLastSegment(k: Checks, a: string, b: string, c: string, request: Message, ma: Message, mb: Message)
    requires PlainSegment(a) && PlainSegment(b) && PlainSegment(c)
    requires a in request.fields && request.fields[a] == Field(false, true, true, Null, Msg(ma))
    requires b in ma.fields && ma.fields[b] == Field(false, true, true, Null, Msg(mb))
    requires c in mb.fields && !mb.fields[c].repeated && mb.fields[c].isMessage && !mb.fields[c].hasField
    ensures var full := a + "." + b + "." + c;
            Resolve(Walk(k, false), Msg(request), full, None) == Ok([Violation(full, PresenceReason(full))])
  {
    var w := Walk(k, false);
    var bc := b + "." + c;
    var full := a + "." + b + "." + c;
    PathPieces(a, b, c);
    SetFieldDescends(w, request, full, None);
    SetFieldDescends(w, ma, bc, Some(a));
    UnsetSubMessageStops(w, mb, c, Some(a + "." + b));
  }

  // ---------------------------------------------------------------------------
  // With "[]", each validator runs on each element, never on the container
  // ---------------------------------------------------------------------------

  /** What validator `v` reports for element `i`: a violation named `full[i]`
      when the check fails, nothing otherwise. */
  function ElementFailure(k: Checks, v: Validator, items: seq<Value>, descriptor: Descriptor, full: string,
                          i: nat): seq<Violation>
    requires i < |items|
  {
    var res := Check(k.env, v, ElementName(full, i), items[i], descriptor, k.ctx);
    if res.Ok? && !res.value.valid then [Violation(ElementName(full, i), ReasonText(res.value))] else []
  }

  /** What validator `v` reports over the elements `i..`, in index order. */
  function ElementFailures(k: Checks, v: Validator, items: seq<Value>, descriptor: Descriptor, full: string,
                           i: nat): seq<Violation>
    requires i <= |items|
    decreases |items| - i
  {
    if i == |items| then [] else ElementFailure(k, v, items, descriptor, full, i) + ElementFailures(k, v, items, descriptor, full, i + 1)
  }

  /** What the validators `n..` report over the elements: validator by
      validator, each in index order. */
  function FanOut(k: Checks, items: seq<Value>, descriptor: Descriptor, full: string, n: nat): seq<Violation>
    requires n <= |k.validators|
    decreases |k.validators| - n
  {
    if n == |k.validators| then []
    else ElementFailures(k, k.validators[n], items, descriptor, full, 0) + FanOut(k, items, descriptor, full, n + 1)
  }

  /** One check appends exactly what `ElementFailure` says. */
  lemma CheckIntoAppends(k: Checks, v: Validator, items: seq<Value>, descriptor: Descriptor, full: string, j: nat,
                         acc: seq<Violation>)
    requires j < |items|
    ensures var step := CheckInto(k, v, ElementName(full, j), items[j], descriptor, acc);
            step.Ok? ==> step.value == acc + ElementFailure(k, v, items, descriptor, full, j)
  {
  }

  lemma {:induction false} ElementChecksClosed(k: Checks, v: Validator, items: seq<Value>, descriptor: Descriptor,
                                               full: string, j: nat, acc: seq<Violation>)
    requires j <= |items|
    ensures var r := ElementChecksFrom(k, v, items, descriptor, full, j, acc);
            r.Ok? ==> r.value == acc + ElementFailures(k, v, items, descriptor, full, j)
    decreases |items| - j
  {
    if j < |items| {
      var step := CheckInto(k, v, ElementName(full, j), items[j], descriptor, acc);
      ElementChecksStep(k, v, items, descriptor, full, j, acc);
      if step.Ok? {
        CheckIntoAppends(k, v, items, descriptor, full, j, acc);
        ElementChecksClosed(k, v, items, descriptor, full, j + 1, step.value);
        AppendAssoc(acc, ElementFailure(k, v, items, descriptor, full, j), ElementFailures(k, v, items, descriptor, full, j + 1));
      }
    }
  }

  lemma AppendAssoc(acc: seq<Violation>, one: seq<Violation>, later: seq<Violation>)
    ensures acc + one + later == acc + (one + later)
  {
  }

  /** One unfolding of `ElementChecksFrom`. */
  lemma ElementChecksStep(k: Checks, v: Validator, items: seq<Value>, descriptor: Descriptor, full: string, j: nat,
                          acc: seq<Violation>)
    requires j < |items|
    ensures var step := CheckInto(k, v, ElementName(full, j), items[j], descriptor, acc);
            var r := ElementChecksFrom(k, v, items, descriptor, full, j, acc);
            (step.Raise? ==> r.Raise?) && (step.Ok? ==> r == ElementChecksFrom(k, v, items, descriptor, full, j + 1, step.value))
  {
  }

  lemma {:induction false} FanOutClosed(k: Checks, raw: string, items: seq<Value>, descriptor: Descriptor,
                                        full: string, n: nat, acc: seq<Violation>)
    requires EndsWith(raw, "[]") && descriptor.FieldDescriptor? && descriptor.repeated && n <= |k.validators|
    ensures var r := ValidatorsFrom(k, raw, List(items), descriptor, full, n, acc);
            r.Ok? ==> r.value == acc + FanOut(k, items, descriptor, full, n)
    decreases |k.validators| - n
  {
    if n < |k.validators| {
      var v := k.validators[n];
      var step := ApplyValidator(k, v, raw, List(items), descriptor, full, acc);
      assert step == ElementChecksFrom(k, v, items, descriptor, full, 0, acc);
      ElementChecksClosed(k, v, items, descriptor, full, 0, acc);
      if step.Ok? {
        FanOutClosed(k, raw, items, descriptor, full, n + 1, step.value);
        var mine := ElementFailures(k, v, items, descriptor, full, 0);
        assert acc + mine + FanOut(k, items, descriptor, full, n + 1)
            == acc + (mine + FanOut(k, items, descriptor, full, n + 1));
      }
    }
  }

  /** Every violation of `ElementFailures` names one of the elements. */
  lemma {:induction false} ElementFailuresNames(k: Checks, v: Validator, items: seq<Value>, descriptor: Descriptor,
                                                full: string, i: nat)
    requires i <= |items|
    ensures forall e :: e in ElementFailures(k, v, items, descriptor, full, i) ==>
              exists j :: i <= j < |items| && e.fieldName == ElementName(full, j)
    decreases |items| - i
  {
    if i < |items| {
      ElementFailuresNames(k, v, items, descriptor, full, i + 1);
    }
  }

  /** Every violation of `FanOut` names one of the elements. */
  lemma {:induction false} FanOutNames(k: Checks, items: seq<Value>, descriptor: Descriptor, full: string, n: nat)
    requires n <= |k.validators|
    ensures forall e :: e in FanOut(k, items, descriptor, full, n) ==>
              exists j :: 0 <= j < |items| && e.fieldName == ElementName(full, j)
    decreases |k.validators| - n
  {
    if n < |k.validators| {
      ElementFailuresNames(k, k.validators[n], items, descriptor, full, 0);
      FanOutNames(k, items, descriptor, full, n + 1);
    }
  }

  /** With "[]" on a repeated field, each validator runs on each element: the
      violations come validator by validator, each in index order, and each
      names an element `full[i]`, never the field itself. */
  lemma ElementsFanOut(k: Checks, raw: string, items: seq<Value>, descriptor: Descriptor, full: string)
    requires EndsWith(raw, "[]") && descriptor.FieldDescriptor? && descriptor.repeated
    ensures var r := ValidatorsFrom(k, raw, List(items), descriptor, full, 0, []);
            r.Ok? ==> r.value == FanOut(k, items, descriptor, full, 0)
                      && forall e :: e in r.value ==> exists j :: 0 <= j < |items| && e.fieldName == ElementName(full, j)
  {
    FanOutClosed(k, raw, items, descriptor, full, 0, []);
    FanOutNames(k, items, descriptor, full, 0);
    assert [] + FanOut(k, items, descriptor, full, 0) == FanOut(k, items, descriptor, full, 0);
  }

  // ---------------------------------------------------------------------------
  // An optional path reports what the mandatory one does, minus presence errors
  // ---------------------------------------------------------------------------

  /** `b` is `a` with presence violations inserted at some positions. */
  predicate InsertsPresence(a: seq<Violation>, b: seq<Violation>)
    decreases |b|
  {
    if b == [] then a == []
    else (a != [] && a[0] == b[0] && InsertsPresence(a[1..], b[1..])) || (IsPresence(b[0]) && InsertsPresence(a, b[1..]))
  }

  lemma {:induction false} InsertsNothing(a: seq<Violation>)
    ensures InsertsPresence(a, a)
    decreases |a|
  {
    if a != [] {
      InsertsNothing(a[1..]);
    }
  }

  lemma {:induction false} InsertsConcat(a1: seq<Violation>, b1: seq<Violation>, a2: seq<Violation>, b2: seq<Violation>)
    requires InsertsPresence(a1, b1) && InsertsPresence(a2, b2)
    ensures InsertsPresence(a1 + a2, b1 + b2)
    decreases |b1|
  {
    if b1 == [] {
      assert a1 + a2 == a2 && b1 + b2 == b2;
    } else {
      assert (b1 + b2)[0] == b1[0] && (b1 + b2)[1..] == b1[1..] + b2;
      if a1 != [] && a1[0] == b1[0] && InsertsPresence(a1[1..], b1[1..]) {
        InsertsConcat(a1[1..], b1[1..], a2, b2);
        assert (a1 + a2)[0] == a1[0] && (a1 + a2)[1..] == a1[1..] + a2;
      } else {
        InsertsConcat(a1, b1[1..], a2, b2);
      }
    }
  }

  /** The optional outcome `o` against the mandatory outcome `m`: the same
      exception, or the same violations except for presence ones. */
  predicate DropsPresence(o: Result<seq<Violation>>, m: Result<seq<Violation>>)
  {
    (o.Raise? || m.Raise? ==> o == m) && (o.Ok? && m.Ok? ==> InsertsPresence(o.value, m.value))
  }

  /** `is_optional` changes only the presence test: the optional walk raises
      exactly when the mandatory one does, and otherwise reports the
      mandatory walk's violations, in order, without its presence errors. */
  lemma {:induction false} OptionalDropsPresence(k: Checks, message: Value, name: string, leading: Option<string>)
    ensures DropsPresence(Resolve(Walk(k, true), message, name, leading), Resolve(Walk(k, false), message, name, leading))
    decreases |Split(name)|, 1, 0
  {
    var o := Resolve(Walk(k, true), message, name, leading);
    var m := Resolve(Walk(k, false), message, name, leading);
    var parts := Split(name);
    var raw := parts[0];
    var field := RStripBrackets(raw);
    var remaining := DropEmpty(parts[1..]);
    if message.Msg? {
      var msg := message.message;
      if leading.None? && field == "" {
        if o.Ok? {
          InsertsNothing(o.value);
        }
      } else if field in msg.fields {
        var f := msg.fields[field];
        var full := FullName(leading, field);
        if !f.repeated && f.isMessage && !f.hasField {
          var v := Violation(full, PresenceReason(full));
          assert m == Ok([v]) && o == Ok([]);
          assert [v][1..] == [];
          assert InsertsPresence([], [v]);
        } else if remaining == [] {
          if o.Ok? {
            InsertsNothing(o.value);
          }
        } else {
          RemainingPath(name);
          var rest := Join(remaining);
          if !f.repeated {
            OptionalDropsPresence(k, f.value, rest, Some(full));
          } else if f.value.List? {
            OptionalDropsPresenceElements(k, f.value.items, rest, full, 0, [], []);
          }
        }
      }
    }
  }

  lemma {:induction false} OptionalDropsPresenceElements(k: Checks, items: seq<Value>, rest: string, full: string, i: nat,
                                                         accO: seq<Violation>, accM: seq<Violation>)
    requires i <= |items| && InsertsPresence(accO, accM)
    ensures DropsPresence(ElementsFrom(Walk(k, true), items, rest, full, i, accO),
                          ElementsFrom(Walk(k, false), items, rest, full, i, accM))
    decreases |Split(rest)| + 1, 0, |items| - i
  {
    if i < |items| {
      var so := Resolve(Walk(k, true), items[i], rest, Some(ElementName(full, i)));
      var sm := Resolve(Walk(k, false), items[i], rest, Some(ElementName(full, i)));
      OptionalDropsPresence(k, items[i], rest, Some(ElementName(full, i)));
      if so.Ok? && sm.Ok? {
        InsertsConcat(accO, accM, so.value, sm.value);
        OptionalDropsPresenceElements(k, items, rest, full, i + 1, accO + so.value, accM + sm.value);
      }
    }
  }

  // ---------------------------------------------------------------------------
  // Every violation is named under the path's qualified prefix
  // ---------------------------------------------------------------------------

  predicate AllUnder(es: seq<Violation>, prefix: string)
  {
    forall i :: 0 <= i < |es| ==> IsPrefix(prefix, es[i].fieldName)
  }

  /** The qualified name of the first segment: the message type's name for the
      root path, else the field under `leading`. */
  function Head(message: Value, name: string, leading: Option<string>): string
  {
    var field := RStripBrackets(Split(name)[0]);
    if leading.None? && field == "" && message.Msg? then message.message.typeName else FullName(leading, field)
  }

  lemma AllUnderWeaken(es: seq<Violation>, p: string, q: string)
    requires IsPrefix(p, q) && AllUnder(es, q)
    ensures AllUnder(es, p)
  {
    forall i | 0 <= i < |es|
      ensures IsPrefix(p, es[i].fieldName)
    {
      assert es[i].fieldName[..|q|] == q;
      assert es[i].fieldName[..|p|] == q[..|p|];
    }
  }

  /** A name below `full`, as the walk builds them, starts with `full`. */
  lemma BelowIsUnder(full: string, i: nat, field: string)
    ensures IsPrefix(full, ElementName(full, i))
    ensures IsPrefix(full, FullName(Some(full), field))
    ensures IsPrefix(full, FullName(Some(ElementName(full, i)), field))
  {
    assert ElementName(full, i) == full + ("[" + NatToString(i) + "]");
    assert FullName(Some(full), field) == full + ("." + field);
    assert FullName(Some(ElementName(full, i)), field) == full + ("[" + NatToString(i) + "]" + "." + field);
  }

  lemma {:induction false} ElementChecksNames(k: Checks, v: Validator, items: seq<Value>, descriptor: Descriptor,
                                              full: string, j: nat, acc: seq<Violation>)
    requires j <= |items| && AllUnder(acc, full)
    ensures var r := ElementChecksFrom(k, v, items, descriptor, full, j, acc);
            r.Ok? ==> AllUnder(r.value, full)
    decreases |items| - j
  {
    if j < |items| {
      BelowIsUnder(full, j, "");
      var step := CheckInto(k, v, ElementName(full, j), items[j], descriptor, acc);
      if step.Ok? {
        ElementChecksNames(k, v, items, descriptor, full, j + 1, step.value);
      }
    }
  }

  lemma {:induction false} ValidatorsNames(k: Checks, raw: string, value: Value, descriptor: Descriptor, full: string,
                                           n: nat, acc: seq<Violation>)
    requires n <= |k.validators| && AllUnder(acc, full)
    ensures var r := ValidatorsFrom(k, raw, value, descriptor, full, n, acc);
            r.Ok? ==> AllUnder(r.value, full)
    decreases |k.validators| - n
  {
    if n < |k.validators| {
      var v := k.validators[n];
      var step := ApplyValidator(k, v, raw, value, descriptor, full, acc);
      if EndsWith(raw, "[]") && descriptor.FieldDescriptor? && descriptor.repeated && value.List? {
        ElementChecksNames(k, v, value.items, descriptor, full, 0, acc);
      } else {
        assert IsPrefix(full, full);
      }
      if step.Ok? {
        ValidatorsNames(k, raw, value, descriptor, full, n + 1, step.value);
      }
    }
  }

  /** Every violation a walk reports is named by the qualified name of the
      path's first segment followed by the rest of its own path: element
      suffixes `[i]` and `.field`s never drop a prefix. */
  lemma {:induction false} NamesQualified(w: Walk, message: Value, name: string, leading: Option<string>)
    ensures var r := Resolve(w, message, name, leading);
            r.Ok? ==> AllUnder(r.value, Head(message, name, leading))
    decreases |Split(name)|, 1, 0
  {
    var parts := Split(name);
    var raw := parts[0];
    var field := RStripBrackets(raw);
    var remaining := DropEmpty(parts[1..]);
    if message.Msg? {
      var msg := message.message;
      if leading.None? && field == "" {
        ValidatorsNames(w.checks, raw, message, MessageDescriptor(msg.typeName), msg.typeName, 0, []);
      } else if field in msg.fields {
        var f := msg.fields[field];
        var full := FullName(leading, field);
        if !f.repeated && f.isMessage && !f.hasField {
          assert IsPrefix(full, full);
        } else if remaining == [] {
          ValidatorsNames(w.checks, raw, f.value, DescriptorOf(f), full, 0, []);
        } else {
          RemainingPath(name);
          var rest := Join(remaining);
          if !f.repeated {
            var sub := Resolve(w, f.value, rest, Some(full));
            NamesQualified(w, f.value, rest, Some(full));
            if sub.Ok? {
              BelowIsUnder(full, 0, RStripBrackets(Split(rest)[0]));
              AllUnderWeaken(sub.value, full, Head(f.value, rest, Some(full)));
            }
          } else if f.value.List? {
            NamesQualifiedElements(w, f.value.items, rest, full, 0, []);
          }
        }
      }
    }
  }

  lemma {:induction false} NamesQualifiedElements(w: Walk, items: seq<Value>, rest: string, full: string, i: nat,
                                                  acc: seq<Violation>)
    requires i <= |items| && AllUnder(acc, full)
    ensures var r := ElementsFrom(w, items, rest, full, i, acc);
            r.Ok? ==> AllUnder(r.value, full)
    decreases |Split(rest)| + 1, 0, |items| - i
  {
    if i < |items| {
      var leading := Some(ElementName(full, i));
      var sub := Resolve(w, items[i], rest, leading);
      NamesQualified(w, items[i], rest, leading);
      if sub.Ok? {
        BelowIsUnder(full, i, RStripBrackets(Split(rest)[0]));
        AllUnderWeaken(sub.value, full, Head(items[i], rest, leading));
        NamesQualifiedElements(w, items, rest, full, i + 1, acc + sub.value);
      }
    }
  }
}
