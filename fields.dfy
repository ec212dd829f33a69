/** src/grpc_argument_validator/fields.py: the field-path grammar and the
    configuration-time check that every listed path is well formed.

    The source states the grammar as one regular expression matched with
    Python's `re.match` and anchors `^ ... $`. Here the same language is given
    twice: as a syntax datatype `PathSyntax` with its printer `Render`, and as
    the hand-written recogniser `Parse` (split on '.', strip a trailing "[]",
    check each piece is an identifier). `Parse` and `Render` are proved
    inverse. Python's `$` also matches just before one final '\n', so
    `IsValidFieldPath` accepts a valid path followed by a single newline. */
module Fields {
  import opened Strings
  import opened Outcomes

  /** `[a-zA-Z]` */
  predicate IsLetter(c: char)
  {
    'a' <= c <= 'z' || 'A' <= c <= 'Z'
  }

  /** `[a-zA-Z_0-9]` */
  predicate IsIdentChar(c: char)
  {
    IsLetter(c) || '0' <= c <= '9' || c == '_'
  }

  /** `[a-zA-Z][a-zA-Z_0-9]*` */
  predicate IsIdentifier(s: string)
  {
    |s| >= 1 && IsLetter(s[0]) && forall i :: 1 <= i < |s| ==> IsIdentChar(s[i])
  }

  /** The shape of a well-formed path: the root reference `.`, or an optional
      leading dot, one or more identifiers joined by dots, and an optional
      repetition marker `[]`. */
  datatype PathSyntax = Root | Dotted(leadingDot: bool, segments: seq<string>, marker: bool)

  predicate WellFormed(p: PathSyntax)
  {
    p.Dotted? ==> |p.segments| >= 1 && AllIdentifiers(p.segments)
  }

  /** The text of a path. */
  function Render(p: PathSyntax): string
  {
    match p
    case Root => "."
    case Dotted(lead, segs, marker) =>
      (if lead then "." else "") + Join(segs) + (if marker then "[]" else "")
  }

  /** Every piece is an identifier. */
  predicate AllIdentifiers(segs: seq<string>)
  {
    forall i :: 0 <= i < |segs| ==> IsIdentifier(segs[i])
  }

  /** Hand-written recogniser for the path grammar (without the newline rule):
      returns the syntax of `s`, or None when `s` is not a path. */
  function Parse(s: string): (r: Option<PathSyntax>)
    ensures r.Some? ==> WellFormed(r.value) && Render(r.value) == s
  {
    if s == "." then Some(Root)
    else
      var lead := |s| > 0 && s[0] == '.';
      var rest := if lead then s[1..] else s;
      assert s == (if lead then "." else "") + rest;
      ParseDotted(lead, rest)
  }

  /** Recognises the part after the optional leading dot: identifiers joined
      by dots, optionally followed by "[]". */
  function ParseDotted(lead: bool, rest: string): (r: Option<PathSyntax>)
    ensures r.Some? ==> WellFormed(r.value) && Render(r.value) == (if lead then "." else "") + rest
  {
    var marker := EndsWith(rest, "[]");
    var body := if marker then rest[..|rest| - 2] else rest;
    var segs := Split(body);
    if AllIdentifiers(segs) then
      JoinSplit(body);
      assert rest == body + (if marker then "[]" else "");
      Some(Dotted(lead, segs, marker))
    else
      None
  }

  /** `is_valid_field_path` (fields.py:13): the anchored regular-expression
      match, including `$` matching before one final newline. */
  predicate IsValidFieldPath(path: string)
  {
    Parse(path).Some? || (|path| > 0 && path[|path| - 1] == '\n' && Parse(path[..|path| - 1]).Some?)
  }

  /** The language the regular expression denotes, stated without a recogniser. */
  ghost predicate InLanguage(s: string)
  {
    exists p :: Denotes(p, s)
  }

  /** `s` is the text of the well-formed path `p`, possibly followed by one newline. */
  predicate Denotes(p: PathSyntax, s: string)
  {
    WellFormed(p) && (Render(p) == s || Render(p) + "\n" == s)
  }

  /** First and last characters of a join of non-empty pieces. */
  lemma {:induction false} JoinEnds(segs: seq<string>)
    requires |segs| >= 1
    requires forall i :: 0 <= i < |segs| ==> segs[i] != ""
    ensures |Join(segs)| >= 1
    ensures Join(segs)[0] == segs[0][0]
    ensures Join(segs)[|Join(segs)| - 1] == segs[|segs| - 1][|segs[|segs| - 1]| - 1]
  {
    if |segs| > 1 {
      JoinEnds(segs[1..]);
      assert Join(segs) == segs[0] + "." + Join(segs[1..]);
    }
  }

  /** The recogniser accepts the text of every well-formed path, and gives back
      that very path: `Render` and `Parse` are inverse. */
  lemma ParseRender(p: PathSyntax)
    requires WellFormed(p)
    ensures Parse(Render(p)) == Some(p)
  {
    if p.Dotted? {
      var Dotted(lead, segs, marker) := p;
      var j := Join(segs);
      JoinEnds(segs);
      assert IsLetter(j[0]) && IsIdentChar(j[|j| - 1]);
      var s := Render(p);
      var rest := j + (if marker then "[]" else "");
      assert s == (if lead then "." else "") + rest;
      if lead {
        assert |s| >= 2;
      } else {
        assert s[0] == j[0];
      }
      assert (|s| > 0 && s[0] == '.') == lead;
      if lead {
        assert s[1..] == rest;
      }
      assert EndsWith(rest, "[]") == marker by {
        if !marker {
          assert rest[|rest| - 1] == j[|j| - 1];
        } else {
          assert rest[|rest| - 2..] == "[]";
        }
      }
      if marker {
        assert rest[..|rest| - 2] == j;
      }
      var body := if marker then rest[..|rest| - 2] else rest;
      assert body == j;
      SplitJoin(segs);
      assert Split(body) == segs;
      assert ParseDotted(lead, rest) == Some(p);
      if !lead {
        assert s == rest;
      }
      assert Parse(s) == ParseDotted(lead, rest);
    }
  }

  /** Whatever the recogniser accepts is in the language. */
  lemma ValidIsInLanguage(s: string)
    requires IsValidFieldPath(s)
    ensures InLanguage(s)
  {
    if Parse(s).Some? {
      assert Denotes(Parse(s).value, s);
    } else {
      NewlineIsInLanguage(s[..|s| - 1], s);
    }
  }

  lemma NewlineIsInLanguage(t: string, s: string)
    requires |s| > 0 && s[|s| - 1] == '\n' && t == s[..|s| - 1]
    requires Parse(t).Some?
    ensures InLanguage(s)
  {
    assert s == t + "\n";
    assert Denotes(Parse(t).value, s);
  }

  /** Everything in the language is accepted by the recogniser. */
  lemma LanguageIsValid(s: string)
    requires InLanguage(s)
    ensures IsValidFieldPath(s)
  {
    var p :| Denotes(p, s);
    ParseRender(p);
    if Render(p) != s {
      assert s[..|s| - 1] == Render(p);
    }
  }

  /** The recogniser with the newline rule accepts exactly the language. */
  lemma IsValidFieldPathIsLanguage(s: string)
    ensures IsValidFieldPath(s) <==> InLanguage(s)
  {
    if IsValidFieldPath(s) {
      ValidIsInLanguage(s);
    }
    if InLanguage(s) {
      LanguageIsValid(s);
    }
  }

  /** What the `ValueError` for an ill-formed name says after the name. */
  const FieldNameAdvice := " does not adhere to Protobuf 3 language specification, "
    + "may be prepended with '.' or appended with '[]'. Alternatively, '.' should be used for "
    + "performing validations on the 'root' proto."

  /** The `ValueError` message for an ill-formed name (fields.py:28-32). */
  function FieldNameError(name: string): string
  {
    "Field name " + name + FieldNameAdvice
  }

  lemma FieldNameErrorLength(name: string)
    ensures |FieldNameError(name)| == |name| + 196
  {
    assert |FieldNameAdvice| == 185;
  }

  /** Whether each name is well formed. */
  function Validity(names: seq<string>): (oks: seq<bool>)
    ensures |oks| == |names| && forall i :: 0 <= i < |names| ==> oks[i] == IsValidFieldPath(names[i])
  {
    seq(|names|, i requires 0 <= i < |names| => IsValidFieldPath(names[i]))
  }

  /** The position of the first false flag, in iteration order. */
  function FirstInvalid(oks: seq<bool>): (r: Option<nat>)
    ensures r.Some? ==> r.value < |oks|
  {
    if oks == [] then None
    else if !oks[0] then Some(0)
    else
      match FirstInvalid(oks[1..])
      case None => None
      case Some(k) => Some(k + 1)
  }

  /** `FirstInvalid` finds a false flag exactly when there is one, and it
      finds the first. */
  lemma {:induction false} FirstInvalidIsFirst(oks: seq<bool>)
    ensures var r := FirstInvalid(oks);
            && (r.None? <==> forall i :: 0 <= i < |oks| ==> oks[i])
            && (r.Some? ==> r.value < |oks| && !oks[r.value] && forall j :: 0 <= j < r.value ==> oks[j])
  {
    if oks != [] && oks[0] {
      FirstInvalidIsFirst(oks[1..]);
      assert forall i :: 1 <= i < |oks| ==> oks[i] == oks[1..][i - 1];
    }
  }

  /** `validate_field_names` (fields.py:26-32): returns normally (None) when
      every name is well formed, otherwise raises a `ValueError` naming the
      first ill-formed one. */
  function ValidateFieldNames(names: seq<string>): Option<Exception>
  {
    match FirstInvalid(Validity(names))
    case None => None
    case Some(k) => Some(ValueError(FieldNameError(names[k])))
  }

  /** `validate_field_names` passes exactly when every name is well formed,
      and otherwise names the first ill-formed one. */
  lemma ValidateFieldNamesRejectsFirstInvalid(names: seq<string>)
    ensures var r := ValidateFieldNames(names);
            && (r.None? <==> forall i :: 0 <= i < |names| ==> IsValidFieldPath(names[i]))
            && (r.Some? ==> exists k :: 0 <= k < |names| && !IsValidFieldPath(names[k])
                              && (forall j :: 0 <= j < k ==> IsValidFieldPath(names[j]))
                              && r.value == ValueError(FieldNameError(names[k])))
  {
    FirstInvalidIsFirst(Validity(names));
  }
}
