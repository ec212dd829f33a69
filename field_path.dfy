/** src/grpc_argument_validator/field_path.py: a second copy of
    `is_valid_field_path` with the same regular expression.

    Here it is written as the finite automaton the expression compiles to,
    scanning the path one character at a time, so that it is an independent
    definition of the same language: `SameAsFields` proves it agrees with
    `Fields.IsValidFieldPath` on every string, and the lemmas below state the
    grammar's rules (where dots, letters and the "[]" marker may stand)
    directly from the automaton. */
module FieldPath {
  import opened Strings
  import Fields

  /** Where the scanner is in the expression
      `^(?:\.|\.?(?:[a-zA-Z][a-zA-Z_0-9]*\.)*(?:[a-zA-Z][a-zA-Z_0-9]*)(?:\[\])?)$`. */
  datatype State =
    | Start        // nothing read
    | LeadDot      // read the leading '.', which alone is the root path
    | InIdent      // inside an identifier
    | AfterSep     // read a '.' that separates two identifiers
    | OpenBracket  // read the '[' of the marker
    | AfterMarker  // read the whole "[]" marker
    | AfterNewline // read the one newline `$` may skip
    | Dead         // no continuation can match

  /** The states in which the anchored match succeeds. */
  predicate Accepting(q: State)
  {
    q == LeadDot || q == InIdent || q == AfterMarker || q == AfterNewline
  }

  function Step(q: State, c: char): State
  {
    match q
    case Start =>
      if c == '.' then LeadDot else if Fields.IsLetter(c) then InIdent else Dead
    case LeadDot =>
      if Fields.IsLetter(c) then InIdent else if c == '\n' then AfterNewline else Dead
    case InIdent =>
      if Fields.IsIdentChar(c) then InIdent
      else if c == '.' then AfterSep
      else if c == '[' then OpenBracket
      else if c == '\n' then AfterNewline
      else Dead
    case AfterSep =>
      if Fields.IsLetter(c) then InIdent else Dead
    case OpenBracket =>
      if c == ']' then AfterMarker else Dead
    case AfterMarker =>
      if c == '\n' then AfterNewline else Dead
    case AfterNewline => Dead
    case Dead => Dead
  }

  /** The state reached from `q` after reading all of `s`. */
  function Run(q: State, s: string): State
    decreases |s|
  {
    if s == [] then q else Run(Step(q, s[0]), s[1..])
  }

  /** `is_valid_field_path` (field_path.py:5). */
  predicate IsValidFieldPath(path: string)
  {
    Accepting(Run(Start, path))
  }

  // ---------------------------------------------------------------------------
  // Facts about the automaton

  lemma RunCons(q: State, s: string)
    requires s != []
    ensures Run(q, s) == Run(Step(q, s[0]), s[1..])
  {
  }

  lemma {:induction false} RunConcat(q: State, a: string, b: string)
    ensures Run(q, a + b) == Run(Run(q, a), b)
    decreases |a|
  {
    if a != [] {
      assert (a + b)[0] == a[0] && (a + b)[1..] == a[1..] + b;
      RunConcat(Step(q, a[0]), a[1..], b);
    } else {
      assert a + b == b;
    }
  }

  lemma {:induction false} DeadStaysDead(s: string)
    ensures Run(Dead, s) == Dead
  {
    if s != [] {
      DeadStaysDead(s[1..]);
    }
  }

  /** After a newline only the end of the input is accepted. */
  lemma AfterNewlineRun(s: string)
    ensures Accepting(Run(AfterNewline, s)) <==> s == []
  {
    if s != [] {
      DeadStaysDead(s[1..]);
    }
  }

  /** After the marker only the end of the input or one newline is accepted. */
  lemma AfterMarkerRun(s: string)
    ensures Accepting(Run(AfterMarker, s)) <==> s == [] || s == "\n"
  {
    if s != [] {
      if s[0] == '\n' {
        AfterNewlineRun(s[1..]);
        assert s[1..] == [] <==> s == "\n";
      } else {
        DeadStaysDead(s[1..]);
      }
    }
  }

  /** After '[' only "]" or "]\n" completes the path. */
  lemma OpenBracketRun(s: string)
    ensures Accepting(Run(OpenBracket, s)) <==> s == "]" || s == "]\n"
  {
    if s != [] {
      if s[0] == ']' {
        AfterMarkerRun(s[1..]);
        assert s == [s[0]] + s[1..];
      } else {
        DeadStaysDead(s[1..]);
      }
    }
  }

  /** A separator must be followed by a letter. */
  lemma AfterSepRun(s: string)
    requires Accepting(Run(AfterSep, s))
    ensures |s| > 0 && Fields.IsLetter(s[0])
  {
    if s != [] && !Fields.IsLetter(s[0]) {
      DeadStaysDead(s[1..]);
    }
  }

  /** Reading an identifier from a state where one may begin ends inside it. */
  lemma {:induction false} RunIdentifier(q: State, w: string)
    requires q == Start || q == LeadDot || q == AfterSep || q == InIdent
    requires Fields.IsIdentifier(w)
    ensures Run(q, w) == InIdent
  {
    assert Step(q, w[0]) == InIdent;
    RunIdentChars(w[1..]);
  }

  lemma {:induction false} RunIdentChars(w: string)
    requires forall i :: 0 <= i < |w| ==> Fields.IsIdentChar(w[i])
    ensures Run(InIdent, w) == InIdent
  {
    if w != [] {
      RunIdentChars(w[1..]);
    }
  }

  /** Reading identifiers joined by dots ends inside the last identifier. */
  lemma {:induction false} RunJoin(q: State, segs: seq<string>)
    requires q == Start || q == LeadDot || q == AfterSep
    requires |segs| >= 1 && Fields.AllIdentifiers(segs)
    ensures Run(q, Join(segs)) == InIdent
    decreases |segs|
  {
    RunIdentifier(q, segs[0]);
    if |segs| > 1 {
      var rest := "." + Join(segs[1..]);
      assert Join(segs) == segs[0] + rest;
      RunConcat(q, segs[0], rest);
      assert rest[0] == '.' && rest[1..] == Join(segs[1..]);
      RunJoin(AfterSep, segs[1..]);
    }
  }

  // ---------------------------------------------------------------------------
  // The automaton accepts exactly the language of Fields

  /** Every path in the language, with or without a trailing newline, is accepted. */
  lemma AcceptsLanguage(p: Fields.PathSyntax, s: string)
    requires Fields.Denotes(p, s)
    ensures IsValidFieldPath(s)
  {
    var t := Fields.Render(p);
    var end: State;
    match p {
      case Root =>
        end := LeadDot;
        RunCons(Start, t);
        assert Run(Start, t) == end;
      case Dotted(lead, segs, marker) =>
        var q := if lead then LeadDot else Start;
        var j := Join(segs);
        RunJoin(q, segs);
        var m := if marker then "[]" else "";
        if lead {
          assert t == "." + (j + m);
          RunConcat(Start, ".", j + m);
        } else {
          assert t == j + m;
        }
        RunConcat(q, j, m);
        end := if marker then AfterMarker else InIdent;
        if marker {
          RunCons(InIdent, m);
          RunCons(OpenBracket, m[1..]);
        }
        assert Run(InIdent, m) == end;
        if lead {
          RunCons(Start, ".");
        }
        assert Run(Start, t) == end;
    }
    if s != t {
      assert s == t + "\n";
      RunConcat(Start, t, "\n");
      RunCons(end, "\n");
    }
  }

  /** What follows the start of an identifier `w` in an accepted input is the
      rest of a dotted path: the out-parameters are the pieces. */
  lemma {:induction false} IdentifierTail(w: string, s: string) returns (segs: seq<string>, marker: bool, newline: bool)
    requires Fields.IsIdentifier(w)
    requires Accepting(Run(InIdent, s))
    ensures |segs| >= 1 && Fields.AllIdentifiers(segs)
    ensures w + s == Join(segs) + (if marker then "[]" else "") + (if newline then "\n" else "")
    decreases |s|, 1
  {
    if s == [] {
      segs, marker, newline := [w], false, false;
      assert w + s == w;
    } else {
      var c, t := s[0], s[1..];
      assert s == [c] + t;
      RunCons(InIdent, s);
      DeadStaysDead(t);
      if Fields.IsIdentChar(c) {
        segs, marker, newline := IdentifierTail(w + [c], t);
        assert w + s == (w + [c]) + t;
      } else if c == '.' {
        segs, marker, newline := SeparatorTail(w, t);
      } else if c == '[' {
        OpenBracketRun(t);
        segs, marker, newline := [w], true, t == "]\n";
      } else {
        assert c == '\n';
        AfterNewlineRun(t);
        segs, marker, newline := [w], false, true;
      }
    }
  }

  /** The case of `IdentifierTail` where the identifier `w` is followed by a
      separator and then `t`. */
  lemma {:induction false} SeparatorTail(w: string, t: string) returns (segs: seq<string>, marker: bool, newline: bool)
    requires Fields.IsIdentifier(w)
    requires Accepting(Run(AfterSep, t))
    ensures |segs| >= 1 && Fields.AllIdentifiers(segs)
    ensures w + "." + t == Join(segs) + (if marker then "[]" else "") + (if newline then "\n" else "")
    decreases |t|, 0
  {
    AfterSepRun(t);
    RunCons(AfterSep, t);
    var more: seq<string>;
    more, marker, newline := IdentifierTail([t[0]], t[1..]);
    segs := [w] + more;
    assert segs[0] == w && segs[1..] == more;
    assert Join(segs) == w + "." + Join(more);
    assert [t[0]] + t[1..] == t;
  }

  /** A join of identifiers with its optional marker and newline, after the
      optional leading dot, is the text of a dotted path. */
  lemma DottedDenotes(lead: bool, segs: seq<string>, marker: bool, newline: bool, body: string)
    requires |segs| >= 1 && Fields.AllIdentifiers(segs)
    requires body == Join(segs) + (if marker then "[]" else "") + (if newline then "\n" else "")
    ensures Fields.Denotes(Fields.Dotted(lead, segs, marker), (if lead then "." else "") + body)
  {
    var pre := if lead then "." else "";
    var m := if marker then "[]" else "";
    var p := Fields.Dotted(lead, segs, marker);
    assert Fields.Render(p) == pre + Join(segs) + m;
    if newline {
      assert pre + body == Fields.Render(p) + "\n";
    } else {
      assert pre + body == Fields.Render(p);
    }
  }

  /** An accepted input that starts with a letter is a dotted path. */
  lemma LetterStartIsInLanguage(lead: bool, s: string)
    requires s != [] && Fields.IsLetter(s[0]) && Accepting(Run(InIdent, s[1..]))
    ensures Fields.InLanguage((if lead then "." else "") + s)
  {
    var segs, marker, newline := IdentifierTail([s[0]], s[1..]);
    assert [s[0]] + s[1..] == s;
    DottedDenotes(lead, segs, marker, newline, s);
  }

  /** An accepted input that starts with the root dot is in the language. */
  lemma LeadDotIsInLanguage(t: string)
    requires Accepting(Run(LeadDot, t))
    ensures Fields.InLanguage("." + t)
  {
    if t == [] {
      assert Fields.Denotes(Fields.Root, "." + t);
    } else {
      RunCons(LeadDot, t);
      DeadStaysDead(t[1..]);
      if t[0] == '\n' {
        AfterNewlineRun(t[1..]);
        assert t == "\n";
        assert Fields.Denotes(Fields.Root, "." + t);
      } else {
        LetterStartIsInLanguage(true, t);
        assert (if true then "." else "") + t == "." + t;
      }
    }
  }

  /** Every accepted input is in the language. */
  lemma AcceptedIsInLanguage(s: string)
    requires IsValidFieldPath(s)
    ensures Fields.InLanguage(s)
  {
    assert s != [];
    RunCons(Start, s);
    DeadStaysDead(s[1..]);
    if s[0] == '.' {
      assert s == "." + s[1..];
      LeadDotIsInLanguage(s[1..]);
    } else {
      LetterStartIsInLanguage(false, s);
      assert "" + s == s;
    }
  }

  /** The two copies of `is_valid_field_path` (field_path.py:5 and
      fields.py:13) accept exactly the same strings. */
  lemma SameAsFields(s: string)
    ensures IsValidFieldPath(s) <==> Fields.IsValidFieldPath(s)
  {
    Fields.IsValidFieldPathIsLanguage(s);
    if IsValidFieldPath(s) {
      AcceptedIsInLanguage(s);
    }
    if Fields.InLanguage(s) {
      var p :| Fields.Denotes(p, s);
      AcceptsLanguage(p, s);
    }
  }

  // ---------------------------------------------------------------------------
  // The grammar's rules, read off the automaton

  /** The state after the first `i` characters, and the run of the rest from it. */
  lemma SplitRun(s: string, i: nat)
    requires i < |s|
    ensures Run(Start, s) == Run(Step(Run(Start, s[..i]), s[i]), s[i + 1..])
  {
    assert s == s[..i] + s[i..];
    RunConcat(Start, s[..i], s[i..]);
    RunCons(Run(Start, s[..i]), s[i..]);
    assert s[i..][1..] == s[i + 1..];
  }

  /** A path starts with the root dot or with a letter: "0" and "-" are rejected. */
  lemma FirstCharacter(s: string)
    requires IsValidFieldPath(s)
    ensures |s| > 0 && (s[0] == '.' || Fields.IsLetter(s[0]))
  {
    assert s != [];
    SplitRun(s, 0);
    DeadStaysDead(s[1..]);
  }

  /** A '.' other than the leading one is followed by a letter: no trailing
      dot ("a."), no empty segment ("a..b"). The leading one is the whole
      root path, or is followed by a letter (".a.b"). */
  lemma DotFollowedByLetter(s: string, i: nat)
    requires IsValidFieldPath(s)
    requires i < |s| && s[i] == '.'
    ensures i > 0 ==> i + 1 < |s| && Fields.IsLetter(s[i + 1])
    ensures i == 0 ==> s == "." || s == ".\n" || Fields.IsLetter(s[1])
  {
    SplitRun(s, i);
    var q := Run(Start, s[..i]);
    DeadStaysDead(s[i + 1..]);
    if i > 0 {
      assert q != Start by {
        var k := i - 1;
        assert s[..i] == s[..k] + [s[k]];
        RunConcat(Start, s[..k], [s[k]]);
        RunCons(Run(Start, s[..k]), [s[k]]);
      }
      assert Step(q, '.') == AfterSep;
      AfterSepRun(s[i + 1..]);
    } else {
      assert Step(q, '.') == LeadDot;
      if |s| > 1 {
        SplitRun(s, 1);
        assert s[..1] == ".";
        RunCons(Start, ".");
        DeadStaysDead(s[2..]);
        if s[1] == '\n' {
          AfterNewlineRun(s[2..]);
          assert s == [s[0], s[1]];
        }
      }
    }
  }

  /** "[" appears only as the start of the one "[]" marker at the very end
      (before the optional newline): "a[].b", "a[][]" and "[]" are rejected. */
  lemma MarkerOnlyAtEnd(s: string, i: nat)
    requires IsValidFieldPath(s)
    requires i < |s| && s[i] == '['
    ensures i > 0
    ensures s[i + 1..] == "]" || s[i + 1..] == "]\n"
  {
    SplitRun(s, i);
    var q := Run(Start, s[..i]);
    DeadStaysDead(s[i + 1..]);
    assert q == InIdent;
    OpenBracketRun(s[i + 1..]);
  }

  /** The one newline `$` tolerates is the last character. */
  lemma NewlineOnlyAtEnd(s: string, i: nat)
    requires IsValidFieldPath(s)
    requires i < |s| && s[i] == '\n'
    ensures i == |s| - 1
  {
    SplitRun(s, i);
    var q := Run(Start, s[..i]);
    DeadStaysDead(s[i + 1..]);
    AfterNewlineRun(s[i + 1..]);
  }

  /** The paths the source's documentation and tests use are accepted. */
  lemma AcceptedExamples()
    ensures IsValidFieldPath(".") && IsValidFieldPath("a.b") && IsValidFieldPath(".a.b")
    ensures IsValidFieldPath("tags[]") && IsValidFieldPath("a_1") && IsValidFieldPath("a\n")
  {
  }

  /** Shapes the expression rejects. */
  lemma RejectedExamples()
    ensures !IsValidFieldPath("") && !IsValidFieldPath("0") && !IsValidFieldPath("-")
    ensures !IsValidFieldPath("a.") && !IsValidFieldPath("a..b") && !IsValidFieldPath("[]")
    ensures !IsValidFieldPath("..") && !IsValidFieldPath("1a")
  {
  }

  /** The marker and the newline only at the very end. */
  lemma RejectedSuffixExamples()
    ensures !IsValidFieldPath("a[].b") && !IsValidFieldPath("a[][]") && !IsValidFieldPath("a\n\n")
  {
  }
}
