/** The Python `str` operations the validator relies on, written out over
    `seq<char>`: `split(".")`, `sep.join(parts)`, `rstrip("[]")`, `endswith`,
    a slice `s[:n]`, and `str(i)` for a non-negative index. */
module Strings {

  /** Number of '.' characters in `s`. */
  function CountDots(s: string): nat
  {
    if s == [] then 0 else (if s[0] == '.' then 1 else 0) + CountDots(s[1..])
  }

  /** `s.split(".")`: the pieces between dots, one more than there are dots,
      none of them containing a dot. */
  function Split(s: string): (parts: seq<string>)
    ensures |parts| == CountDots(s) + 1
    ensures forall i :: 0 <= i < |parts| ==> '.' !in parts[i]
  {
    if s == [] then [""]
    else
      var rest := Split(s[1..]);
      if s[0] == '.' then [""] + rest
      else [[s[0]] + rest[0]] + rest[1..]
  }

  /** `sep.join(parts)`. */
  function JoinWith(sep: string, parts: seq<string>): string
  {
    if |parts| == 0 then ""
    else if |parts| == 1 then parts[0]
    else parts[0] + sep + JoinWith(sep, parts[1..])
  }

  /** `".".join(parts)`. */
  function Join(parts: seq<string>): string
  {
    JoinWith(".", parts)
  }

  /** Splitting `a + s` where `a` has no dot glues `a` onto the first piece of `s`. */
  lemma {:induction false} SplitPrepend(a: string, s: string)
    requires '.' !in a
    ensures Split(a + s) == [a + Split(s)[0]] + Split(s)[1..]
  {
    if a != [] {
      calc {
        Split(a + s);
        { assert (a + s)[0] == a[0] && (a + s)[1..] == a[1..] + s; }
        [[a[0]] + Split(a[1..] + s)[0]] + Split(a[1..] + s)[1..];
        { SplitPrepend(a[1..], s); }
        [[a[0]] + (a[1..] + Split(s)[0])] + Split(s)[1..];
        { assert [a[0]] + (a[1..] + Split(s)[0]) == a + Split(s)[0]; }
        [a + Split(s)[0]] + Split(s)[1..];
      }
    } else {
      var parts := Split(s);
      assert a + s == s && a + parts[0] == parts[0];
      assert parts == [parts[0]] + parts[1..];
    }
  }

  /** A dot-free string splits into itself. */
  lemma SplitNoDot(a: string)
    requires '.' !in a
    ensures Split(a) == [a]
  {
    SplitPrepend(a, "");
    assert a + "" == a && a + Split("")[0] == a;
  }

  /** Splitting at the first dot of `a + "." + b`, `a` having none. */
  lemma SplitDotted(a: string, b: string)
    requires '.' !in a
    ensures Split(a + "." + b) == [a] + Split(b)
  {
    SplitPrepend(a, "." + b);
    assert ("." + b)[0] == '.' && ("." + b)[1..] == b;
    assert Split("." + b) == [""] + Split(b);
    assert a + "" == a;
    assert a + "." + b == a + ("." + b);
  }

  /** Joining the pieces of a split gives back the string. */
  lemma {:induction false} JoinSplit(s: string)
    ensures Join(Split(s)) == s
  {
    if s != [] {
      var rest := Split(s[1..]);
      JoinSplit(s[1..]);
      if s[0] == '.' {
        assert Split(s) == [""] + rest;
        assert Join(Split(s)) == "" + "." + Join(rest);
        assert s == [s[0]] + s[1..];
      } else {
        var parts := [[s[0]] + rest[0]] + rest[1..];
        assert Split(s) == parts;
        if |rest| == 1 {
          assert Join(parts) == [s[0]] + rest[0];
          assert Join(rest) == rest[0];
        } else {
          assert parts[1..] == rest[1..];
          assert Join(parts) == [s[0]] + rest[0] + "." + Join(rest[1..]);
          assert Join(rest) == rest[0] + "." + Join(rest[1..]);
        }
        assert s == [s[0]] + s[1..];
      }
    }
  }

  /** Joining peels off the last piece as it does the first. */
  lemma {:induction false} JoinSnoc(parts: seq<string>)
    requires |parts| >= 2
    ensures Join(parts) == Join(parts[..|parts| - 1]) + "." + parts[|parts| - 1]
  {
    var init := parts[..|parts| - 1];
    if |parts| == 2 {
      assert init == [parts[0]] && parts[1..] == [parts[1]];
      assert Join(init) == parts[0] && Join(parts[1..]) == parts[1];
      assert Join(parts) == parts[0] + "." + parts[1];
    } else {
      JoinSnoc(parts[1..]);
      assert parts[1..][..|parts| - 2] == init[1..];
      assert init[0] == parts[0];
    }
  }

  /** Splitting a join of dot-free pieces gives back the pieces. */
  lemma {:induction false} SplitJoin(parts: seq<string>)
    requires |parts| >= 1
    requires forall i :: 0 <= i < |parts| ==> '.' !in parts[i]
    ensures Split(Join(parts)) == parts
  {
    if |parts| == 1 {
      SplitPrepend(parts[0], "");
      assert parts[0] + "" == parts[0];
    } else {
      var tail := parts[1..];
      SplitJoin(tail);
      var t := "." + Join(tail);
      assert Join(parts) == parts[0] + t;
      SplitPrepend(parts[0], t);
      assert t[0] == '.' && t[1..] == Join(tail);
      assert Split(t) == [""] + tail;
      assert parts[0] + "" == parts[0];
    }
  }

  /** `s.endswith(suffix)`. */
  predicate EndsWith(s: string, suffix: string)
  {
    |suffix| <= |s| && s[|s| - |suffix|..] == suffix
  }

  /** `s.rstrip("[]")`: drops every trailing '[' and ']'. */
  function RStripBrackets(s: string): (r: string)
    ensures |r| <= |s| && r == s[..|r|]
    ensures |r| > 0 ==> r[|r| - 1] != '[' && r[|r| - 1] != ']'
    ensures forall i :: |r| <= i < |s| ==> s[i] == '[' || s[i] == ']'
  {
    if |s| > 0 && (s[|s| - 1] == '[' || s[|s| - 1] == ']') then RStripBrackets(s[..|s| - 1]) else s
  }

  /** `[f for f in parts if f != ""]`. */
  function DropEmpty(parts: seq<string>): (r: seq<string>)
    ensures forall i :: 0 <= i < |r| ==> r[i] != "" && r[i] in parts
    ensures |r| <= |parts|
  {
    if parts == [] then []
    else if parts[0] == "" then DropEmpty(parts[1..])
    else [parts[0]] + DropEmpty(parts[1..])
  }

  /** The filter keeps every non-empty piece, as often as it occurs, and
      drops every empty one. */
  lemma {:induction false} DropEmptyKeepsNonEmpty(parts: seq<string>)
    ensures "" !in DropEmpty(parts)
    ensures forall x :: x != "" ==> multiset(DropEmpty(parts))[x] == multiset(parts)[x]
  {
    if parts != [] {
      DropEmptyKeepsNonEmpty(parts[1..]);
      assert parts == [parts[0]] + parts[1..];
    }
  }

  /** Without empty pieces there is nothing to filter. */
  lemma {:induction false} DropEmptyNoEmpty(parts: seq<string>)
    requires "" !in parts
    ensures DropEmpty(parts) == parts
  {
    if parts != [] {
      DropEmptyNoEmpty(parts[1..]);
      assert parts == [parts[0]] + parts[1..];
    }
  }

  /** The filter works piece by piece, so it keeps the order of the pieces:
      filtering a concatenation concatenates the filtered parts. */
  lemma {:induction false} DropEmptyConcat(a: seq<string>, b: seq<string>)
    ensures DropEmpty(a + b) == DropEmpty(a) + DropEmpty(b)
  {
    if a == [] {
      assert a + b == b;
    } else {
      var ab := a + b;
      assert ab[0] == a[0] && ab[1..] == a[1..] + b;
      DropEmptyConcat(a[1..], b);
      if a[0] == "" {
        assert DropEmpty(ab) == DropEmpty(a[1..] + b);
        assert DropEmpty(a) == DropEmpty(a[1..]);
      } else {
        assert DropEmpty(ab) == [a[0]] + DropEmpty(a[1..] + b);
        assert DropEmpty(a) == [a[0]] + DropEmpty(a[1..]);
      }
    }
  }

  /** What a path walk recurses on: the pieces after the first, without the
      empty ones, joined back with dots. Splitting that again gives those
      pieces, so the walk gets shorter. */
  lemma RemainingPath(name: string)
    ensures var parts := Split(name);
            var remaining := DropEmpty(parts[1..]);
            remaining != [] ==> Split(Join(remaining)) == remaining && |remaining| < |parts|
  {
    var parts := Split(name);
    var remaining := DropEmpty(parts[1..]);
    if remaining != [] {
      forall i | 0 <= i < |remaining|
        ensures '.' !in remaining[i]
      {
        var j :| 0 <= j < |parts[1..]| && parts[1..][j] == remaining[i];
        assert parts[j + 1] == remaining[i];
      }
      SplitJoin(remaining);
    }
  }

  /** `s[:n]` for a non-negative `n`. */
  function Truncate(s: string, n: nat): (r: string)
    ensures |r| <= n && |r| <= |s|
    ensures r == s[..|r|]
    ensures |s| <= n ==> r == s
    ensures |s| > n ==> |r| == n
  {
    if |s| <= n then s else s[..n]
  }

  /** The decimal digit for `d < 10`. */
  function DigitChar(d: nat): char
    requires d < 10
  {
    ('0' as int + d) as char
  }

  /** `str(n)` for a non-negative integer: its decimal digits, no leading zero. */
  function NatToString(n: nat): (r: string)
    ensures |r| >= 1
    ensures forall i :: 0 <= i < |r| ==> '0' <= r[i] <= '9'
    ensures |r| > 1 ==> r[0] != '0'
  {
    if n < 10 then [DigitChar(n)] else NatToString(n / 10) + [DigitChar(n % 10)]
  }

  /** The number a string of decimal digits denotes, read left to right. */
  function DigitsValue(s: string): int
  {
    if s == [] then 0 else 10 * DigitsValue(s[..|s| - 1]) + (s[|s| - 1] as int - '0' as int)
  }

  /** The digits of `str(n)` denote `n`. */
  lemma {:induction false} NatToStringValue(n: nat)
    ensures DigitsValue(NatToString(n)) == n
  {
    var r := NatToString(n);
    if n < 10 {
      assert r[..0] == [];
    } else {
      NatToStringValue(n / 10);
      assert r[..|r| - 1] == NatToString(n / 10);
    }
  }

  /** Different indices get different names. */
  lemma NatToStringInjective(m: nat, n: nat)
    requires m != n
    ensures NatToString(m) != NatToString(n)
  {
    NatToStringValue(m);
    NatToStringValue(n);
  }
}
