/** The few string operations of Go's `strings` and `regexp` packages that the
    parser relies on, written out over `seq<char>`. */
module Text {

  predicate StartsWith(s: string, p: string)
  {
    |p| <= |s| && s[..|p|] == p
  }

  /** `strings.Contains(s, p)`: `p` occurs somewhere in `s`. */
  predicate Contains(s: string, p: string)
    decreases |s|
  {
    StartsWith(s, p) || (|s| > 0 && Contains(s[1..], p))
  }

  /** For a one-character pattern, Contains is plain membership. */
  lemma {:induction false} ContainsChar(s: string, c: char)
    ensures Contains(s, [c]) <==> c in s
  {
    if |s| > 0 {
      ContainsChar(s[1..], c);
      assert s == [s[0]] + s[1..];
    }
  }

  /** `p` occurs in `s` starting at position `i`. */
  predicate OccursAt(s: string, p: string, i: int)
  {
    0 <= i && i + |p| <= |s| && s[i..i + |p|] == p
  }

  /** Contains finds exactly the positions at which the pattern starts. */
  lemma {:induction false} ContainsAt(s: string, p: string)
    ensures Contains(s, p) <==> exists i :: OccursAt(s, p, i)
  {
    if OccursAt(s, p, 0) {
      assert StartsWith(s, p);
    } else if |s| > 0 {
      ContainsAt(s[1..], p);
      if Contains(s[1..], p) {
        var i :| OccursAt(s[1..], p, i);
        assert s[i + 1..i + 1 + |p|] == s[1..][i..i + |p|];
        assert OccursAt(s, p, i + 1);
      }
      if i :| OccursAt(s, p, i) {
        assert i > 0;
        assert s[1..][i - 1..i - 1 + |p|] == s[i..i + |p|];
        assert OccursAt(s[1..], p, i - 1);
      }
    }
  }

  /** `strings.Index(s, string(c))` for a character that occurs in `s`. */
  function IndexOf(s: string, c: char): (k: nat)
    requires c in s
    ensures k < |s| && s[k] == c && c !in s[..k]
  {
    if s[0] == c then 0
    else
      var k := 1 + IndexOf(s[1..], c);
      assert s[..k] == [s[0]] + s[1..][..k - 1];
      k
  }

  /** `strings.Replace(s, pat, "", -1)`: every occurrence found in a
      left-to-right scan is removed, occurrences do not overlap. */
  function RemoveAll(s: string, pat: string): (r: string)
    requires |pat| > 0
    decreases |s|
  {
    if |s| < |pat| then s
    else if s[..|pat|] == pat then RemoveAll(s[|pat|..], pat)
    else [s[0]] + RemoveAll(s[1..], pat)
  }

  /** Removing occurrences never lengthens a string, and a string in which the
      pattern does not occur is left as it is. */
  lemma {:induction false} RemoveAllShrinks(s: string, pat: string)
    requires |pat| > 0
    ensures |RemoveAll(s, pat)| <= |s|
    ensures !Contains(s, pat) ==> RemoveAll(s, pat) == s
  {
    if |s| >= |pat| {
      if s[..|pat|] == pat {
        RemoveAllShrinks(s[|pat|..], pat);
      } else {
        RemoveAllShrinks(s[1..], pat);
        assert [s[0]] + s[1..] == s;
      }
    }
  }

  predicate NoSeparator(t: string, seps: set<char>)
  {
    forall j :: 0 <= j < |t| ==> t[j] !in seps
  }

  /** Length of the longest prefix of `s` without a separator. */
  function Leading(s: string, seps: set<char>): (k: nat)
    ensures k <= |s| && NoSeparator(s[..k], seps)
    ensures k < |s| ==> s[k] in seps
  {
    if |s| == 0 || s[0] in seps then 0
    else
      var k := 1 + Leading(s[1..], seps);
      assert s[..k] == [s[0]] + s[1..][..k - 1];
      k
  }

  /** Length of the longest prefix of `s` made of separators only. */
  function RunLength(s: string, seps: set<char>): (k: nat)
    ensures k <= |s|
    ensures forall j :: 0 <= j < k ==> s[j] in seps
    ensures k < |s| ==> s[k] !in seps
  {
    if |s| == 0 || s[0] !in seps then 0 else 1 + RunLength(s[1..], seps)
  }

  /** `regexp.MustCompile("[seps]+").Split(s, -1)`: the pieces of `s` between
      maximal runs of separators. A separator run at either end yields an
      empty first or last piece, and the empty string splits into [""]. */
  function Split(s: string, seps: set<char>): (pieces: seq<string>)
    ensures |pieces| >= 1
    ensures forall i :: 0 <= i < |pieces| ==> NoSeparator(pieces[i], seps)
    decreases |s|
  {
    var k := Leading(s, seps);
    if k == |s| then [s]
    else
      var rest := s[k..];
      [s[..k]] + Split(rest[RunLength(rest, seps)..], seps)
  }

  /** The first piece is the text before the first separator, and there is
      only one piece exactly when `s` has no separator at all. */
  lemma {:induction false} SplitHead(s: string, seps: set<char>)
    ensures Split(s, seps)[0] == s[..Leading(s, seps)]
    ensures |Split(s, seps)| == 1 <==> NoSeparator(s, seps)
  {
    var k := Leading(s, seps);
    if k < |s| {
      assert s[k] in seps;
    } else {
      assert s[..k] == s;
    }
  }

  /** Joined back with the separator runs taken out, the pieces give `s`
      again: splitting loses only separators. */
  lemma {:induction false} SplitJoin(s: string, seps: set<char>)
    ensures Concat(Split(s, seps)) == Strip(s, seps)
    decreases |s|
  {
    var k := Leading(s, seps);
    if k == |s| {
      StripNone(s, seps);
      assert Concat([s]) == s + Concat([]);
    } else {
      var rest := s[k..];
      var n := RunLength(rest, seps);
      SplitJoin(rest[n..], seps);
      StripNone(s[..k], seps);
      StripAppend(s[..k], rest, seps);
      StripRun(rest, n, seps);
      assert s == s[..k] + rest;
      assert Split(s, seps) == [s[..k]] + Split(rest[n..], seps);
    }
  }

  /** Concatenation of a sequence of strings. */
  function Concat(ss: seq<string>): string
  {
    if ss == [] then "" else ss[0] + Concat(ss[1..])
  }

  /** `s` with every separator character removed. */
  function Strip(s: string, seps: set<char>): string
  {
    if s == [] then "" else (if s[0] in seps then "" else [s[0]]) + Strip(s[1..], seps)
  }

  lemma {:induction false} StripNone(s: string, seps: set<char>)
    requires NoSeparator(s, seps)
    ensures Strip(s, seps) == s
  {
    if s != [] {
      StripNone(s[1..], seps);
      assert s == [s[0]] + s[1..];
    }
  }

  lemma {:induction false} StripAppend(a: string, b: string, seps: set<char>)
    ensures Strip(a + b, seps) == Strip(a, seps) + Strip(b, seps)
  {
    if a == [] {
      assert a + b == b;
    } else {
      StripAppend(a[1..], b, seps);
      assert (a + b)[0] == a[0] && (a + b)[1..] == a[1..] + b;
      var h := if a[0] in seps then "" else [a[0]];
      assert Strip(a + b, seps) == h + Strip(a[1..] + b, seps);
      assert Strip(a, seps) == h + Strip(a[1..], seps);
      assert h + (Strip(a[1..], seps) + Strip(b, seps)) == (h + Strip(a[1..], seps)) + Strip(b, seps);
    }
  }

  lemma {:induction false} StripRun(s: string, n: nat, seps: set<char>)
    requires n <= |s|
    requires forall j :: 0 <= j < n ==> s[j] in seps
    ensures Strip(s, seps) == Strip(s[n..], seps)
  {
    if n > 0 {
      StripRun(s[1..], n - 1, seps);
      assert s[1..][n - 1..] == s[n..];
    }
  }

  lemma {:induction false} LeadingPrefix(a: string, r: string, seps: set<char>)
    requires NoSeparator(a, seps) && (r == [] || r[0] in seps)
    ensures Leading(a + r, seps) == |a|
  {
    if a == [] {
      assert a + r == r;
    } else {
      LeadingPrefix(a[1..], r, seps);
      assert (a + r)[1..] == a[1..] + r;
    }
  }

  lemma {:induction false} RunLengthPrefix(a: string, r: string, seps: set<char>)
    requires forall j :: 0 <= j < |a| ==> a[j] in seps
    requires r == [] || r[0] !in seps
    ensures RunLength(a + r, seps) == |a|
  {
    if a == [] {
      assert a + r == r;
    } else {
      RunLengthPrefix(a[1..], r, seps);
      assert (a + r)[1..] == a[1..] + r;
    }
  }

  /** A separator-free word followed by a run of separators splits off as
      the first piece, the rest splitting on its own. */
  lemma {:induction false} SplitCons(a: string, run: string, b: string, seps: set<char>)
    requires NoSeparator(a, seps)
    requires |run| > 0 && forall j :: 0 <= j < |run| ==> run[j] in seps
    requires b == [] || b[0] !in seps
    ensures Split(a + run + b, seps) == [a] + Split(b, seps)
  {
    var s := a + run + b;
    assert s == a + (run + b);
    LeadingPrefix(a, run + b, seps);
    assert s[..|a|] == a;
    var rest := s[|a|..];
    assert rest == run + b;
    RunLengthPrefix(run, b, seps);
    assert rest[|run|..] == b;
  }

  /** Two separator-free words around one run of separators split into
      exactly those two words. */
  lemma {:induction false} SplitPair(a: string, run: string, b: string, seps: set<char>)
    requires NoSeparator(a, seps) && NoSeparator(b, seps)
    requires |run| > 0 && forall j :: 0 <= j < |run| ==> run[j] in seps
    ensures Split(a + run + b, seps) == [a, b]
  {
    SplitCons(a, run, b, seps);
    LeadingPrefix(b, [], seps);
    assert b + [] == b;
  }

  /** Three separator-free words, separated by two runs of separators,
      split into exactly those three words. */
  lemma {:induction false} SplitTriple(a: string, r1: string, b: string, r2: string, c: string, seps: set<char>)
    requires NoSeparator(a, seps) && NoSeparator(b, seps) && NoSeparator(c, seps)
    requires |r1| > 0 && forall j :: 0 <= j < |r1| ==> r1[j] in seps
    requires |r2| > 0 && forall j :: 0 <= j < |r2| ==> r2[j] in seps
    requires |b| > 0
    ensures Split(a + r1 + (b + r2 + c), seps) == [a, b, c]
  {
    var tail := b + r2 + c;
    assert tail[0] == b[0];
    SplitCons(a, r1, tail, seps);
    SplitPair(b, r2, c, seps);
  }

  /** A pattern holding a character that `s` lacks does not occur in `s`. */
  lemma {:induction false} MissingChar(s: string, p: string, c: char)
    requires c in p && c !in s
    ensures !Contains(s, p)
  {
    if |p| <= |s| {
      assert c !in s[..|p|];
    }
    if |s| > 0 {
      MissingChar(s[1..], p, c);
    }
  }

  /** A pattern whose second character occurs in `s` only at position `k`,
      and there not after the pattern's first character, does not occur
      in `s`. */
  lemma {:induction false} MissingPair(s: string, p: string, k: nat)
    requires |p| >= 2 && k < |s|
    requires p[1] !in s[..k] && p[1] !in s[k + 1..]
    requires k == 0 || s[k - 1] != p[0]
    ensures !Contains(s, p)
  {
    ContainsAt(s, p);
    forall i ensures !OccursAt(s, p, i) {
      if 0 <= i && i + |p| <= |s| {
        assert s[i..i + |p|][0] == s[i] && s[i..i + |p|][1] == s[i + 1];
        if i + 1 < k {
          assert s[..k][i + 1] == s[i + 1];
        } else if i + 1 > k {
          assert s[k + 1..][i - k] == s[i + 1];
        }
      }
    }
  }
}
