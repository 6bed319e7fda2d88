/** The include globs: the matcher as it is, the relation it is meant to be, and exactly how
    the two differ. */
module Globs {

  predicate One(p: char, c: char) {
    if p == '?' then c != '/' else p == c
  }

  /** A pattern without `*`, character by character. */
  predicate Fits(p: string, n: string) {
    |p| == |n| && forall i | 0 <= i < |p| :: One(p[i], n[i])
  }

  predicate Begins(p: string, n: string) {
    |p| <= |n| && Fits(p, n[..|p|])
  }

  predicate Ends(p: string, n: string) {
    |p| <= |n| && Fits(p, n[|n| - |p|..])
  }

  // ---- The reference ----------------------------------------------------------------

  /** `*` stands for any string, `?` for any character but `/`. */
  predicate Matches(p: string, n: string)
    decreases |p|
  {
    if p == [] then n == []
    else if p[0] == '*' then exists k :: 0 <= k <= |n| && Matches(p[1..], n[k..])
    else n != [] && One(p[0], n[0]) && Matches(p[1..], n[1..])
  }

  // ---- The matcher ------------------------------------------------------------------

  /** `rest` is what is left of `name`. At a `*` the matcher goes back to the whole name and
      tries every suffix of it but the empty one. */
  predicate Scan(p: string, rest: string, name: string)
    decreases |p|
  {
    if p == [] then rest == []
    else if p[0] == '*' then |p| == 1 || exists k :: 0 <= k < |name| && Scan(p[1..], name[k..], name[k..])
    else rest != [] && One(p[0], rest[0]) && Scan(p[1..], rest[1..], name)
  }

  predicate Accepts(p: string, n: string) {
    Scan(p, n, n)
  }

  /** `glob_matches`. */
  method GlobMatches(pattern: string, name: string) returns (r: bool)
    ensures r == Accepts(pattern, name)
    decreases |pattern|
  {
    var i := 0;
    while true
      invariant i <= |pattern| && i <= |name|
      invariant Accepts(pattern, name) == Scan(pattern[i..], name[i..], name)
      decreases |pattern| - i
    {
      if i < |pattern| && pattern[i] == '*' {
        if i + 1 == |pattern| {
          return true;
        }
        var suffix := pattern[i + 1..];
        assert pattern[i..][1..] == suffix;
        var idx := |name|;
        while idx > 0
          invariant 0 <= idx <= |name|
          invariant forall k | idx <= k < |name| :: !Accepts(suffix, name[k..])
        {
          idx := idx - 1;
          var found := GlobMatches(suffix, name[idx..]);
          if found {
            return true;
          }
        }
        return false;
      }
      if i < |pattern| && pattern[i] == '?' && i < |name| {
        if name[i] == '/' {
          return false;
        }
      } else if i < |pattern| && i < |name| && pattern[i] == name[i] {
      } else {
        return i == |pattern| && i == |name|;
      }
      assert pattern[i..][1..] == pattern[i + 1..] && name[i..][1..] == name[i + 1..];
      i := i + 1;
    }
  }

  // ---- What the matcher accepts -----------------------------------------------------

  /** Up to its first `*` a pattern must fit a prefix; what is left of the name is dropped
      again at the `*`. */
  lemma {:induction false} ScanPrefix(head: string, tail: string, rest: string, name: string)
    requires '*' !in head
    ensures
      Scan(head + tail, rest, name) <==>
        Begins(head, rest) && Scan(tail, rest[|head|..], name)
    decreases |head|
  {
    if head == [] {
      assert head + tail == tail && rest[0..] == rest;
    } else {
      assert (head + tail)[0] == head[0] && (head + tail)[1..] == head[1..] + tail;
      if rest != [] {
        ScanPrefix(head[1..], tail, rest[1..], name);
        if |head| <= |rest| {
          assert rest[..|head|][1..] == rest[1..][..|head| - 1];
          assert rest[1..][|head| - 1..] == rest[|head|..];
          FitsCons(head, rest[..|head|]);
        }
      }
    }
  }

  lemma FitsCons(p: string, n: string)
    requires p != [] && n != []
    ensures Fits(p, n) <==> One(p[0], n[0]) && Fits(p[1..], n[1..])
  {}

  /** The matcher's own rule, for every pattern with a `*`: the part before the first `*` fits
      a prefix, and the part after it, unless empty, is accepted on some non-empty suffix of
      the whole name. The two may overlap. */
  lemma AcceptsRule(head: string, tail: string, n: string)
    requires '*' !in head
    ensures
      Accepts(head + "*" + tail, n) <==>
        && Begins(head, n)
        && (tail == [] || exists k :: 0 <= k < |n| && Accepts(tail, n[k..]))
  {
    assert head + "*" + tail == head + ("*" + tail);
    ScanPrefix(head, "*" + tail, n, n);
    assert ("*" + tail)[1..] == tail;
  }

  lemma AcceptsPlain(p: string, n: string)
    requires '*' !in p
    ensures Accepts(p, n) <==> Fits(p, n)
  {
    ScanPrefix(p, [], n, n);
    assert p + [] == p;
    if |p| == |n| {
      assert n[..|p|] == n;
    }
  }

  lemma {:induction false} MatchesPrefix(head: string, tail: string, n: string)
    requires '*' !in head
    ensures
      Matches(head + tail, n) <==> Begins(head, n) && Matches(tail, n[|head|..])
    decreases |head|
  {
    if head == [] {
      assert head + tail == tail && n[0..] == n;
    } else {
      assert (head + tail)[0] == head[0] && (head + tail)[1..] == head[1..] + tail;
      if n != [] {
        MatchesPrefix(head[1..], tail, n[1..]);
        if |head| <= |n| {
          assert n[..|head|][1..] == n[1..][..|head| - 1];
          assert n[1..][|head| - 1..] == n[|head|..];
          FitsCons(head, n[..|head|]);
        }
      }
    }
  }

  lemma MatchesPlain(p: string, n: string)
    requires '*' !in p
    ensures Matches(p, n) <==> Fits(p, n)
  {}

  // ---- Matcher against reference ----------------------------------------------------

  /** Without a `*` the matcher is the reference. */
  lemma PlainIsExact(p: string, n: string)
    requires '*' !in p
    ensures Accepts(p, n) <==> Matches(p, n)
  {
    AcceptsPlain(p, n);
    MatchesPlain(p, n);
  }

  lemma StarTail(tail: string, n: string, k: nat)
    requires k <= |n| && Matches(tail, n[k..])
    ensures Matches("*" + tail, n)
  {}

  /** With a single leading `*` too. */
  lemma LeadingStarIsExact(tail: string, n: string)
    requires '*' !in tail
    ensures Accepts("*" + tail, n) <==> Matches("*" + tail, n)
  {
    var p := "*" + tail;
    assert p[1..] == tail && [] + "*" + tail == p;
    AcceptsRule([], tail, n);
    forall k | 0 <= k <= |n|
      ensures Accepts(tail, n[k..]) <==> Matches(tail, n[k..])
    {
      PlainIsExact(tail, n[k..]);
    }
    if tail == [] {
      StarTail(tail, n, |n|);
    } else {
      assert !Matches(tail, n[|n|..]);
    }
  }

  /** With a single trailing `*` too. */
  lemma TrailingStarIsExact(head: string, n: string)
    requires '*' !in head
    ensures Accepts(head + "*", n) <==> Matches(head + "*", n)
  {
    assert head + "*" + [] == head + "*";
    AcceptsRule(head, [], n);
    MatchesPrefix(head, "*", n);
    if |head| <= |n| {
      StarTail([], n[|head|..], |n| - |head|);
    }
  }

  lemma SomeSuffixFits(tail: string, n: string)
    requires '*' !in tail && tail != []
    ensures
      (exists k :: 0 <= k < |n| && Accepts(tail, n[k..])) <==> Ends(tail, n)
    ensures Matches("*" + tail, n) <==> Ends(tail, n)
  {
    forall k | 0 <= k < |n|
      ensures Accepts(tail, n[k..]) <==> Fits(tail, n[k..])
    {
      AcceptsPlain(tail, n[k..]);
    }
    if Ends(tail, n) {
      assert Accepts(tail, n[|n| - |tail|..]);
    }
    LeadingStarIsExact(tail, n);
    AcceptsRule([], tail, n);
    assert [] + "*" + tail == "*" + tail;
  }

  lemma InnerStarAccepts(head: string, tail: string, n: string)
    requires '*' !in head && '*' !in tail && tail != []
    ensures
      Accepts(head + "*" + tail, n) <==>
        Begins(head, n) && Ends(tail, n)
  {
    AcceptsRule(head, tail, n);
    SomeSuffixFits(tail, n);
  }

  lemma InnerStarMatches(head: string, tail: string, n: string)
    requires '*' !in head && '*' !in tail && tail != []
    ensures
      Matches(head + "*" + tail, n) <==>
        |head| + |tail| <= |n| && Begins(head, n) && Ends(tail, n)
  {
    assert head + "*" + tail == head + ("*" + tail);
    MatchesPrefix(head, "*" + tail, n);
    if |head| <= |n| {
      SomeSuffixFits(tail, n[|head|..]);
      EndsOfRest(head, tail, n);
    }
  }

  lemma EndsOfRest(head: string, tail: string, n: string)
    requires |head| <= |n|
    ensures Ends(tail, n[|head|..]) <==> |head| + |tail| <= |n| && Ends(tail, n)
  {}

  /** With one `*` between two parts the two differ exactly on the names both parts fit but
      that are too short to hold both: the matcher lets the parts overlap. */
  lemma InnerStarDiffersIff(head: string, tail: string, n: string)
    requires '*' !in head && '*' !in tail && tail != []
    ensures Matches(head + "*" + tail, n) <==> Accepts(head + "*" + tail, n) && |head| + |tail| <= |n|
  {
    InnerStarAccepts(head, tail, n);
    InnerStarMatches(head, tail, n);
  }

  /** The shortest kind of example: `ab` and `bc` share the middle letter of `abc`. */
  lemma OverlapExample()
    ensures Accepts("ab*bc", "abc") && !Matches("ab*bc", "abc")
  {}

  predicate AllStars(p: string) {
    forall i | 0 <= i < |p| :: p[i] == '*'
  }

  lemma {:induction false} StarsAcceptAll(p: string, n: string)
    requires AllStars(p) && p != [] && n != []
    ensures Accepts(p, n)
    decreases |p|
  {
    if |p| > 1 {
      StarsAcceptAll(p[1..], n);
      assert n[0..] == n;
    }
  }

  lemma {:induction false} OnlyStarsMatchNothing(p: string)
    requires Matches(p, [])
    ensures AllStars(p)
    decreases |p|
  {
    if p != [] {
      var e: string := [];
      assert e[0..] == e;
      OnlyStarsMatchNothing(p[1..]);
      assert forall i | 1 <= i < |p| :: p[i] == p[1..][i - 1];
    }
  }

  function FirstStar(p: string): (i: nat)
    requires '*' in p
    ensures i < |p| && p[i] == '*' && '*' !in p[..i]
  {
    if p[0] == '*' then 0
    else
      var i := FirstStar(p[1..]);
      assert p[..i + 1] == [p[0]] + p[1..][..i];
      i + 1
  }

  /** For every pattern: whatever name the reference accepts, the matcher accepts too. Only
      the empty name, which no directory entry has, can be missed. */
  lemma {:induction false} AcceptsAllTheReferenceAccepts(p: string, n: string)
    requires Matches(p, n) && n != []
    ensures Accepts(p, n)
    decreases |p|
  {
    if '*' !in p {
      PlainIsExact(p, n);
    } else {
      var i := FirstStar(p);
      var head, tail := p[..i], p[i + 1..];
      assert p == head + "*" + tail && p == head + ("*" + tail);
      AcceptsRule(head, tail, n);
      MatchesPrefix(head, "*" + tail, n);
      if tail != [] {
        assert ("*" + tail)[1..] == tail;
        var rest := n[i..];
        var k :| 0 <= k <= |rest| && Matches(tail, rest[k..]);
        assert rest[k..] == n[i + k..];
        if i + k < |n| {
          AcceptsAllTheReferenceAccepts(tail, n[i + k..]);
        } else {
          OnlyStarsMatchNothing(tail);
          StarsAcceptAll(tail, n);
          assert n[0..] == n;
        }
      }
    }
  }

  /** The one name the matcher misses: it takes no suffix of an empty name. */
  lemma EmptyNameExample()
    ensures Matches("**", "") && !Accepts("**", "")
  {
    var e: string := [];
    assert e[0..] == e && "**"[1..] == "*" && "*"[1..] == e;
    assert Matches(e, e);
    assert Matches("*", e);
  }
}
