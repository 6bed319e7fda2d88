/** Patterns with any number of `*`: where the parts between the stars sit in the name, for the
    matcher and for the reference. */
module GlobPlaces {
  import opened Globs

  /** The pattern with these parts between its stars. */
  function Glue(parts: seq<string>): string
    requires parts != []
    decreases |parts|
  {
    if |parts| == 1 then parts[0] else parts[0] + "*" + Glue(parts[1..])
  }

  predicate StarFree(parts: seq<string>) {
    forall i | 0 <= i < |parts| :: '*' !in parts[i]
  }

  /** Every pattern is glued together from parts. */
  lemma {:induction false} PartsOf(p: string) returns (parts: seq<string>)
    ensures parts != [] && StarFree(parts) && Glue(parts) == p
    decreases |p|
  {
    if '*' in p {
      var i := FirstStar(p);
      var rest := PartsOf(p[i + 1..]);
      parts := [p[..i]] + rest;
      assert parts[1..] == rest;
      assert p == p[..i] + "*" + p[i + 1..];
    } else {
      parts := [p];
    }
  }

  predicate FitsAt(part: string, n: string, k: nat) {
    k + |part| <= |n| && Fits(part, n[k..k + |part|])
  }

  /** Part `i` sits at `ks[i]`: the first at the start, the last at the end, and each next one
      no earlier than the one before begins, or, with `spaced`, than it ends. */
  predicate Placed(parts: seq<string>, n: string, ks: seq<nat>, spaced: bool) {
    && |ks| == |parts| > 0
    && ks[0] == 0 && ks[|ks| - 1] + |parts[|ks| - 1]| == |n|
    && (forall i | 0 <= i < |parts| :: FitsAt(parts[i], n, ks[i]))
    && (forall i | 0 <= i < |parts| - 1 :: ks[i] + (if spaced then |parts[i]| else 0) <= ks[i + 1])
  }

  function Shifted(ks: seq<nat>, k: nat): (r: seq<nat>)
    ensures |r| == |ks| && forall i | 0 <= i < |ks| :: r[i] == ks[i] + k
  {
    seq(|ks|, i requires 0 <= i < |ks| => ks[i] + k)
  }

  lemma FitsInSuffix(part: string, n: string, k: nat, j: nat)
    requires k <= |n|
    ensures FitsAt(part, n[k..], j) <==> FitsAt(part, n, k + j)
  {
    if k + j + |part| <= |n| {
      assert n[k..][j..j + |part|] == n[k + j..k + j + |part|];
    }
  }

  /** Places of the later parts in a suffix, and of the first part, are places of all. */
  lemma PlaceFirst(parts: seq<string>, n: string, ks: seq<nat>, k: nat, spaced: bool)
    requires |parts| > 1 && k <= |n| && Placed(parts[1..], n[k..], ks, spaced)
    requires FitsAt(parts[0], n, 0) && (spaced ==> |parts[0]| <= k)
    ensures Placed(parts, n, [0] + Shifted(ks, k), spaced)
  {
    var all := [0] + Shifted(ks, k);
    forall i | 0 <= i < |parts|
      ensures FitsAt(parts[i], n, all[i])
    {
      if i > 0 {
        assert parts[1..][i - 1] == parts[i];
        FitsInSuffix(parts[i], n, k, ks[i - 1]);
      }
    }
    forall i | 0 <= i < |parts| - 1
      ensures all[i] + (if spaced then |parts[i]| else 0) <= all[i + 1]
    {
      if i > 0 {
        assert parts[1..][i - 1] == parts[i];
        assert ks[i - 1] + (if spaced then |parts[1..][i - 1]| else 0) <= ks[i];
      }
    }
  }

  /** All places but the first, counted from the second. */
  function Lowered(ks: seq<nat>): (r: seq<nat>)
    requires |ks| > 1 && forall i | 1 <= i < |ks| :: ks[1] <= ks[i]
    ensures |r| == |ks| - 1 && forall i | 0 <= i < |r| :: r[i] == ks[i + 1] - ks[1]
  {
    seq(|ks| - 1, i requires 0 <= i < |ks| - 1 => ks[i + 1] - ks[1])
  }

  lemma {:induction false} Ascending(parts: seq<string>, n: string, ks: seq<nat>, spaced: bool, i: nat)
    requires Placed(parts, n, ks, spaced) && 1 <= i < |parts|
    ensures ks[1] <= ks[i] <= |n|
    decreases i
  {
    assert FitsAt(parts[i], n, ks[i]);
    if i > 1 {
      Ascending(parts, n, ks, spaced, i - 1);
      assert ks[i - 1] + (if spaced then |parts[i - 1]| else 0) <= ks[i - 1 + 1];
    }
  }

  /** And back: the later parts sit in the suffix from the second place on. */
  lemma PlaceRest(parts: seq<string>, n: string, ks: seq<nat>, spaced: bool) returns (rest: seq<nat>)
    requires |parts| > 1 && Placed(parts, n, ks, spaced)
    ensures ks[1] <= |n| && Placed(parts[1..], n[ks[1]..], rest, spaced)
    ensures FitsAt(parts[0], n, 0) && (spaced ==> |parts[0]| <= ks[1])
  {
    forall i | 1 <= i < |ks|
      ensures ks[1] <= ks[i] <= |n|
    {
      Ascending(parts, n, ks, spaced, i);
    }
    var k := ks[1];
    rest := Lowered(ks);
    forall i | 0 <= i < |parts| - 1
      ensures FitsAt(parts[1..][i], n[k..], rest[i])
    {
      assert FitsAt(parts[i + 1], n, ks[i + 1]);
      FitsInSuffix(parts[i + 1], n, k, rest[i]);
    }
    forall i | 0 <= i < |parts| - 2
      ensures rest[i] + (if spaced then |parts[1..][i]| else 0) <= rest[i + 1]
    {
      assert ks[i + 1] + (if spaced then |parts[i + 1]| else 0) <= ks[i + 1 + 1];
    }
  }

  // ---- The reference ----------------------------------------------------------------

  /** Between a name and its part behind the head, the places for the rest correspond. */
  lemma TailPlaces(tail: string, n: string, head: nat)
    requires head <= |n|
    ensures Matches("*" + tail, n[head..]) <==> exists k :: head <= k <= |n| && Matches(tail, n[k..])
  {
    var rest := n[head..];
    assert ("*" + tail)[1..] == tail;
    if Matches("*" + tail, rest) {
      var j :| 0 <= j <= |rest| && Matches(tail, rest[j..]);
      assert rest[j..] == n[head + j..];
    }
    if k :| head <= k <= |n| && Matches(tail, n[k..]) {
      assert rest[k - head..] == n[k..];
      StarTail(tail, rest, k - head);
    }
  }

  lemma MatchesGlued(parts: seq<string>, n: string)
    requires |parts| > 1 && StarFree(parts)
    ensures
      Matches(Glue(parts), n) <==>
        Begins(parts[0], n) && exists k :: |parts[0]| <= k <= |n| && Matches(Glue(parts[1..]), n[k..])
  {
    var head, tail := parts[0], Glue(parts[1..]);
    assert head + "*" + tail == head + ("*" + tail);
    MatchesPrefix(head, "*" + tail, n);
    if |head| <= |n| {
      TailPlaces(tail, n, |head|);
    }
  }

  lemma BeginsIsFitsAt(part: string, n: string)
    ensures Begins(part, n) <==> FitsAt(part, n, 0)
  {
    if |part| <= |n| {
      assert n[0..|part|] == n[..|part|];
    }
  }

  lemma WholeIsPlaced(part: string, n: string, spaced: bool)
    ensures Placed([part], n, [0], spaced) <==> Fits(part, n)
  {
    if |part| == |n| {
      assert n[0..|part|] == n;
    }
  }

  lemma {:induction false} MatchIsPlaced(parts: seq<string>, n: string) returns (ks: seq<nat>)
    requires parts != [] && StarFree(parts) && Matches(Glue(parts), n)
    ensures Placed(parts, n, ks, true)
    decreases |parts|
  {
    if |parts| == 1 {
      MatchesPlain(parts[0], n);
      WholeIsPlaced(parts[0], n, true);
      assert parts == [parts[0]];
      ks := [0];
    } else {
      MatchesGlued(parts, n);
      var k :| |parts[0]| <= k <= |n| && Matches(Glue(parts[1..]), n[k..]);
      var rest := MatchIsPlaced(parts[1..], n[k..]);
      BeginsIsFitsAt(parts[0], n);
      PlaceFirst(parts, n, rest, k, true);
      ks := [0] + Shifted(rest, k);
    }
  }

  lemma {:induction false} PlacedIsMatch(parts: seq<string>, n: string, ks: seq<nat>)
    requires StarFree(parts) && Placed(parts, n, ks, true)
    ensures Matches(Glue(parts), n)
    decreases |parts|
  {
    if |parts| == 1 {
      MatchesPlain(parts[0], n);
      WholeIsPlaced(parts[0], n, true);
      assert parts == [parts[0]] && ks == [0];
    } else {
      var rest := PlaceRest(parts, n, ks, true);
      PlacedIsMatch(parts[1..], n[ks[1]..], rest);
      BeginsIsFitsAt(parts[0], n);
      MatchesGlued(parts, n);
    }
  }

  // ---- The matcher ------------------------------------------------------------------

  lemma {:induction false} AcceptIsPlaced(parts: seq<string>, n: string) returns (ks: seq<nat>)
    requires parts != [] && StarFree(parts) && Accepts(Glue(parts), n)
    ensures Placed(parts, n, ks, false)
    decreases |parts|
  {
    if |parts| == 1 {
      AcceptsPlain(parts[0], n);
      WholeIsPlaced(parts[0], n, false);
      assert parts == [parts[0]];
      ks := [0];
    } else {
      var tail := Glue(parts[1..]);
      AcceptsRule(parts[0], tail, n);
      BeginsIsFitsAt(parts[0], n);
      var k, rest;
      if tail == [] {
        EmptyGlue(parts[1..]);
        k, rest := |n|, [0];
        WholeIsPlaced(parts[1], n[k..], false);
      } else {
        k :| 0 <= k < |n| && Accepts(tail, n[k..]);
        rest := AcceptIsPlaced(parts[1..], n[k..]);
      }
      PlaceFirst(parts, n, rest, k, false);
      ks := [0] + Shifted(rest, k);
    }
  }

  lemma EmptyGlue(parts: seq<string>)
    requires parts != [] && Glue(parts) == []
    ensures parts == [""]
  {}

  lemma {:induction false} EmptyPartsAreStars(parts: seq<string>)
    requires parts != [] && forall i | 0 <= i < |parts| :: parts[i] == []
    ensures AllStars(Glue(parts))
    decreases |parts|
  {
    if |parts| > 1 {
      EmptyPartsAreStars(parts[1..]);
    }
  }

  lemma {:induction false} PlacedIsAccept(parts: seq<string>, n: string, ks: seq<nat>)
    requires StarFree(parts) && n != [] && Placed(parts, n, ks, false)
    ensures Accepts(Glue(parts), n)
    decreases |parts|
  {
    if |parts| == 1 {
      AcceptsPlain(parts[0], n);
      WholeIsPlaced(parts[0], n, false);
      assert parts == [parts[0]] && ks == [0];
    } else {
      var tail, k := Glue(parts[1..]), ks[1];
      var rest := PlaceRest(parts, n, ks, false);
      BeginsIsFitsAt(parts[0], n);
      AcceptsRule(parts[0], tail, n);
      if tail != [] {
        if k < |n| {
          PlacedIsAccept(parts[1..], n[k..], rest);
        } else {
          forall i | 0 <= i < |parts| - 1
            ensures parts[1..][i] == []
          {
            assert FitsAt(parts[1..][i], n[k..], rest[i]);
          }
          EmptyPartsAreStars(parts[1..]);
          StarsAcceptAll(tail, n);
          assert n[0..] == n;
        }
      }
    }
  }

  // ---- For every pattern ------------------------------------------------------------

  /** The reference: the parts sit in the name one after the other. The matcher, on every
      non-empty name: each part begins no earlier than the one before, and parts may overlap.
      Those are all the differences between the two. */
  lemma EveryPattern(parts: seq<string>, n: string)
    requires parts != [] && StarFree(parts)
    ensures Matches(Glue(parts), n) <==> exists ks :: Placed(parts, n, ks, true)
    ensures n != [] ==> (Accepts(Glue(parts), n) <==> exists ks :: Placed(parts, n, ks, false))
  {
    if Matches(Glue(parts), n) {
      var ks := MatchIsPlaced(parts, n);
    }
    if ks :| Placed(parts, n, ks, true) {
      PlacedIsMatch(parts, n, ks);
    }
    if Accepts(Glue(parts), n) {
      var ks := AcceptIsPlaced(parts, n);
    }
    if n != [] {
      if ks :| Placed(parts, n, ks, false) {
        PlacedIsAccept(parts, n, ks);
      }
    }
  }
}
