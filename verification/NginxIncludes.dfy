/** Expanding the includes of an nginx configuration: a depth-first walk over a graph of files
    that may have cycles. A file is identified with its canonical path. */
module NginxIncludes {
  import opened Prelude
  import opened Text

  type File = string

  /** The configuration tree: the text of every readable file, and what an include spec in a
      file expands to (a glob gives a sorted list, or an error). */
  datatype Tree = Tree(files: map<File, string>, expand: (File, string) -> Result<seq<File>>)

  // ---- Include lines ----------------------------------------------------------------

  function TrimSemicolons(s: string): string
    decreases |s|
  {
    if s != [] && s[|s| - 1] == ';' then TrimSemicolons(s[..|s| - 1]) else s
  }

  /** `parse_include_specs`; a line that is no include has no specs. */
  function IncludeSpecs(raw: string): seq<string> {
    var line := Trim(Before(raw, '#'));
    if !("include" <= line) then []
    else
      var rest := line[7..];
      if rest == [] || !IsSpace(rest[0]) then [] else Words(Trim(TrimSemicolons(Trim(rest))))
  }

  function AllSpecs(lines: seq<string>): seq<string>
    decreases |lines|
  {
    if lines == [] then [] else AllSpecs(lines[..|lines| - 1]) + IncludeSpecs(lines[|lines| - 1])
  }

  function Specs(tree: Tree, f: File): seq<string> {
    if f in tree.files then AllSpecs(Lines(tree.files[f])) else []
  }

  // ---- The include graph ------------------------------------------------------------

  /** The files the specs lead to, in order, up to the first spec that fails. */
  function Followed(tree: Tree, f: File, specs: seq<string>): seq<File>
    decreases |specs|
  {
    if specs == [] then []
    else
      match tree.expand(f, specs[0])
      case Err => []
      case Ok(files) => files + Followed(tree, f, specs[1..])
  }

  /** The files `f` includes, in the order they are visited. */
  function Next(tree: Tree, f: File): seq<File> {
    Followed(tree, f, Specs(tree, f))
  }

  /** A file that can be read and whose every include spec can be expanded. */
  predicate Good(tree: Tree, f: File) {
    f in tree.files && forall i | 0 <= i < |Specs(tree, f)| :: tree.expand(f, Specs(tree, f)[i]).Ok?
  }

  predicate Chain(tree: Tree, path: seq<File>) {
    forall i | 0 <= i < |path| - 1 :: path[i + 1] in Next(tree, path[i])
  }

  predicate Leads(tree: Tree, path: seq<File>, a: File, b: File) {
    path != [] && path[0] == a && path[|path| - 1] == b && Chain(tree, path)
  }

  ghost predicate Reach(tree: Tree, a: File, b: File) {
    exists path: seq<File> :: Leads(tree, path, a, b)
  }

  lemma ReachSelf(tree: Tree, a: File)
    ensures Reach(tree, a, a)
  {
    assert Leads(tree, [a], a, a);
  }

  lemma ReachOn(tree: Tree, a: File, b: File, c: File)
    requires b in Next(tree, a) && Reach(tree, b, c)
    ensures Reach(tree, a, c)
  {
    var path :| Leads(tree, path, b, c);
    var longer := [a] + path;
    forall i | 0 <= i < |longer| - 1
      ensures longer[i + 1] in Next(tree, longer[i])
    {
      if i > 0 {
        assert path[i - 1 + 1] in Next(tree, path[i - 1]);
      }
    }
    assert Leads(tree, longer, a, c);
  }

  /** A set that holds `a` and every include of its members holds all that `a` reaches. */
  lemma {:induction false} ClosedHolds(tree: Tree, files: seq<File>, path: seq<File>, a: File, b: File)
    requires Leads(tree, path, a, b) && a in files
    requires forall f, g | f in files && g in Next(tree, f) :: g in files
    ensures b in files
    decreases |path|
  {
    if |path| > 1 {
      var n := |path| - 1;
      assert path[n - 1 + 1] in Next(tree, path[n - 1]);
      assert Leads(tree, path[..n], a, path[n - 1]);
      ClosedHolds(tree, files, path[..n], a, path[n - 1]);
    }
  }

  ghost predicate Fails(tree: Tree, path: File) {
    exists f :: Reach(tree, path, f) && !Good(tree, f)
  }

  lemma FailsHere(tree: Tree, path: File)
    requires !Good(tree, path)
    ensures Fails(tree, path)
  {
    ReachSelf(tree, path);
  }

  // ---- The order of the walk --------------------------------------------------------

  predicate Distinct(files: seq<File>) {
    forall i, j | 0 <= i < j < |files| :: files[i] != files[j]
  }

  predicate AllIn(files: seq<File>, seen: seq<File>) {
    forall i | 0 <= i < |files| :: files[i] in seen
  }

  /** `g` is the first file of `files` not yet seen. */
  predicate FirstNew(files: seq<File>, g: File, seen: seq<File>) {
    exists k :: 0 <= k < |files| && files[k] == g && g !in seen && AllIn(files[..k], seen)
  }

  /** `g` is the first unvisited include of the most recently visited file that still has one. */
  predicate Follows(tree: Tree, seen: seq<File>, g: File) {
    exists i :: 0 <= i < |seen| && FirstNew(Next(tree, seen[i]), g, seen)
      && forall j | i < j < |seen| :: AllIn(Next(tree, seen[j]), seen)
  }

  predicate InOrder(tree: Tree, out: seq<File>, n: nat)
    requires n < |out|
  {
    Follows(tree, out[..n], out[n])
  }

  /** Preorder of first visit: depth first, includes in order, each file once. */
  predicate Preorder(tree: Tree, root: File, out: seq<File>) {
    && out != [] && out[0] == root && Distinct(out)
    && forall n | 0 < n < |out| :: InOrder(tree, out, n)
  }

  /** The order leaves no choice: two such lists agree as far as both go. */
  lemma {:induction false} PreorderIsUnique(tree: Tree, root: File, a: seq<File>, b: seq<File>, n: nat)
    requires Preorder(tree, root, a) && Preorder(tree, root, b) && 0 < n <= |a| && n <= |b|
    ensures a[..n] == b[..n]
    decreases n
  {
    if n > 1 {
      PreorderIsUnique(tree, root, a, b, n - 1);
      PreorderAt(tree, root, a, n - 1);
      PreorderAt(tree, root, b, n - 1);
      FollowsIsOne(tree, a[..n - 1], a[n - 1], b[n - 1]);
      OneFurther(a, b, n - 1);
    }
  }

  lemma PreorderAt(tree: Tree, root: File, out: seq<File>, n: nat)
    requires Preorder(tree, root, out) && 0 < n < |out|
    ensures Follows(tree, out[..n], out[n])
  {
    assert InOrder(tree, out, n);
  }

  lemma OneFurther(a: seq<File>, b: seq<File>, n: nat)
    requires n < |a| && n < |b| && a[..n] == b[..n] && a[n] == b[n]
    ensures a[..n + 1] == b[..n + 1]
  {}

  lemma FollowsIsOne(tree: Tree, seen: seq<File>, g: File, h: File)
    requires Follows(tree, seen, g) && Follows(tree, seen, h)
    ensures g == h
  {
    var i :| 0 <= i < |seen| && FirstNew(Next(tree, seen[i]), g, seen)
      && forall j | i < j < |seen| :: AllIn(Next(tree, seen[j]), seen);
    var k :| 0 <= k < |seen| && FirstNew(Next(tree, seen[k]), h, seen)
      && forall j | k < j < |seen| :: AllIn(Next(tree, seen[j]), seen);
    FirstNewIsOne(Next(tree, seen[i]), g, g, seen);
    FirstNewIsOne(Next(tree, seen[k]), h, h, seen);
    assert i == k;
    FirstNewIsOne(Next(tree, seen[i]), g, h, seen);
  }

  lemma FirstNewIsOne(files: seq<File>, g: File, h: File, seen: seq<File>)
    requires FirstNew(files, g, seen) && FirstNew(files, h, seen)
    ensures g == h && !AllIn(files, seen)
  {}

  function Members(files: seq<File>): set<File> {
    set f | f in files
  }

  lemma MembersGrow(a: seq<File>, b: seq<File>)
    requires a <= b
    ensures Members(a) <= Members(b)
  {}

  // ---- The walk ---------------------------------------------------------------------

  /** What a walk from `path` that succeeds adds to `out`: new files only, all good, all
      reachable, closed under includes, and in order. */
  ghost predicate Walked(tree: Tree, path: File, out: seq<File>, out': seq<File>) {
    && out <= out' && path in out'
    && (Distinct(out) ==> Distinct(out'))
    && (path !in out ==> |out| < |out'| && out'[|out|] == path)
    && (path in out ==> out' == out)
    && (forall n | |out| <= n < |out'| ::
          Good(tree, out'[n]) && AllIn(Next(tree, out'[n]), out') && Reach(tree, path, out'[n]))
    && (forall n | |out| < n < |out'| :: InOrder(tree, out', n))
  }

  /** The same half way through the includes of `path`: those in `done` have been walked. */
  ghost predicate Walking(tree: Tree, path: File, out: seq<File>, done: seq<File>, m: seq<File>) {
    && out + [path] <= m && AllIn(done, m)
    && (Distinct(out) ==> Distinct(m))
    && (forall n | |out| <= n < |m| :: Reach(tree, path, m[n]))
    && (forall n | |out| < n < |m| :: Good(tree, m[n]) && AllIn(Next(tree, m[n]), m))
    && (forall n | |out| < n < |m| :: InOrder(tree, m, n))
  }

  lemma Revisited(tree: Tree, path: File, out: seq<File>)
    requires path in out
    ensures Walked(tree, path, out, out)
  {}

  lemma Started(tree: Tree, path: File, out: seq<File>)
    requires path !in out
    ensures Walking(tree, path, out, [], out + [path])
  {
    ReachSelf(tree, path);
  }

  lemma Finished(tree: Tree, path: File, out: seq<File>, m: seq<File>)
    requires Walking(tree, path, out, Next(tree, path), m) && path !in out && Good(tree, path)
    ensures Walked(tree, path, out, m)
  {
    assert m[|out|] == path;
  }

  lemma OrderKept(tree: Tree, m: seq<File>, m': seq<File>, n: nat)
    requires m <= m' && n < |m| && InOrder(tree, m, n)
    ensures InOrder(tree, m', n)
  {
    assert m'[..n] == m[..n];
  }

  /** The file a new include starts with is in order: `path` is the most recent file with an
      include left, and `inc` is the first of those. */
  lemma EntryInOrder(tree: Tree, path: File, out: seq<File>, done: seq<File>, inc: File, m: seq<File>, m': seq<File>)
    requires Walking(tree, path, out, done, m) && done + [inc] <= Next(tree, path)
    requires m <= m' && |m| < |m'| && m'[|m|] == inc && inc !in m
    ensures InOrder(tree, m', |m|)
  {
    assert m'[..|m|] == m && m[|out|] == path;
    var next := Next(tree, path);
    assert next[..|done|] == done && next[|done|] == (done + [inc])[|done|];
    assert FirstNew(next, inc, m);
  }

  lemma Onward(tree: Tree, path: File, out: seq<File>, done: seq<File>, inc: File, m: seq<File>, m': seq<File>)
    requires Walking(tree, path, out, done, m) && done + [inc] <= Next(tree, path)
    requires Walked(tree, inc, m, m')
    ensures Walking(tree, path, out, done + [inc], m')
  {
    assert inc in Next(tree, path) by {
      assert inc == (done + [inc])[|done|];
    }
    forall n | |out| <= n < |m'|
      ensures Reach(tree, path, m'[n])
    {
      if n >= |m| {
        ReachOn(tree, path, inc, m'[n]);
      } else {
        assert m'[n] == m[n];
      }
    }
    forall n | |out| < n < |m'|
      ensures InOrder(tree, m', n)
      ensures Good(tree, m'[n]) && AllIn(Next(tree, m'[n]), m')
    {
      if n < |m| {
        assert m'[n] == m[n];
        OrderKept(tree, m, m', n);
        assert AllIn(Next(tree, m[n]), m);
      } else if n == |m| {
        EntryInOrder(tree, path, out, done, inc, m, m');
      }
    }
    assert forall i | 0 <= i < |done| :: done[i] in m;
  }

  lemma FollowedPrefix(tree: Tree, f: File, specs: seq<string>, e: nat)
    requires e < |specs| && forall i | 0 <= i <= e :: tree.expand(f, specs[i]).Ok?
    ensures Followed(tree, f, specs[..e]) + tree.expand(f, specs[e]).value <= Followed(tree, f, specs)
    ensures Followed(tree, f, specs[..e + 1]) == Followed(tree, f, specs[..e]) + tree.expand(f, specs[e]).value
    decreases e
  {
    if e == 0 {
      assert specs[..1][1..] == [] && specs[..0] == [];
    } else {
      FollowedPrefix(tree, f, specs[1..], e - 1);
      assert specs[1..][..e - 1] == specs[..e][1..] && specs[1..][..e] == specs[..e + 1][1..];
    }
  }

  /** `walk_includes`: `visited` and `out` go in and come out, as the mutable arguments do. */
  method WalkIncludes(tree: Tree, path: File, visited: set<File>, out: seq<File>)
    returns (ok: bool, visited': set<File>, out': seq<File>)
    requires visited == Members(out)
    ensures ok ==> Walked(tree, path, out, out') && visited' == Members(out')
    ensures !ok ==> Fails(tree, path)
    decreases tree.files.Keys - visited, 0
  {
    visited', out' := visited, out;
    if path in visited' {
      Revisited(tree, path, out);
      return true, visited', out';
    }
    visited' := visited' + {path};
    if path !in tree.files {
      FailsHere(tree, path);
      return false, visited', out';
    }
    out' := out' + [path];
    var specs := Specs(tree, path);
    Started(tree, path, out);
    for e := 0 to |specs|
      invariant forall i | 0 <= i < e :: tree.expand(path, specs[i]).Ok?
      invariant Walking(tree, path, out, Followed(tree, path, specs[..e]), out')
      invariant visited' == Members(out') && visited + {path} <= visited'
    {
      var files := tree.expand(path, specs[e]);
      if files.Err? {
        FailsHere(tree, path);
        return false, visited', out';
      }
      FollowedPrefix(tree, path, specs, e);
      ghost var before := Followed(tree, path, specs[..e]);
      ghost var inv := Carry(tree, path, out, before, files.value, out');
      ok, visited', out' := WalkList(tree, path, files.value, visited', out', inv);
      if !ok {
        return;
      }
    }
    assert specs[..|specs|] == specs;
    Finished(tree, path, out, out');
    return true, visited', out';
  }

  lemma FailsOn(tree: Tree, path: File, before: seq<File>, files: seq<File>, k: nat)
    requires before + files <= Next(tree, path) && k < |files|
    requires Fails(tree, files[k])
    ensures Fails(tree, path)
  {
    var f :| Reach(tree, files[k], f) && !Good(tree, f);
    assert files[k] == (before + files)[|before| + k];
    assert files[k] in Next(tree, path);
    ReachOn(tree, path, files[k], f);
  }

  lemma TakeOneMore(before: seq<File>, files: seq<File>, k: nat, next: seq<File>)
    requires k < |files| && before + files <= next
    ensures before + files[..k + 1] == before + files[..k] + [files[k]] <= next
  {}

  lemma OneMore(
    tree: Tree, path: File, out: seq<File>, before: seq<File>, files: seq<File>, k: nat, m: seq<File>, m': seq<File>)
    requires before + files <= Next(tree, path) && k < |files|
    requires Walking(tree, path, out, before + files[..k], m) && Walked(tree, files[k], m, m')
    ensures Walking(tree, path, out, before + files[..k + 1], m')
  {
    TakeOneMore(before, files, k, Next(tree, path));
    Onward(tree, path, out, before + files[..k], files[k], m, m');
  }

  /** Each file walked takes `inv` one file further. */
  ghost predicate Carries(tree: Tree, files: seq<File>, inv: (nat, seq<File>) -> bool) {
    forall k: nat, m: seq<File>, m': seq<File> | k < |files| && inv(k, m) && Walked(tree, files[k], m, m') ::
      inv(k + 1, m')
  }

  lemma Carry(tree: Tree, path: File, out: seq<File>, before: seq<File>, files: seq<File>, start: seq<File>)
    returns (inv: (nat, seq<File>) -> bool)
    requires Walking(tree, path, out, before, start) && before + files <= Next(tree, path)
    ensures Carries(tree, files, inv) && inv(0, start)
    ensures forall m | inv(|files|, m) :: Walking(tree, path, out, before + files, m)
    ensures FailsWith(tree, path, files)
  {
    inv := (k: nat, m: seq<File>) => k <= |files| && Walking(tree, path, out, before + files[..k], m);
    assert before + files[..0] == before && files[..|files|] == files;
    forall k: nat, m: seq<File>, m': seq<File> | k < |files| && inv(k, m) && Walked(tree, files[k], m, m')
      ensures inv(k + 1, m')
    {
      OneMore(tree, path, out, before, files, k, m, m');
    }
    FailsOnAny(tree, path, before, files);
  }

  lemma FailsOnAny(tree: Tree, path: File, before: seq<File>, files: seq<File>)
    requires before + files <= Next(tree, path)
    ensures FailsWith(tree, path, files)
  {
    forall k | 0 <= k < |files| && Fails(tree, files[k])
      ensures Fails(tree, path)
    {
      FailsOn(tree, path, before, files, k);
    }
  }

  ghost predicate FailsWith(tree: Tree, path: File, files: seq<File>) {
    forall k | 0 <= k < |files| && Fails(tree, files[k]) :: Fails(tree, path)
  }

  /** The inner loop of the walk, over the files of one spec. */
  method WalkList(
    tree: Tree, path: File, files: seq<File>, visited: set<File>, m: seq<File>, ghost inv: (nat, seq<File>) -> bool)
    returns (ok: bool, visited': set<File>, m': seq<File>)
    requires visited == Members(m) && inv(0, m) && Carries(tree, files, inv)
    requires FailsWith(tree, path, files)
    ensures ok ==> inv(|files|, m') && visited' == Members(m') && visited <= visited'
    ensures !ok ==> Fails(tree, path)
    decreases tree.files.Keys - visited, 1
  {
    visited', m' := visited, m;
    for k := 0 to |files|
      invariant inv(k, m') && visited' == Members(m') && visited <= visited'
    {
      ghost var was := m';
      ok, visited', m' := WalkIncludes(tree, files[k], visited', m');
      if !ok {
        return;
      }
      MembersGrow(was, m');
    }
    return true, visited', m';
  }

  /** `read_expanded_files`: it succeeds exactly when every reachable file is good, and then
      returns exactly the reachable files, each once, in preorder of first visit. */
  method ReadExpandedFiles(tree: Tree, root: File) returns (r: Result<seq<File>>)
    ensures r.Ok? <==> forall f :: Reach(tree, root, f) ==> Good(tree, f)
    ensures r.Ok? ==> (forall f :: f in r.value <==> Reach(tree, root, f)) && Preorder(tree, root, r.value)
  {
    var ok, visited, out := WalkIncludes(tree, root, {}, []);
    if !ok {
      return Err;
    }
    forall f
      ensures Reach(tree, root, f) <==> f in out
    {
      if Reach(tree, root, f) {
        var path :| Leads(tree, path, root, f);
        ClosedHolds(tree, out, path, root, f);
      }
    }
    return Ok(out);
  }
}
