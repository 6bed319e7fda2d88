/** Include globs over directory listings: what an include spec expands to, and what the
    matcher's own rule means for the listens that are found. */
module NginxGlobs {
  import opened Prelude
  import opened Ports
  import opened NginxIncludes
  import opened NginxListens
  import Text
  import Globs
  import GlobPlaces

  // ---- Names in order ---------------------------------------------------------------

  /** Character by character, a prefix first. */
  predicate Below(a: string, b: string)
    decreases |a|
  {
    b != [] && (a == [] || a[0] < b[0] || (a[0] == b[0] && Below(a[1..], b[1..])))
  }

  lemma {:induction false} BelowIsTotal(a: string, b: string)
    ensures a == b || Below(a, b) || Below(b, a)
    ensures !(Below(a, b) && Below(b, a)) && !Below(a, a)
    decreases |a|
  {
    if a != [] {
      BelowIsTotal(a[1..], a[1..]);
      if b != [] && a[0] == b[0] {
        BelowIsTotal(a[1..], b[1..]);
        assert a == [a[0]] + a[1..] && b == [b[0]] + b[1..];
      }
    }
  }

  lemma {:induction false} BelowIsTransitive(a: string, b: string, c: string)
    requires Below(a, b) && Below(b, c)
    ensures Below(a, c)
    decreases |a|
  {
    if a != [] && a[0] == b[0] == c[0] {
      BelowIsTransitive(a[1..], b[1..], c[1..]);
    }
  }

  predicate Ascending(names: seq<string>) {
    forall i, j | 0 <= i < j < |names| :: Below(names[i], names[j])
  }

  function Insert(name: string, names: seq<string>): seq<string>
    decreases |names|
  {
    if names == [] || Below(name, names[0]) then [name] + names
    else if name == names[0] then names
    else [names[0]] + Insert(name, names[1..])
  }

  lemma {:induction false} InsertKeepsOrder(name: string, names: seq<string>)
    requires Ascending(names)
    ensures Ascending(Insert(name, names))
    ensures forall n :: n in Insert(name, names) <==> n == name || n in names
    decreases |names|
  {
    if names != [] {
      BelowIsTotal(name, names[0]);
      if Below(name, names[0]) {
        forall i | 0 < i < |names|
          ensures Below(name, names[i])
        {
          BelowIsTransitive(name, names[0], names[i]);
        }
      } else if name != names[0] {
        InsertKeepsOrder(name, names[1..]);
        assert forall n :: n in names <==> n == names[0] || n in names[1..];
        var rest := Insert(name, names[1..]);
        forall i | 0 <= i < |rest|
          ensures Below(names[0], rest[i])
        {
          assert rest[i] in rest;
        }
      }
    }
  }

  /** `sort`. */
  function SortedNames(names: seq<string>): seq<string>
    decreases |names|
  {
    if names == [] then [] else Insert(names[|names| - 1], SortedNames(names[..|names| - 1]))
  }

  lemma {:induction false} SortedNamesAre(names: seq<string>)
    ensures Ascending(SortedNames(names))
    ensures forall n :: n in SortedNames(names) <==> n in names
    decreases |names|
  {
    if names != [] {
      SortedNamesAre(names[..|names| - 1]);
      InsertKeepsOrder(names[|names| - 1], SortedNames(names[..|names| - 1]));
      assert names == names[..|names| - 1] + [names[|names| - 1]];
    }
  }

  /** There is one ascending list of the same names, so the order of the directory entries
      and the way of sorting make no difference. */
  lemma {:induction false} AscendingIsOne(a: seq<string>, b: seq<string>)
    requires Ascending(a) && Ascending(b) && forall n :: n in a <==> n in b
    ensures a == b
    decreases |a|
  {
    SameEmpty(a, b);
    if a != [] {
      FirstIsLeast(a, b);
      FirstIsLeast(b, a);
      BelowIsTotal(a[0], b[0]);
      forall n
        ensures n in a[1..] <==> n in b[1..]
      {
        NotFirst(a, n);
        NotFirst(b, n);
      }
      AscendingIsOne(a[1..], b[1..]);
      assert a == [a[0]] + a[1..] && b == [b[0]] + b[1..];
    }
  }

  lemma SameEmpty(a: seq<string>, b: seq<string>)
    requires forall n :: n in a <==> n in b
    ensures a == [] <==> b == []
  {
    if a != [] {
      assert a[0] in b;
    }
    if b != [] {
      assert b[0] in a;
    }
  }

  lemma FirstIsLeast(a: seq<string>, b: seq<string>)
    requires Ascending(a) && a != [] && forall n :: n in a <==> n in b
    ensures b != [] && (a[0] == b[0] || Below(a[0], b[0]))
  {
    assert a[0] in a && a[0] in b && b[0] in b;
  }

  lemma NotFirst(a: seq<string>, n: string)
    requires Ascending(a) && a != []
    ensures n in a[1..] <==> n in a && n != a[0]
  {
    BelowIsTotal(a[0], a[0]);
    assert a == [a[0]] + a[1..];
    if i :| 0 <= i < |a[1..]| && a[1..][i] == n {
      assert Below(a[0], a[i + 1]);
    }
  }

  // ---- The expansion ----------------------------------------------------------------

  datatype Listing = NoDirectory | Unreadable | Entries(names: seq<string>)

  /** An include spec joined to the directory of the file it is in: the whole path, and its
      directory and last component if it has them. */
  datatype Resolved = Resolved(path: string, parts: Option<(string, string)>)

  /** The files by identity, the path arithmetic, and the directories in the order they are
      read. */
  datatype Disk = Disk(
    files: map<File, string>, resolve: (File, string) -> Resolved, listing: string -> Listing,
    at: string -> File, within: (string, string) -> File)

  /** Directory entries have names. */
  ghost predicate Real(disk: Disk) {
    forall dir: string :: disk.listing(dir).Entries? ==> [] !in disk.listing(dir).names
  }

  function Chosen(accepts: (string, string) -> bool, pattern: string, names: seq<string>): (r: seq<string>)
    ensures forall n :: n in r <==> n in names && accepts(pattern, n)
    decreases |names|
  {
    if names == [] then []
    else
      var last := names[|names| - 1];
      assert names == names[..|names| - 1] + [last];
      Chosen(accepts, pattern, names[..|names| - 1]) + if accepts(pattern, last) then [last] else []
  }

  function FilesIn(disk: Disk, dir: string, names: seq<string>): (files: seq<File>)
    ensures |files| == |names| && forall i | 0 <= i < |names| :: files[i] == disk.within(dir, names[i])
  {
    seq(|names|, i requires 0 <= i < |names| => disk.within(dir, names[i]))
  }

  /** What a spec expands to under a rule for names: a plain path stands for itself, whether or
      not there is such a file; a glob for the entries the rule accepts, in order. */
  function Expand(disk: Disk, accepts: (string, string) -> bool, f: File, spec: string): Result<seq<File>> {
    var resolved := disk.resolve(f, spec);
    if '*' !in resolved.path && '?' !in resolved.path then Ok([disk.at(resolved.path)])
    else
      match resolved.parts
      case None => Err
      case Some((dir, pattern)) => (
        match disk.listing(dir)
        case NoDirectory => Ok([])
        case Unreadable => Err
        case Entries(names) => Ok(FilesIn(disk, dir, SortedNames(Chosen(accepts, pattern, names)))))
  }

  /** `expand_glob`, entry by entry. */
  method ExpandGlob(disk: Disk, f: File, spec: string) returns (r: Result<seq<File>>)
    ensures r == Expand(disk, Globs.Accepts, f, spec)
  {
    var resolved := disk.resolve(f, spec);
    if '*' !in resolved.path && '?' !in resolved.path {
      return Ok([disk.at(resolved.path)]);
    }
    if resolved.parts.None? {
      return Err;
    }
    var (dir, pattern) := resolved.parts.value;
    var listing := disk.listing(dir);
    if listing.Unreadable? {
      return Err;
    }
    var matches: seq<string> := [];
    if listing.Entries? {
      var names := listing.names;
      for i := 0 to |names|
        invariant matches == Chosen(Globs.Accepts, pattern, names[..i])
      {
        assert names[..i + 1][..i] == names[..i];
        var accepted := Globs.GlobMatches(pattern, names[i]);
        if accepted {
          matches := matches + [names[i]];
        }
      }
      assert names[..|names|] == names;
    }
    return Ok(FilesIn(disk, dir, SortedNames(matches)));
  }

  /** What an expansion is: a plain path is itself; a glob without a directory to look in or one
      that cannot be read is an error, and one whose directory is missing gives nothing; any other
      gives one file for each entry the rule accepts, in ascending order of their names. */
  lemma ExpandIs(disk: Disk, accepts: (string, string) -> bool, f: File, spec: string) returns (picked: seq<string>)
    ensures
      var resolved, r := disk.resolve(f, spec), Expand(disk, accepts, f, spec);
      if !('*' in resolved.path || '?' in resolved.path) then r == Ok([disk.at(resolved.path)])
      else if resolved.parts.None? then r == Err
      else
        var listing := disk.listing(resolved.parts.value.0);
        && (r.Err? <==> listing == Unreadable)
        && (listing == NoDirectory ==> r == Ok([]))
        && (listing.Entries? ==>
              && r.value == FilesIn(disk, resolved.parts.value.0, picked) && Ascending(picked)
              && forall n :: n in picked <==> n in listing.names && accepts(resolved.parts.value.1, n))
  {
    picked := [];
    var parts := disk.resolve(f, spec).parts;
    if parts.Some? && disk.listing(parts.value.0).Entries? {
      var chosen := Chosen(accepts, parts.value.1, disk.listing(parts.value.0).names);
      SortedNamesAre(chosen);
      picked := SortedNames(chosen);
    }
  }

  /** The names a glob picks: ascending, and exactly the entries in which the parts of the
      pattern have places, each no earlier than the one before begins. */
  lemma GlobPicks(parts: seq<string>, names: seq<string>)
    requires parts != [] && GlobPlaces.StarFree(parts) && [] !in names
    ensures
      var picked := SortedNames(Chosen(Globs.Accepts, GlobPlaces.Glue(parts), names));
      && Ascending(picked)
      && forall n :: n in picked <==> n in names && exists ks :: GlobPlaces.Placed(parts, n, ks, false)
  {
    SortedNamesAre(Chosen(Globs.Accepts, GlobPlaces.Glue(parts), names));
    forall n | n in names
      ensures Globs.Accepts(GlobPlaces.Glue(parts), n) <==> exists ks :: GlobPlaces.Placed(parts, n, ks, false)
    {
      GlobPlaces.EveryPattern(parts, n);
    }
  }

  // ---- Against the reference --------------------------------------------------------

  function TreeBy(disk: Disk, accepts: (string, string) -> bool): Tree {
    Tree(disk.files, (f, spec) => Expand(disk, accepts, f, spec))
  }

  lemma ExpandsMore(disk: Disk, f: File, spec: string, g: File)
    requires Real(disk)
    ensures Expand(disk, Globs.Matches, f, spec).Ok? <==> Expand(disk, Globs.Accepts, f, spec).Ok?
    ensures
      Expand(disk, Globs.Matches, f, spec).Ok? && g in Expand(disk, Globs.Matches, f, spec).value ==>
        g in Expand(disk, Globs.Accepts, f, spec).value
  {
    var resolved := disk.resolve(f, spec);
    if '*' in resolved.path || '?' in resolved.path {
      match resolved.parts
      case None =>
      case Some((dir, pattern)) =>
        match disk.listing(dir)
        case NoDirectory =>
        case Unreadable =>
        case Entries(names) =>
          if g in FilesIn(disk, dir, SortedNames(Chosen(Globs.Matches, pattern, names))) {
            PicksMore(disk, dir, pattern, names, g);
          }
    }
  }

  lemma PicksMore(disk: Disk, dir: string, pattern: string, names: seq<string>, g: File)
    requires [] !in names && g in FilesIn(disk, dir, SortedNames(Chosen(Globs.Matches, pattern, names)))
    ensures g in FilesIn(disk, dir, SortedNames(Chosen(Globs.Accepts, pattern, names)))
  {
    var a, b := SortedNames(Chosen(Globs.Matches, pattern, names)), SortedNames(Chosen(Globs.Accepts, pattern, names));
    SortedNamesAre(Chosen(Globs.Matches, pattern, names));
    SortedNamesAre(Chosen(Globs.Accepts, pattern, names));
    var i :| 0 <= i < |a| && disk.within(dir, a[i]) == g;
    assert a[i] in a;
    Globs.AcceptsAllTheReferenceAccepts(pattern, a[i]);
    var j :| 0 <= j < |b| && b[j] == a[i];
    assert FilesIn(disk, dir, b)[j] == g;
  }

  lemma {:induction false} FollowsMore(disk: Disk, f: File, specs: seq<string>, g: File)
    requires Real(disk) && g in Followed(TreeBy(disk, Globs.Matches), f, specs)
    ensures g in Followed(TreeBy(disk, Globs.Accepts), f, specs)
    decreases |specs|
  {
    if specs != [] {
      ExpandsMore(disk, f, specs[0], g);
      if g in Followed(TreeBy(disk, Globs.Matches), f, specs[1..]) {
        FollowsMore(disk, f, specs[1..], g);
      }
    }
  }

  /** A file the reference reaches is reached by the walk too. */
  lemma {:induction false} ReachesMore(disk: Disk, path: seq<File>, a: File, b: File)
    requires Real(disk) && Leads(TreeBy(disk, Globs.Matches), path, a, b)
    ensures Leads(TreeBy(disk, Globs.Accepts), path, a, b)
  {
    var reference, tree := TreeBy(disk, Globs.Matches), TreeBy(disk, Globs.Accepts);
    forall i | 0 <= i < |path| - 1
      ensures path[i + 1] in Next(tree, path[i])
    {
      assert path[i + 1] in Next(reference, path[i]);
      FollowsMore(disk, path[i], Specs(reference, path[i]), path[i + 1]);
    }
  }

  // ---- Where the two agree ----------------------------------------------------------

  /** No `*`, or a single one at the front or at the back: what include globs look like. */
  predicate Simple(pattern: string) {
    || '*' !in pattern
    || (pattern[0] == '*' && '*' !in pattern[1..])
    || (pattern[|pattern| - 1] == '*' && '*' !in pattern[..|pattern| - 1])
  }

  lemma SimpleIsExact(pattern: string, n: string)
    requires Simple(pattern)
    ensures Globs.Accepts(pattern, n) <==> Globs.Matches(pattern, n)
  {
    if '*' !in pattern {
      Globs.PlainIsExact(pattern, n);
    } else if pattern[0] == '*' && '*' !in pattern[1..] {
      assert pattern == "*" + pattern[1..];
      Globs.LeadingStarIsExact(pattern[1..], n);
    } else {
      assert pattern == pattern[..|pattern| - 1] + "*";
      Globs.TrailingStarIsExact(pattern[..|pattern| - 1], n);
    }
  }

  lemma {:induction false} ChosenAlike(pattern: string, names: seq<string>)
    requires Simple(pattern)
    ensures Chosen(Globs.Accepts, pattern, names) == Chosen(Globs.Matches, pattern, names)
    decreases |names|
  {
    if names != [] {
      ChosenAlike(pattern, names[..|names| - 1]);
      SimpleIsExact(pattern, names[|names| - 1]);
    }
  }

  predicate SimpleSpec(disk: Disk, f: File, spec: string) {
    var parts := disk.resolve(f, spec).parts;
    parts.Some? ==> Simple(parts.value.1)
  }

  /** Every include glob of the configuration is simple. */
  predicate SimpleGlobs(disk: Disk) {
    forall f | f in disk.files :: forall spec | spec in AllSpecs(Text.Lines(disk.files[f])) :: SimpleSpec(disk, f, spec)
  }

  lemma ExpandsAlike(disk: Disk, f: File, spec: string)
    requires SimpleSpec(disk, f, spec)
    ensures Expand(disk, Globs.Accepts, f, spec) == Expand(disk, Globs.Matches, f, spec)
  {
    var parts := disk.resolve(f, spec).parts;
    if parts.Some? && disk.listing(parts.value.0).Entries? {
      ChosenAlike(parts.value.1, disk.listing(parts.value.0).names);
    }
  }

  lemma {:induction false} FollowsAlike(disk: Disk, f: File, specs: seq<string>)
    requires forall spec | spec in specs :: SimpleSpec(disk, f, spec)
    ensures Followed(TreeBy(disk, Globs.Accepts), f, specs) == Followed(TreeBy(disk, Globs.Matches), f, specs)
    decreases |specs|
  {
    if specs != [] {
      ExpandsAlike(disk, f, specs[0]);
      FollowsAlike(disk, f, specs[1..]);
    }
  }

  lemma LeadsAlike(disk: Disk, path: seq<File>, a: File, b: File)
    requires SimpleGlobs(disk)
    ensures Leads(TreeBy(disk, Globs.Accepts), path, a, b) <==> Leads(TreeBy(disk, Globs.Matches), path, a, b)
  {
    forall f
      ensures Next(TreeBy(disk, Globs.Accepts), f) == Next(TreeBy(disk, Globs.Matches), f)
    {
      FollowsAlike(disk, f, Specs(TreeBy(disk, Globs.Accepts), f));
    }
  }

  /** With simple globs the walk reaches exactly what the reference reaches. */
  lemma ReachAlike(disk: Disk, a: File, b: File)
    requires SimpleGlobs(disk)
    ensures Reach(TreeBy(disk, Globs.Accepts), a, b) <==> Reach(TreeBy(disk, Globs.Matches), a, b)
  {
    if path :| Leads(TreeBy(disk, Globs.Accepts), path, a, b) {
      LeadsAlike(disk, path, a, b);
    }
    if path :| Leads(TreeBy(disk, Globs.Matches), path, a, b) {
      LeadsAlike(disk, path, a, b);
    }
  }

  /** The real listens of a configuration on disk: the inner ones and those of every file the
      walk reaches with its own matcher. None is missed: every listen of a file that the
      reference reading of the globs reaches is among them; and with simple globs there are no
      others. */
  method RealListensOnDisk(disk: Disk, root: File) returns (r: Result<set<Port>>)
    requires Real(disk)
    ensures r.Ok? <==> forall f :: Reach(TreeBy(disk, Globs.Accepts), root, f) ==> Good(TreeBy(disk, Globs.Accepts), f)
    ensures r.Ok? ==> forall p: Port :: p in r.value <==>
      p in {80, 443, 8080, 8443}
      || exists f :: Reach(TreeBy(disk, Globs.Accepts), root, f) && p in Listens(TextOf(TreeBy(disk, Globs.Accepts), f))
    ensures r.Ok? ==> forall f, p: Port |
      Reach(TreeBy(disk, Globs.Matches), root, f) && p in Listens(TextOf(TreeBy(disk, Globs.Matches), f))
      :: p in r.value
    ensures r.Ok? && SimpleGlobs(disk) ==> forall p: Port :: p in r.value <==>
      p in {80, 443, 8080, 8443}
      || exists f :: Reach(TreeBy(disk, Globs.Matches), root, f) && p in Listens(TextOf(TreeBy(disk, Globs.Matches), f))
  {
    var tree := TreeBy(disk, Globs.Accepts);
    r := RealListens(tree, root);
    forall f, p: Port |
      r.Ok? && Reach(TreeBy(disk, Globs.Matches), root, f) && p in Listens(TextOf(TreeBy(disk, Globs.Matches), f))
      ensures p in r.value
    {
      var path :| Leads(TreeBy(disk, Globs.Matches), path, root, f);
      ReachesMore(disk, path, root, f);
      assert Reach(tree, root, f) && TextOf(tree, f) == TextOf(TreeBy(disk, Globs.Matches), f);
    }
    if SimpleGlobs(disk) {
      forall f
        ensures Reach(tree, root, f) <==> Reach(TreeBy(disk, Globs.Matches), root, f)
        ensures TextOf(tree, f) == TextOf(TreeBy(disk, Globs.Matches), f)
      {
        ReachAlike(disk, root, f);
      }
    }
  }
}
