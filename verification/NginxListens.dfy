/** The ports a configuration listens on, over all the files its includes reach. */
module NginxListens {
  import opened Prelude
  import opened Text
  import opened Ports
  import opened NginxIncludes

  const INNER_LISTENS: set<Port> := {80, 443, 8080, 8443}

  function LastPiece(s: string, c: char): string {
    var pieces := Split(s, c);
    pieces[|pieces| - 1]
  }

  /** The port of a `listen` line: the whole address when it is all digits, else what follows
      its last colon. */
  function LineListen(raw: string): (r: Option<Port>)
    ensures r.Some? ==> r.value != 0
  {
    var line := Trim(Before(raw, '#'));
    if !("listen" <= line) then None
    else
      var rest := line[6..];
      if rest == [] || !IsSpace(rest[0]) then None
      else
        var words := Words(rest);
        var address := TrimSemicolons(if words == [] then [] else words[0]);
        if AllDigits(address) then PortOf(address)
        else if ':' in address then PortOf(TrimSemicolons(LastPiece(address, ':')))
        else None
  }

  function PortOf(s: string): (r: Option<Port>)
    ensures r.Some? ==> r.value != 0
  {
    match ParseNat(s)
    case Err => None
    case Ok(n) => if n == 0 || n >= PORT_LIMIT then None else Some(n)
  }

  /** Every listen of the lines, in order, repeated or not. */
  function LineListens(lines: seq<string>): (r: seq<Port>)
    ensures 0 !in r
    decreases |lines|
  {
    if lines == [] then []
    else
      var n := |lines| - 1;
      LineListens(lines[..n]) + match LineListen(lines[n]) case None => [] case Some(p) => [p]
  }

  function Listens(text: string): seq<Port> {
    LineListens(Lines(text))
  }

  lemma ListensNext(lines: seq<string>, i: nat)
    requires i < |lines|
    ensures
      LineListens(lines[..i + 1]) ==
        match LineListen(lines[i]) case None => LineListens(lines[..i]) case Some(p) => LineListens(lines[..i]) + [p]
  {
    assert lines[..i + 1][..i] == lines[..i];
  }

  /** `parse_listen_ports`: each port once, in the order of first mention. */
  method ParseListenPorts(text: string) returns (out: seq<Port>)
    ensures out == Firsts(Listens(text))
  {
    var lines := Lines(text);
    var seen: set<Port> := {};
    out := [];
    for i := 0 to |lines|
      invariant out == Firsts(LineListens(lines[..i])) && seen == Elements(out)
    {
      ListensNext(lines, i);
      var port := LineListen(lines[i]);
      if port.Some? {
        seen, out := Push(seen, out, port.value, LineListens(lines[..i]));
      }
    }
    assert lines[..|lines|] == lines;
  }

  function TextOf(tree: Tree, f: File): string {
    if f in tree.files then tree.files[f] else ""
  }

  /** The listens of the files one after the other, each file's own repetitions dropped. */
  function TreeListens(tree: Tree, files: seq<File>): seq<Port>
    decreases |files|
  {
    if files == [] then []
    else
      var n := |files| - 1;
      TreeListens(tree, files[..n]) + Firsts(Listens(TextOf(tree, files[n])))
  }

  ghost predicate Mentioned(tree: Tree, files: seq<File>, p: Port) {
    exists f :: f in files && p in Listens(TextOf(tree, f))
  }

  lemma MentionedNext(tree: Tree, files: seq<File>, p: Port, n: nat)
    requires n + 1 == |files|
    ensures Mentioned(tree, files, p) <==> Mentioned(tree, files[..n], p) || p in Listens(TextOf(tree, files[n]))
  {
    assert forall f :: f in files <==> f in files[..n] || f == files[n];
  }

  lemma {:induction false} TreeListensHas(tree: Tree, files: seq<File>, p: Port)
    ensures p in TreeListens(tree, files) <==> Mentioned(tree, files, p)
    decreases |files|
  {
    if files != [] {
      var n := |files| - 1;
      TreeListensHas(tree, files[..n], p);
      MentionedNext(tree, files, p, n);
    }
  }

  /** File by file, and in each file line by line. */
  lemma {:induction false} ListensInOrder(a: seq<string>, b: seq<string>)
    ensures LineListens(a + b) == LineListens(a) + LineListens(b)
    decreases |b|
  {
    if b == [] {
      assert a + b == a;
    } else {
      assert (a + b)[..|a + b| - 1] == a + b[..|b| - 1];
      ListensInOrder(a, b[..|b| - 1]);
    }
  }

  lemma {:induction false} FilesInOrder(tree: Tree, a: seq<File>, b: seq<File>)
    ensures TreeListens(tree, a + b) == TreeListens(tree, a) + TreeListens(tree, b)
    decreases |b|
  {
    if b == [] {
      assert a + b == a;
    } else {
      var m, f := b[..|b| - 1], b[|b| - 1];
      LastOfBoth(a, b);
      FilesInOrder(tree, a, m);
      FilesNext(tree, a + m, f);
      FilesNext(tree, m, f);
      Associative(TreeListens(tree, a), TreeListens(tree, m), Firsts(Listens(TextOf(tree, f))));
    }
  }

  lemma FilesNext(tree: Tree, files: seq<File>, f: File)
    ensures TreeListens(tree, files + [f]) == TreeListens(tree, files) + Firsts(Listens(TextOf(tree, f)))
  {
    assert (files + [f])[..|files|] == files;
  }

  method PushAll(seen: set<Port>, out: seq<Port>, ports: seq<Port>, ghost before: seq<Port>)
    returns (seen': set<Port>, out': seq<Port>)
    requires out == Firsts(before) && seen == Elements(out)
    ensures out' == Firsts(before + ports) && seen' == Elements(out')
  {
    seen', out' := seen, out;
    assert before + ports[..0] == before;
    for j := 0 to |ports|
      invariant out' == Firsts(before + ports[..j]) && seen' == Elements(out')
    {
      assert before + ports[..j + 1] == before + ports[..j] + [ports[j]];
      seen', out' := Push(seen', out', ports[j], before + ports[..j]);
    }
    assert ports[..|ports|] == ports;
  }

  lemma TreeListensNext(tree: Tree, files: seq<File>, i: nat)
    requires i < |files|
    ensures TreeListens(tree, files[..i + 1]) == TreeListens(tree, files[..i]) + Firsts(Listens(TextOf(tree, files[i])))
  {
    assert files[..i + 1][..i] == files[..i];
  }

  /** `parse_listen_ports_from_conf`: in discovery order over the expanded files. */
  method ListenPortsOfConf(tree: Tree, root: File) returns (r: Result<seq<Port>>, ghost files: seq<File>)
    ensures r.Ok? <==> forall f :: Reach(tree, root, f) ==> Good(tree, f)
    ensures r.Ok? ==>
      && (forall f :: f in files <==> Reach(tree, root, f)) && Preorder(tree, root, files)
      && r.value == Firsts(TreeListens(tree, files))
  {
    files := [];
    var expanded := ReadExpandedFiles(tree, root);
    if expanded.Err? {
      return Err, [];
    }
    var all := expanded.value;
    var out := UniqueListens(tree, all);
    return Ok(out), all;
  }

  method UniqueListens(tree: Tree, all: seq<File>) returns (out: seq<Port>)
    ensures out == Firsts(TreeListens(tree, all))
  {
    var seen: set<Port> := {};
    out := [];
    for i := 0 to |all|
      invariant out == Firsts(TreeListens(tree, all[..i])) && seen == Elements(out)
    {
      TreeListensNext(tree, all, i);
      var ports := ParseListenPorts(TextOf(tree, all[i]));
      seen, out := PushAll(seen, out, ports, TreeListens(tree, all[..i]));
    }
    assert all[..|all|] == all;
  }

  /** `real_listen_ports_from_conf`: the inner listens and every listen of every file the
      includes reach, and nothing else. */
  method RealListens(tree: Tree, root: File) returns (r: Result<set<Port>>)
    ensures r.Ok? <==> forall f :: Reach(tree, root, f) ==> Good(tree, f)
    ensures r.Ok? ==> forall p: Port :: p in r.value <==>
      p in {80, 443, 8080, 8443} || exists f :: Reach(tree, root, f) && p in Listens(TextOf(tree, f))
  {
    var ports, files := ListenPortsOfConf(tree, root);
    if ports.Err? {
      return Err;
    }
    forall p: Port
      ensures p in ports.value <==> exists f :: Reach(tree, root, f) && p in Listens(TextOf(tree, f))
    {
      TreeListensHas(tree, files, p);
    }
    return Ok(INNER_LISTENS + Elements(ports.value));
  }
}
