/** What the `listen` and `include` lines of an nginx configuration mean, however they are laid
    out: blanks around the words, a remark behind, any number of semicolons. */
module NginxForms {
  import opened Prelude
  import opened Text
  import opened TextForms
  import opened Ports
  import opened NginxIncludes
  import opened NginxListens

  // ---- First words ------------------------------------------------------------------

  /** Whether a trimmed text starts with a word and a blank can be seen from its words. */
  lemma {:induction false} StartsWithWord(s: string, word: string)
    requires IsWord(word) && (s == [] || !IsSpace(s[0]))
    ensures
      Words(s) != [] && Words(s)[0] == word <==> word <= s && (s == word || IsSpace(s[|word|]))
    ensures word <= s && (s == word || IsSpace(s[|word|])) ==> Words(s) == [word] + Words(s[|word|..])
  {
    if word <= s && (s == word || IsSpace(s[|word|])) {
      assert s == word + s[|word|..];
      WordsFirst(word, s[|word|..]);
    }
    if s != [] {
      var n := Word(s);
      assert TrimStart(s) == s;
      assert n < |s| ==> IsSpace(s[n]);
    }
  }

  lemma {:induction false} TrimmedStart(s: string)
    ensures Trim(s) == [] || !IsSpace(Trim(s)[0])
  {
    TrimEndKeeps(TrimStart(s));
  }

  lemma {:induction false} TrimEndKeeps(s: string)
    ensures TrimEnd(s) <= s
    decreases |s|
  {
    if s != [] && IsSpace(s[|s| - 1]) {
      TrimEndKeeps(s[..|s| - 1]);
    }
  }

  // ---- Listen -----------------------------------------------------------------------

  /** The port an address names: all of it, or what follows its last colon. */
  function AddressPort(word: string): Option<Port> {
    var address := TrimSemicolons(word);
    if AllDigits(address) then PortOf(address)
    else if ':' in address then PortOf(TrimSemicolons(LastPiece(address, ':')))
    else None
  }

  /** A line is a `listen` line exactly when that is its first word, and then its second word is
      the address. */
  lemma ListenByWords(raw: string)
    ensures
      var ws := Words(Before(raw, '#'));
      LineListen(raw) ==
        if ws == [] || ws[0] != "listen" then None else AddressPort(if |ws| < 2 then "" else ws[1])
  {
    var cut := Before(raw, '#');
    WordsTrim(cut);
    TrimmedStart(cut);
    ListenIsWord();
    StartsWithWord(Trim(cut), "listen");
    TrimmedListen(raw, Trim(cut), Words(cut));
  }

  /** What follows the word decides, once the line is trimmed. */
  lemma ListenRest(raw: string, line: string)
    requires line == Trim(Before(raw, '#'))
    ensures
      LineListen(raw) ==
        if !("listen" <= line) || line == "listen" || !IsSpace(line[6]) then None
        else AddressPort(if Words(line[6..]) == [] then [] else Words(line[6..])[0])
  {}

  lemma NoAddress()
    ensures AddressPort("") == None && Words("") == []
  {}

  lemma TrimmedListen(raw: string, line: string, ws: seq<string>)
    requires line == Trim(Before(raw, '#'))
    requires ws != [] && ws[0] == "listen" <==> "listen" <= line && (line == "listen" || IsSpace(line[6]))
    requires ws != [] && ws[0] == "listen" ==> ws == ["listen"] + Words(line[6..])
    ensures
      LineListen(raw) ==
        if ws == [] || ws[0] != "listen" then None else AddressPort(if |ws| < 2 then "" else ws[1])
  {
    ListenRest(raw, line);
    NoAddress();
    if ws != [] && ws[0] == "listen" {
      SecondOf(ws, Words(line[6..]));
      if line == "listen" {
        assert line[6..] == "";
      }
    }
  }

  lemma SecondOf(ws: seq<string>, rest: seq<string>)
    requires ws == ["listen"] + rest
    ensures (if |ws| < 2 then "" else ws[1]) == if rest == [] then [] else rest[0]
  {}

  lemma ListenIsWord()
    ensures IsWord("listen") && IsWord("include")
  {}

  lemma {:induction false} LastPieceIs(a: string, b: string, c: char)
    requires c !in b
    ensures LastPiece(a + [c] + b, c) == b
    decreases |a|
  {
    var s := a + [c] + b;
    if c in a {
      var i := IndexOf(a, c);
      assert s == a[..i] + [c] + (a[i + 1..] + [c] + b);
      SplitFirst(a[..i], c, a[i + 1..] + [c] + b);
      LastPieceIs(a[i + 1..], b, c);
    } else {
      SplitFirst(a, c, b);
      SplitNone(b, c);
    }
  }

  predicate Semicolons(s: string) {
    forall i | 0 <= i < |s| :: s[i] == ';'
  }

  lemma {:induction false} SemicolonsOff(s: string, ends: string)
    requires Semicolons(ends) && (s == [] || s[|s| - 1] != ';')
    ensures TrimSemicolons(s + ends) == s
    decreases |ends|
  {
    if ends == [] {
      assert s + ends == s;
    } else {
      var n := |ends| - 1;
      assert (s + ends)[..|s + ends| - 1] == s + ends[..n];
      SemicolonsOff(s, ends[..n]);
    }
  }

  lemma PortOfDecimal(n: nat)
    ensures PortOf(Decimal(n)) == if 0 < n < PORT_LIMIT then Some(n) else None
  {
    ParseNatOfDecimal(n);
  }

  lemma DecimalEnds(n: nat)
    ensures Decimal(n)[|Decimal(n)| - 1] != ';' && ':' !in Decimal(n) && TrimSemicolons(Decimal(n)) == Decimal(n)
  {}

  /** A bare number is that port, from 1 to 65535. */
  lemma BareAddress(n: nat, ends: string)
    requires Semicolons(ends)
    ensures AddressPort(Decimal(n) + ends).Some? <==> 1 <= n <= 65535
    ensures AddressPort(Decimal(n) + ends).Some? ==> AddressPort(Decimal(n) + ends).value == n
  {
    DecimalEnds(n);
    SemicolonsOff(Decimal(n), ends);
    PortOfDecimal(n);
  }

  /** So is a port behind a host, which may hold colons itself. */
  lemma HostAddress(host: string, p: Port, ends: string)
    requires p != 0 && Semicolons(ends)
    ensures AddressPort(host + ":" + Decimal(p) + ends) == Some(p)
  {
    var address := host + ":" + Decimal(p);
    DecimalEnds(p);
    assert address[|address| - 1] == Decimal(p)[|Decimal(p)| - 1];
    SemicolonsOff(address, ends);
    assert address[|host|] == ':';
    LastPieceIs(host, Decimal(p), ':');
    PortOfDecimal(p);
  }

  /** What is neither, like the path of a socket, is no port. */
  lemma OtherAddress(host: string, rest: string, ends: string)
    requires Semicolons(ends) && ':' !in rest && rest != "" && rest[0] != '+' && rest[|rest| - 1] != ';'
    requires !AllDigits(rest)
    ensures AddressPort(host + ":" + rest + ends) == None && AddressPort(rest + ends) == None
  {
    var address := host + ":" + rest;
    assert address[|address| - 1] == rest[|rest| - 1] && address[|host|] == ':';
    SemicolonsOff(address, ends);
    SemicolonsOff(rest, ends);
    LastPieceIs(host, rest, ':');
    assert !AllDigits(address) by {
      assert !IsDigit(address[|host|]);
    }
  }

  /** `LineListens`, for any way of reading a line. */
  function Gathered(read: string -> Option<Port>, lines: seq<string>): seq<Port>
    decreases |lines|
  {
    if lines == [] then []
    else
      var n := |lines| - 1;
      Gathered(read, lines[..n]) + match read(lines[n]) case None => [] case Some(p) => [p]
  }

  lemma {:induction false} GatheredHas(read: string -> Option<Port>, lines: seq<string>, p: Port)
    ensures p in Gathered(read, lines) <==> exists i :: 0 <= i < |lines| && read(lines[i]) == Some(p)
    decreases |lines|
  {
    if lines != [] {
      GatheredHas(read, lines[..|lines| - 1], p);
      FoundNext(read, lines, p);
    }
  }

  lemma FoundNext(read: string -> Option<Port>, lines: seq<string>, p: Port)
    requires lines != []
    ensures
      var n := |lines| - 1;
      (exists i :: 0 <= i < |lines| && read(lines[i]) == Some(p)) <==>
        (exists i :: 0 <= i < n && read(lines[..n][i]) == Some(p)) || read(lines[n]) == Some(p)
  {
    var n := |lines| - 1;
    if i :| 0 <= i < n && read(lines[..n][i]) == Some(p) {
      assert read(lines[i]) == Some(p);
    }
    if i :| 0 <= i < |lines| && read(lines[i]) == Some(p) {
      assert i < n ==> read(lines[..n][i]) == Some(p);
    }
  }

  lemma {:induction false} LineListensAre(lines: seq<string>)
    ensures LineListens(lines) == Gathered(LineListen, lines)
    decreases |lines|
  {
    if lines != [] {
      LineListensAre(lines[..|lines| - 1]);
    }
  }

  predicate HasListen(lines: seq<string>, p: Port) {
    exists i :: 0 <= i < |lines| && IsListen(lines[i], p)
  }

  lemma ListenIsGathered(lines: seq<string>, i: nat, p: Port)
    requires i < |lines| && IsListen(lines[i], p)
    ensures p in LineListens(lines)
  {
    ListenIff(lines[i], p);
    LineListensAre(lines);
    var read := LineListen;
    assert read(lines[i]) == Some(p);
    GatheredHas(read, lines, p);
  }

  lemma GatheredIsListen(lines: seq<string>, p: Port) returns (i: nat)
    requires p in LineListens(lines)
    ensures i < |lines| && IsListen(lines[i], p)
  {
    LineListensAre(lines);
    var read := LineListen;
    GatheredHas(read, lines, p);
    i :| 0 <= i < |lines| && read(lines[i]) == Some(p);
    ListenIff(lines[i], p);
  }

  /** The ports a text listens on are exactly the addresses of its `listen` lines. */
  lemma ListensAre(text: string, p: Port)
    ensures p in Listens(text) <==> HasListen(Lines(text), p)
  {
    var lines := Lines(text);
    if p in LineListens(lines) {
      var i := GatheredIsListen(lines, p);
      assert HasListen(lines, p);
    }
    if HasListen(lines, p) {
      var i :| 0 <= i < |lines| && IsListen(lines[i], p);
      ListenIsGathered(lines, i, p);
    }
  }

  lemma ListenIff(raw: string, p: Port)
    ensures LineListen(raw) == Some(p) <==> IsListen(raw, p)
  {
    ListenByWords(raw);
    NoAddress();
  }

  predicate IsListen(raw: string, p: Port) {
    var ws := Words(Before(raw, '#'));
    |ws| >= 2 && ws[0] == "listen" && AddressPort(ws[1]) == Some(p)
  }

  /** A line `listen` with an address and more words, laid out in any way and with any remark
      behind it, is a listen on the port of the address. */
  lemma LaidListen(gaps: seq<string>, ws: seq<string>, tail: string, remark: string, p: Port)
    requires |gaps| == |ws| >= 2 && Gaps(gaps) && AllWords(ws) && Blank(tail)
    requires ws[0] == "listen" && AddressPort(ws[1]) == Some(p)
    requires forall i | 0 <= i < |ws| :: '#' !in ws[i]
    requires remark == "" || remark[0] == '#'
    ensures IsListen(Laid(gaps, ws) + tail + remark, p)
  {
    CutAtRemark(gaps, ws, tail, remark);
    WordsLaid(gaps, ws, tail);
  }

  lemma {:induction false} CutAtRemark(gaps: seq<string>, ws: seq<string>, tail: string, remark: string)
    requires |gaps| == |ws| && Gaps(gaps) && Blank(tail)
    requires forall i | 0 <= i < |ws| :: '#' !in ws[i]
    requires remark == "" || remark[0] == '#'
    ensures Before(Laid(gaps, ws) + tail + remark, '#') == Laid(gaps, ws) + tail
  {
    SpacesNamed('#');
    LaidUnmarked(gaps, ws);
    CutLine(Laid(gaps, ws) + tail, remark);
  }

  lemma {:induction false} LaidUnmarked(gaps: seq<string>, ws: seq<string>)
    requires |gaps| == |ws| && (forall i | 0 <= i < |gaps| :: Blank(gaps[i]))
    requires forall i | 0 <= i < |ws| :: '#' !in ws[i]
    ensures '#' !in Laid(gaps, ws)
    decreases |ws|
  {
    SpacesNamed('#');
    if ws != [] {
      LaidUnmarked(gaps[1..], ws[1..]);
    }
  }

  /** In particular `listen host:port;` in any file the walk reaches is a real listen. */
  lemma HostListenIsFound(
    text: string, k: nat, host: string, p: Port, rest: seq<string>, gaps: seq<string>, tail: string, remark: string)
    requires p != 0 && NoSpace(host) && '#' !in host && AllWords(rest) && Blank(tail)
    requires |gaps| == 2 + |rest| && Gaps(gaps) && forall i | 0 <= i < |rest| :: '#' !in rest[i]
    requires remark == "" || remark[0] == '#'
    requires
      k < |Lines(text)|
      && Lines(text)[k] == Laid(gaps, ["listen", host + ":" + Decimal(p) + ";"] + rest) + tail + remark
    ensures p in Listens(text)
  {
    var address := host + ":" + Decimal(p) + ";";
    HostWord(host, p, address);
    ListenIsWord();
    LaidListen(gaps, ["listen", address] + rest, tail, remark, p);
    assert ["listen", host + ":" + Decimal(p) + ";"] + rest == ["listen", address] + rest;
    ListensAre(text, p);
  }

  lemma HostWord(host: string, p: Port, address: string)
    requires p != 0 && NoSpace(host) && '#' !in host && address == host + ":" + Decimal(p) + ";"
    ensures IsWord(address) && '#' !in address && AddressPort(address) == Some(p)
  {
    HostAddress(host, p, ";");
    DigitsAreTame(Decimal(p));
    SpacesNamed(':');
    SpacesNamed(';');
  }

  // ---- Include ----------------------------------------------------------------------

  /** A line is an `include` line exactly when that is its first word. */
  lemma {:induction false} NoInclude(raw: string)
    requires var ws := Words(Before(raw, '#')); ws == [] || ws[0] != "include"
    ensures IncludeSpecs(raw) == []
  {
    var cut := Before(raw, '#');
    WordsTrim(cut);
    TrimmedStart(cut);
    ListenIsWord();
    StartsWithWord(Trim(cut), "include");
  }

  /** The specs of a file are those of its lines, in order. */
  lemma {:induction false} SpecsInOrder(a: seq<string>, b: seq<string>)
    ensures AllSpecs(a + b) == AllSpecs(a) + AllSpecs(b)
    decreases |b|
  {
    if b == [] {
      assert a + b == a;
    } else {
      var m, line := b[..|b| - 1], b[|b| - 1];
      LastOfBoth(a, b);
      SpecsInOrder(a, m);
      SpecsNext(a + m, line);
      SpecsNext(m, line);
      Associative(AllSpecs(a), AllSpecs(m), IncludeSpecs(line));
    }
  }

  lemma SpecsNext(lines: seq<string>, line: string)
    ensures AllSpecs(lines + [line]) == AllSpecs(lines) + IncludeSpecs(line)
  {
    assert (lines + [line])[..|lines|] == lines;
  }

  lemma SpecsOfLine(line: string)
    ensures AllSpecs([line]) == IncludeSpecs(line) && AllSpecs([]) == []
  {
    assert [line][..0] == [];
  }

  /** And the files they lead to are those of the specs, in order, when each can be expanded. */
  lemma {:induction false} FollowedInOrder(tree: Tree, f: File, a: seq<string>, b: seq<string>)
    requires forall i | 0 <= i < |a| :: tree.expand(f, a[i]).Ok?
    ensures Followed(tree, f, a + b) == Followed(tree, f, a) + Followed(tree, f, b)
    decreases |a|
  {
    if a == [] {
      assert a + b == b;
    } else {
      assert (a + b)[1..] == a[1..] + b;
      FollowedInOrder(tree, f, a[1..], b);
    }
  }

  lemma FollowedOne(tree: Tree, f: File, spec: string)
    ensures Followed(tree, f, [spec]) == match tree.expand(f, spec) case Ok(files) => files case Err => []
  {
    assert [spec][1..] == [];
    match tree.expand(f, spec)
    case Ok(files) => assert files + [] == files;
    case Err =>
  }

  /** The words of a spec list from the first one on. */
  function Inner(gaps: seq<string>, specs: seq<string>): string
    requires |gaps| == |specs| > 0
  {
    specs[0] + Laid(gaps[1..], specs[1..])
  }

  predicate SpecWords(gaps: seq<string>, specs: seq<string>) {
    && |gaps| == |specs| > 0 && AllWords(specs)
    && (forall i | 0 <= i < |gaps| :: gaps[i] != [] && Blank(gaps[i]))
    && (forall i | 0 <= i < |specs| :: '#' !in specs[i])
    && specs[|specs| - 1][|specs[|specs| - 1]| - 1] != ';'
  }

  lemma {:induction false} LaidEnds(gaps: seq<string>, ws: seq<string>)
    requires |gaps| == |ws| > 0 && AllWords(ws)
    ensures
      var s, last := Laid(gaps, ws), ws[|ws| - 1];
      s != [] && s[|s| - 1] == last[|last| - 1]
    decreases |ws|
  {
    if |ws| > 1 {
      LaidEnds(gaps[1..], ws[1..]);
    }
  }

  lemma InnerWords(gaps: seq<string>, specs: seq<string>)
    requires SpecWords(gaps, specs)
    ensures Words(Inner(gaps, specs)) == specs && '#' !in Inner(gaps, specs)
  {
    var x, tight := Inner(gaps, specs), [""] + gaps[1..];
    assert tight[1..] == gaps[1..];
    assert Laid(tight, specs) + "" == x;
    WordsLaid(tight, specs, "");
    LaidUnmarked(tight, specs);
  }

  lemma InnerIs(gaps: seq<string>, specs: seq<string>)
    requires SpecWords(gaps, specs)
    ensures
      var x := Inner(gaps, specs);
      x != [] && !IsSpace(x[0]) && !IsSpace(x[|x| - 1]) && x[|x| - 1] != ';' && Laid(gaps, specs) == gaps[0] + x
  {
    var x, last := Inner(gaps, specs), specs[|specs| - 1];
    LaidEnds(gaps, specs);
    assert Laid(gaps, specs) == gaps[0] + x;
    assert IsWord(specs[0]) && x[0] == specs[0][0];
    assert IsWord(last) && x[|x| - 1] == last[|last| - 1];
  }

  /** Semicolons behind the list, and blanks before them, come off. */
  lemma SpecsOff(x: string, gap: string, ends: string)
    requires x != [] && !IsSpace(x[0]) && !IsSpace(x[|x| - 1]) && x[|x| - 1] != ';'
    requires Blank(gap) && Semicolons(ends)
    ensures Trim(TrimSemicolons(x + gap + ends)) == x
  {
    var y := x + gap;
    GapBeforeEnds(x, gap);
    SemicolonsOff(y, ends);
    TrimAfter(x, gap);
  }

  lemma TrimAfter(x: string, gap: string)
    requires x != [] && !IsSpace(x[0]) && !IsSpace(x[|x| - 1]) && Blank(gap)
    ensures Trim(x + gap) == x
  {
    TrimAround("", x, gap);
    assert "" + x == x;
  }

  lemma GapBeforeEnds(x: string, gap: string)
    requires x != [] && x[|x| - 1] != ';' && Blank(gap)
    ensures (x + gap)[|x + gap| - 1] != ';'
  {
    SpacesNamed(';');
    if gap != "" {
      assert (x + gap)[|x + gap| - 1] == gap[|gap| - 1];
    }
  }

  lemma SpecsOfTrimmed(raw: string, core: string, body: string)
    requires Trim(Before(raw, '#')) == core && "include" <= core && core[7..] == body
    requires body != [] && IsSpace(body[0])
    ensures IncludeSpecs(raw) == Words(Trim(TrimSemicolons(Trim(body))))
  {}

  lemma Grouped(a: string, b: string, c: string, d: string, e: string)
    ensures a + b + c + d + e == a + (b + (c + d)) + e
  {}

  /** A line without a remark: its word, and a list that starts and ends with visible text. */
  lemma SpecsIn(first: string, gap0: string, y: string, after: string)
    requires Blank(first) && Blank(gap0) && gap0 != [] && Blank(after)
    requires y != [] && !IsSpace(y[0]) && !IsSpace(y[|y| - 1]) && '#' !in first + "include" + gap0 + y + after
    ensures IncludeSpecs(first + "include" + gap0 + y + after) == Words(Trim(TrimSemicolons(y)))
  {
    var line, core := first + "include" + gap0 + y + after, "include" + (gap0 + y);
    BeforeLacks(line, '#');
    CoreIs(gap0, y);
    Grouped(first, "include", gap0, y, after);
    TrimAround(first, core, after);
    TrimAround(gap0, y, "");
    assert gap0 + y + "" == gap0 + y;
    SpecsOfTrimmed(line, core, gap0 + y);
  }

  lemma CoreIs(gap0: string, y: string)
    requires gap0 != [] && y != [] && !IsSpace(y[|y| - 1])
    ensures
      var core := "include" + (gap0 + y);
      "include" <= core && core[7..] == gap0 + y && !IsSpace(core[0]) && !IsSpace(core[|core| - 1])
  {
    ListenIsWord();
    assert ("include" + (gap0 + y))[0] == "include"[0];
  }

  lemma SameCut(a: string, b: string)
    requires Before(a, '#') == Before(b, '#')
    ensures IncludeSpecs(a) == IncludeSpecs(b)
  {}

  lemma LineIsTame(
    first: string, gaps: seq<string>, specs: seq<string>, gap: string, ends: string, tail: string)
    requires SpecWords(gaps, specs) && Blank(first) && Blank(gap) && Blank(tail) && Semicolons(ends)
    ensures '#' !in first + "include" + Laid(gaps, specs) + gap + ends + tail
  {
    SpacesNamed('#');
    LaidUnmarked(gaps, specs);
  }

  /** And then the words behind it are the specs, without the semicolons at the end. */
  lemma LaidInclude(
    first: string, gaps: seq<string>, specs: seq<string>, gap: string, ends: string, tail: string, remark: string)
    requires SpecWords(gaps, specs) && Blank(first) && Blank(gap) && Blank(tail) && Semicolons(ends)
    requires remark == "" || remark[0] == '#'
    ensures IncludeSpecs(first + "include" + Laid(gaps, specs) + gap + ends + tail + remark) == specs
  {
    var line := first + "include" + Laid(gaps, specs) + gap + ends + tail;
    LineIsTame(first, gaps, specs, gap, ends, tail);
    CutLine(line, remark);
    BeforeLacks(line, '#');
    SameCut(line + remark, line);
    InnerIs(gaps, specs);
    InnerWords(gaps, specs);
    UnmarkedInclude(first, gaps[0], Inner(gaps, specs), gap, ends, tail, line);
  }

  predicate Visible(x: string) {
    x != [] && !IsSpace(x[0]) && !IsSpace(x[|x| - 1]) && x[|x| - 1] != ';'
  }

  lemma EndlessInclude(first: string, gap0: string, x: string, after: string)
    requires Blank(first) && Blank(gap0) && gap0 != [] && Blank(after) && Visible(x)
    requires '#' !in first + "include" + gap0 + x + after
    ensures IncludeSpecs(first + "include" + gap0 + x + after) == Words(x)
  {
    SpecsIn(first, gap0, x, after);
    SpecsOff(x, "", "");
    assert x + "" + "" == x;
  }

  lemma EndedInclude(first: string, gap0: string, x: string, gap: string, ends: string, tail: string)
    requires Blank(first) && Blank(gap0) && gap0 != [] && Blank(gap) && Blank(tail) && Visible(x)
    requires ends != [] && Semicolons(ends) && '#' !in first + "include" + gap0 + (x + gap + ends) + tail
    ensures IncludeSpecs(first + "include" + gap0 + (x + gap + ends) + tail) == Words(x)
  {
    SomeEnds(x, gap, ends);
    SpecsIn(first, gap0, x + gap + ends, tail);
    SpecsOff(x, gap, ends);
  }

  lemma UnmarkedInclude(
    first: string, gap0: string, x: string, gap: string, ends: string, tail: string, line: string)
    requires Blank(first) && Blank(gap0) && gap0 != [] && Blank(gap) && Blank(tail) && Semicolons(ends) && Visible(x)
    requires line == first + "include" + (gap0 + x) + gap + ends + tail && '#' !in line
    ensures IncludeSpecs(line) == Words(x)
  {
    var start := first + "include";
    if ends == "" {
      NoEnds(start, gap0, x, gap, tail);
      EndlessInclude(first, gap0, x, gap + tail);
    } else {
      Ends(start, gap0, x, gap, ends, tail);
      EndedInclude(first, gap0, x, gap, ends, tail);
    }
  }

  lemma Ends(a: string, gap0: string, x: string, gap: string, ends: string, tail: string)
    ensures a + (gap0 + x) + gap + ends + tail == a + gap0 + (x + gap + ends) + tail
  {}

  lemma NoEnds(a: string, gap0: string, x: string, gap: string, tail: string)
    ensures a + (gap0 + x) + gap + "" + tail == a + gap0 + x + (gap + tail)
  {}

  lemma SomeEnds(x: string, gap: string, ends: string)
    requires x != [] && ends != [] && Semicolons(ends)
    ensures var y := x + gap + ends; y[0] == x[0] && !IsSpace(y[|y| - 1])
  {
    SpacesNamed(';');
  }

  lemma CutLine(line: string, remark: string)
    requires '#' !in line && (remark == "" || remark[0] == '#')
    ensures Before(line + remark, '#') == line
  {
    BeforeSkips(line, remark, '#');
    if remark != "" {
      IndexOfIs(remark, '#', 0);
    }
    assert line + "" == line;
  }
}
