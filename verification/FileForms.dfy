/** What a `ports.conf` written by hand means: lists and ranges of ports, blanks and remarks
    anywhere, lines ended either way. */
module FileForms {
  import opened Prelude
  import opened Text
  import opened TextForms
  import opened Ports
  import opened PortForms
  import opened PortPolicy
  import opened DesiredFile
  import opened FileRoundTrip
  import opened FileMeaning

  /** A row names its ports, tenant and site and the extra fields that its binding has. */
  datatype Line =
    | Plain(blanks: string, remark: Option<string>)
    | Row(tokens: seq<Token>, b: Binding, gaps: seq<string>, tail: string, remark: Option<string>)

  function Columns(tokens: seq<Token>, b: Binding): (fields: seq<string>)
    requires tokens != []
  {
    [ListText(tokens), b.tenant, b.site] + ExtraColumns(b)
  }

  function ExtraColumns(b: Binding): seq<string> {
    (if b.slot == 1 then ["tls"] else [])
    + ((if b.cert.Some? then ["cert=" + b.cert.value] else [])
       + (if b.policy.Some? then ["policy=" + b.policy.value] else []))
  }

  function RemarkText(remark: Option<string>): string {
    if remark.Some? then "#" + remark.value else ""
  }

  predicate OneLineRemark(remark: Option<string>) {
    remark.Some? ==> OneLine(remark.value)
  }

  predicate LineBlank(s: string) {
    Blank(s) && OneLine(s)
  }

  predicate Written(line: Line) {
    OneLineRemark(line.remark) &&
    match line
    case Plain(blanks, _) => LineBlank(blanks)
    case Row(tokens, b, gaps, tail, _) =>
      && tokens != [] && Tight(tokens) && ListText(tokens) != ""
      && b.slot <= 1 && ValidNames(b) && HashFree(b)
      && |gaps| == |Columns(tokens, b)| && Gaps(gaps) && LineBlank(tail)
      && forall i | 0 <= i < |gaps| :: OneLine(gaps[i])
  }

  function LineText(line: Line): string
    requires Written(line)
  {
    match line
    case Plain(blanks, remark) => blanks + RemarkText(remark)
    case Row(tokens, b, gaps, tail, remark) => Laid(gaps, Columns(tokens, b)) + tail + RemarkText(remark)
  }

  predicate AllWritten(lines: seq<Line>, ends: seq<string>) {
    |lines| == |ends|
    && (forall i | 0 <= i < |lines| :: Written(lines[i]))
    && (forall i | 0 <= i < |ends| :: ends[i] == "\n" || ends[i] == "\r\n")
  }

  function FileText(lines: seq<Line>, ends: seq<string>): string
    requires AllWritten(lines, ends)
    decreases |lines|
  {
    if lines == [] then "" else LineText(lines[0]) + ends[0] + FileText(lines[1..], ends[1..])
  }

  /** The row binds `p` to `b`. */
  predicate Binds(line: Line, p: Port, b: Binding) {
    line.Row? && Names(line.tokens, p) && line.b == b
  }

  predicate BoundIn(lines: seq<Line>, p: Port, b: Binding) {
    exists i :: 0 <= i < |lines| && Binds(lines[i], p, b)
  }

  /** Every list is usable, `d` has every binding of a row, and no other. */
  ghost predicate Means(lines: seq<Line>, d: Desired) {
    && (forall i | 0 <= i < |lines| :: lines[i].Row? ==> AllUsable(lines[i].tokens))
    && (forall p, b | BoundIn(lines, p, b) :: p in d && d[p] == b)
    && (forall p | p in d :: BoundIn(lines, p, d[p]))
  }

  // ---- One line ---------------------------------------------------------------------

  lemma ExtraColumnsAre(b: Binding)
    ensures ExtraColumns(b) == Extra(b)
  {}

  lemma ExtraWords(b: Binding)
    requires ValidNames(b) && HashFree(b)
    ensures AllWords(ExtraColumns(b)) && Unmarked(ExtraColumns(b))
  {
    assert IsWord("tls") && '#' !in "tls";
    if b.cert.Some? {
      TaggedWord("cert=", b.cert.value);
    }
    if b.policy.Some? {
      TaggedWord("policy=", b.policy.value);
    }
  }

  lemma TaggedWord(tag: string, value: string)
    requires tag == "cert=" || tag == "policy="
    requires ValidIdentity(value) && '#' !in value
    ensures IsWord(tag + value) && '#' !in tag + value
  {
    assert NoSpace("cert=") && NoSpace("policy=");
  }

  lemma ColumnsAre(tokens: seq<Token>, b: Binding)
    requires tokens != [] && Tight(tokens) && ListText(tokens) != "" && ValidNames(b) && HashFree(b)
    ensures AllWords(Columns(tokens, b)) && Unmarked(Columns(tokens, b))
    ensures Columns(tokens, b)[..3] == [ListText(tokens), b.tenant, b.site]
    ensures Columns(tokens, b)[3..] == Extra(b)
  {
    TightIsWord(tokens);
    ExtraWords(b);
    ExtraColumnsAre(b);
    var named := [ListText(tokens), b.tenant, b.site];
    assert AllWords(named) && Unmarked(named);
    WordsTogether(named, ExtraColumns(b));
  }

  lemma WordsTogether(a: seq<string>, b: seq<string>)
    requires AllWords(a) && AllWords(b) && Unmarked(a) && Unmarked(b)
    ensures AllWords(a + b) && Unmarked(a + b)
    ensures (a + b)[..|a|] == a && (a + b)[|a|..] == b
  {}

  lemma {:induction false} LaidLacks(gaps: seq<string>, ws: seq<string>, c: char)
    requires |gaps| == |ws| && forall i | 0 <= i < |ws| :: c !in gaps[i] && c !in ws[i]
    ensures c !in Laid(gaps, ws)
    decreases |ws|
  {
    if ws != [] {
      LaidLacks(gaps[1..], ws[1..], c);
    }
  }

  lemma CutRemark(s: string, remark: Option<string>)
    requires '#' !in s
    ensures Before(s + RemarkText(remark), '#') == s
  {
    BeforeSkips(s, RemarkText(remark), '#');
    if remark.Some? {
      IndexOfIs("#" + remark.value, '#', 0);
    }
    assert s + "" == s;
  }

  lemma BlanksAreTame(gaps: seq<string>)
    requires forall i | 0 <= i < |gaps| :: Blank(gaps[i])
    ensures forall i | 0 <= i < |gaps| :: '#' !in gaps[i]
  {
    forall i | 0 <= i < |gaps|
      ensures '#' !in gaps[i]
    {
      BlankHasNoComma(gaps[i]);
    }
  }

  lemma RowWords(line: Line)
    requires Written(line) && line.Row?
    ensures ParseLine(LineText(line)) == ParseFields(Columns(line.tokens, line.b))
  {
    var fields := Columns(line.tokens, line.b);
    ColumnsAre(line.tokens, line.b);
    BlanksAreTame(line.gaps);
    BlankHasNoComma(line.tail);
    LaidLacks(line.gaps, fields, '#');
    CutRemark(Laid(line.gaps, fields) + line.tail, line.remark);
    WordsLaid(line.gaps, fields, line.tail);
  }

  /** The text reads, unless some item of a list is not usable, and gives what the line binds. */
  ghost predicate ReadsAs(text: string, line: Line) {
    && (ParseLine(text).Ok? <==> (line.Row? ==> AllUsable(line.tokens)))
    && (ParseLine(text).Ok? ==> forall p, b :: Gives(text, p, b) <==> Binds(line, p, b))
  }

  lemma PlainReads(line: Line)
    requires Written(line) && line.Plain?
    ensures ReadsAs(LineText(line), line)
  {
    BlankHasNoComma(line.blanks);
    CutRemark(line.blanks, line.remark);
    WordsAfterGap(line.blanks, "");
    assert line.blanks + "" == line.blanks;
  }

  lemma RowReads(line: Line)
    requires Written(line) && line.Row?
    ensures ReadsAs(LineText(line), line)
  {
    RowWords(line);
    ColumnsRead(line.tokens, line.b);
    var e := FieldsRead(Columns(line.tokens, line.b), line.tokens, line.b);
    EntryReads(LineText(line), line, e);
  }

  lemma ColumnsRead(tokens: seq<Token>, b: Binding)
    requires tokens != [] && Tight(tokens) && ListText(tokens) != "" && ValidNames(b) && HashFree(b) && b.slot <= 1
    ensures |Columns(tokens, b)| >= 3 && Columns(tokens, b)[..3] == [ListText(tokens), b.tenant, b.site]
    ensures ParseExtras(Columns(tokens, b)[3..]) == Ok(Extras(b.slot, b.cert, b.policy))
  {
    ColumnsAre(tokens, b);
    ExtraBack(b);
  }

  lemma EntryReads(text: string, line: Line, e: Entry)
    requires line.Row?
    requires AllUsable(line.tokens) ==> e.binding == line.b && forall p :: p in e.ports <==> Names(line.tokens, p)
    requires ParseLine(text) == if AllUsable(line.tokens) then Ok(Some(e)) else Err
    ensures ReadsAs(text, line)
  {}

  /** A row reads as exactly the ports of its list with its binding, or as an error if some item
      of the list is not usable; any other line as nothing. */
  lemma LineReads(line: Line)
    requires Written(line)
    ensures ReadsAs(LineText(line), line)
  {
    if line.Row? {
      RowReads(line);
    } else {
      PlainReads(line);
    }
  }

  lemma FieldsRead(fields: seq<string>, tokens: seq<Token>, b: Binding) returns (e: Entry)
    requires tokens != [] && Tight(tokens) && b.slot <= 1
    requires |fields| >= 3 && fields[..3] == [ListText(tokens), b.tenant, b.site]
    requires ParseExtras(fields[3..]) == Ok(Extras(b.slot, b.cert, b.policy))
    ensures ParseFields(fields) == if AllUsable(tokens) then Ok(Some(e)) else Err
    ensures AllUsable(tokens) ==> e.binding == b && forall p :: p in e.ports <==> Names(tokens, p)
  {
    assert fields[0] == fields[..3][0] && fields[1] == fields[..3][1] && fields[2] == fields[..3][2];
    ListReads(tokens);
    var ports := ParsePortList(fields[0]);
    e := Entry(if ports.Ok? then ports.value else [], b);
  }

  // ---- The file ---------------------------------------------------------------------

  lemma {:induction false} LaidOneLine(gaps: seq<string>, ws: seq<string>)
    requires |gaps| == |ws| && forall i | 0 <= i < |ws| :: OneLine(gaps[i]) && OneLine(ws[i])
    ensures OneLine(Laid(gaps, ws))
  {
    LaidLacks(gaps, ws, '\n');
    LaidLacks(gaps, ws, '\r');
  }

  lemma WordIsOneLine(w: string)
    requires NoSpace(w)
    ensures OneLine(w)
  {
    SpacesNamed('\n');
    SpacesNamed('\r');
  }

  lemma TextOnOneLine(line: Line)
    requires Written(line)
    ensures OneLine(LineText(line))
  {
    if line.Row? {
      var fields := Columns(line.tokens, line.b);
      ColumnsAre(line.tokens, line.b);
      forall i | 0 <= i < |fields|
        ensures OneLine(fields[i])
      {
        WordIsOneLine(fields[i]);
      }
      LaidOneLine(line.gaps, fields);
    }
  }

  function Texts(lines: seq<Line>): (r: seq<string>)
    requires forall i | 0 <= i < |lines| :: Written(lines[i])
    ensures |r| == |lines| && forall i | 0 <= i < |lines| :: r[i] == LineText(lines[i])
    decreases |lines|
  {
    if lines == [] then [] else [LineText(lines[0])] + Texts(lines[1..])
  }

  lemma {:induction false} LinesOfText(lines: seq<Line>, ends: seq<string>)
    requires AllWritten(lines, ends)
    ensures Lines(FileText(lines, ends)) == Texts(lines)
    decreases |lines|
  {
    if lines != [] {
      TextOnOneLine(lines[0]);
      LinesEitherEnd(LineText(lines[0]), ends[0], FileText(lines[1..], ends[1..]));
      LinesOfText(lines[1..], ends[1..]);
    }
  }

  lemma SaysIff(lines: seq<Line>, d: Desired)
    requires forall i | 0 <= i < |lines| :: Written(lines[i])
    ensures FileSays(Texts(lines), d) <==> Means(lines, d)
  {
    forall i | 0 <= i < |lines|
      ensures ReadsAs(Texts(lines)[i], lines[i])
    {
      LineReads(lines[i]);
    }
    if FileSays(Texts(lines), d) {
      SaidIsMeant(lines, d);
    }
    if Means(lines, d) {
      MeantIsSaid(lines, d);
    }
  }

  /** Line by line, the text gives what the rows bind. */
  ghost predicate Alike(lines: seq<Line>, texts: seq<string>) {
    |texts| == |lines| && forall i | 0 <= i < |lines| :: ReadsAs(texts[i], lines[i])
  }

  lemma SaidIsMeant(lines: seq<Line>, d: Desired)
    requires forall i | 0 <= i < |lines| :: Written(lines[i])
    requires Alike(lines, Texts(lines)) && FileSays(Texts(lines), d)
    ensures Means(lines, d)
  {
    var texts := Texts(lines);
    forall i | 0 <= i < |lines|
      ensures lines[i].Row? ==> AllUsable(lines[i].tokens)
    {
      assert LineSays(texts[i], d) && ReadsAs(texts[i], lines[i]);
    }
    forall p, b | BoundIn(lines, p, b)
      ensures p in d && d[p] == b
    {
      BoundIsSaid(lines, texts, d, p, b);
    }
    forall p | p in d
      ensures BoundIn(lines, p, d[p])
    {
      SaidIsBound(lines, texts, p, d[p]);
    }
  }

  lemma BoundIsSaid(lines: seq<Line>, texts: seq<string>, d: Desired, p: Port, b: Binding)
    requires Alike(lines, texts) && FileSays(texts, d) && BoundIn(lines, p, b)
    ensures p in d && d[p] == b
  {
    var i :| 0 <= i < |lines| && Binds(lines[i], p, b);
    assert LineSays(texts[i], d) && ReadsAs(texts[i], lines[i]);
  }

  lemma SaidIsBound(lines: seq<Line>, texts: seq<string>, p: Port, b: Binding)
    requires Alike(lines, texts) && GivenBy(texts, p, b)
    ensures BoundIn(lines, p, b)
  {
    var i :| 0 <= i < |texts| && Gives(texts[i], p, b);
    assert ReadsAs(texts[i], lines[i]);
  }

  lemma MeantIsSaid(lines: seq<Line>, d: Desired)
    requires forall i | 0 <= i < |lines| :: Written(lines[i])
    requires Alike(lines, Texts(lines)) && Means(lines, d)
    ensures FileSays(Texts(lines), d)
  {
    var texts := Texts(lines);
    forall i | 0 <= i < |texts|
      ensures LineSays(texts[i], d)
    {
      LineIsSaid(lines, texts, d, i);
    }
    forall p | p in d
      ensures GivenBy(texts, p, d[p])
    {
      BoundIsGiven(lines, texts, p, d[p]);
    }
  }

  lemma LineIsSaid(lines: seq<Line>, texts: seq<string>, d: Desired, i: nat)
    requires i < |lines| && Alike(lines, texts) && Means(lines, d)
    ensures LineSays(texts[i], d)
  {
    assert ReadsAs(texts[i], lines[i]);
    forall p, b | Gives(texts[i], p, b)
      ensures p in d && d[p] == b
    {
      assert Binds(lines[i], p, b) && BoundIn(lines, p, b);
    }
  }

  lemma BoundIsGiven(lines: seq<Line>, texts: seq<string>, p: Port, b: Binding)
    requires Alike(lines, texts) && BoundIn(lines, p, b)
    requires forall i | 0 <= i < |lines| :: lines[i].Row? ==> AllUsable(lines[i].tokens)
    ensures GivenBy(texts, p, b)
  {
    var i :| 0 <= i < |lines| && Binds(lines[i], p, b);
    assert ReadsAs(texts[i], lines[i]);
    assert Gives(texts[i], p, b);
  }

  /** A file of such lines loads as `d` exactly when its rows mean `d` and the policy admits it. */
  lemma WrittenFileLoads(lines: seq<Line>, ends: seq<string>, policy: Policy, d: Desired)
    requires AllWritten(lines, ends)
    ensures Load(FileText(lines, ends), policy) == Ok(d) <==> Means(lines, d) && Admissible(d, policy)
  {
    LinesOfText(lines, ends);
    LoadIff(FileText(lines, ends), policy, d);
    SaysIff(lines, d);
  }

  /** The lines of the documentation: single blanks, no remark. */
  function RowText(tokens: seq<Token>, b: Binding): string
    requires tokens != []
  {
    ListText(tokens) + " " + b.tenant + " " + b.site + ExtraText(b) + "\n"
  }

  function ExtraText(b: Binding): string {
    TlsText(b) + (CertText(b) + PolicyText(b))
  }

  function TlsText(b: Binding): string {
    if b.slot == 1 then " tls" else ""
  }

  function CertText(b: Binding): string {
    if b.cert.Some? then " cert=" + b.cert.value else ""
  }

  function PolicyText(b: Binding): string {
    if b.policy.Some? then " policy=" + b.policy.value else ""
  }

  /** One row for any list: exactly the ports of the list, each with the binding, if the
      policy admits that, else nothing. */
  lemma RowLoads(tokens: seq<Token>, b: Binding, policy: Policy, d: Desired)
    requires tokens != [] && Tight(tokens) && ListText(tokens) != "" && AllUsable(tokens)
    requires b.slot <= 1 && ValidNames(b) && HashFree(b)
    requires d.Keys == (set p: Port | Names(tokens, p)) && forall p | p in d :: d[p] == b
    ensures Load(RowText(tokens, b), policy) == if Admissible(d, policy) then Ok(d) else Err
  {
    var line := RowIsWritten(tokens, b);
    RowMeans(line, d);
    OnlyLoads([line], ["\n"], policy, d);
  }

  lemma SingleBlanks(n: nat) returns (gaps: seq<string>)
    requires n > 0
    ensures |gaps| == n && gaps[0] == "" && forall i | 0 < i < n :: gaps[i] == " "
    ensures Gaps(gaps) && forall i | 0 <= i < n :: OneLine(gaps[i])
  {
    gaps := [""] + seq(n - 1, i requires 0 <= i < n - 1 => " ");
    SpacesNamed(' ');
  }

  lemma RowIsWritten(tokens: seq<Token>, b: Binding) returns (line: Line)
    requires tokens != [] && Tight(tokens) && ListText(tokens) != ""
    requires b.slot <= 1 && ValidNames(b) && HashFree(b)
    ensures line.Row? && line.tokens == tokens && line.b == b
    ensures AllWritten([line], ["\n"]) && FileText([line], ["\n"]) == RowText(tokens, b)
  {
    var gaps := SingleBlanks(|Columns(tokens, b)|);
    line := Row(tokens, b, gaps, "", None);
    RowIsLaid(tokens, b, gaps);
    OneLineText(line);
  }

  lemma OneLineText(line: Line)
    requires Written(line)
    ensures AllWritten([line], ["\n"]) && FileText([line], ["\n"]) == LineText(line) + "\n"
  {
    assert FileText([line][1..], ["\n"][1..]) == "";
    assert LineText(line) + "\n" + "" == LineText(line) + "\n";
  }

  lemma OnlyLoads(lines: seq<Line>, ends: seq<string>, policy: Policy, d: Desired)
    requires AllWritten(lines, ends) && Means(lines, d)
    ensures Load(FileText(lines, ends), policy) == if Admissible(d, policy) then Ok(d) else Err
  {
    var text := FileText(lines, ends);
    WrittenFileLoads(lines, ends, policy, d);
    if Load(text, policy).Ok? {
      WrittenFileLoads(lines, ends, policy, Load(text, policy).value);
      MeansIsOne(lines, d, Load(text, policy).value);
    }
  }

  lemma MeansIsOne(lines: seq<Line>, d: Desired, e: Desired)
    requires Means(lines, d) && Means(lines, e)
    ensures d == e
  {
    forall p
      ensures p in d <==> p in e
      ensures p in d ==> d[p] == e[p]
    {
      assert p in d ==> BoundIn(lines, p, d[p]);
      assert p in e ==> BoundIn(lines, p, e[p]);
    }
  }

  lemma RowMeans(line: Line, d: Desired)
    requires line.Row? && AllUsable(line.tokens)
    requires d.Keys == (set p: Port | Names(line.tokens, p)) && forall p | p in d :: d[p] == line.b
    ensures Means([line], d)
  {
    forall p | p in d
      ensures BoundIn([line], p, d[p])
    {
      assert Binds([line][0], p, d[p]);
    }
  }

  lemma RowIsLaid(tokens: seq<Token>, b: Binding, gaps: seq<string>)
    requires tokens != [] && |gaps| == |Columns(tokens, b)| && gaps[0] == ""
    requires forall i | 0 < i < |gaps| :: gaps[i] == " "
    ensures Laid(gaps, Columns(tokens, b)) + "" + "" + "\n" == RowText(tokens, b)
  {
    LaidIsJoin(gaps, Columns(tokens, b));
    JoinNamed(ListText(tokens), b.tenant, b.site, ExtraColumns(b));
    SpacedExtra(b);
    var line := Laid(gaps, Columns(tokens, b));
    assert line + "" + "" == line;
  }

  lemma JoinNamed(a: string, b: string, c: string, rest: seq<string>)
    ensures Join([a, b, c] + rest) == a + " " + b + " " + c + Spaced(rest)
  {
    assert ([a, b, c] + rest)[1..] == [b, c] + rest;
    SpacedFirst(b, [c] + rest);
    SpacedFirst(c, rest);
    assert [b, c] + rest == [b] + ([c] + rest);
    Flat(a, b, c, Spaced(rest));
  }

  lemma SpacedFirst(w: string, rest: seq<string>)
    ensures Spaced([w] + rest) == " " + w + Spaced(rest)
  {
    assert ([w] + rest)[1..] == rest;
  }

  lemma Flat(a: string, b: string, c: string, d: string)
    ensures a + (" " + b + (" " + c + d)) == a + " " + b + " " + c + d
  {}

  lemma SpacedExtra(b: Binding)
    ensures Spaced(ExtraColumns(b)) == ExtraText(b)
  {
    var tls := if b.slot == 1 then ["tls"] else [];
    var cert := if b.cert.Some? then ["cert=" + b.cert.value] else [];
    var policy := if b.policy.Some? then ["policy=" + b.policy.value] else [];
    AtMostOne(tls, cert + policy);
    AtMostOne(cert, policy);
    AtMostOne(policy, []);
    assert policy + [] == policy && PolicyText(b) + "" == PolicyText(b);
    TextsOfOne(b);
  }

  lemma TextsOfOne(b: Binding)
    ensures b.slot == 1 ==> " " + "tls" == TlsText(b)
    ensures b.cert.Some? ==> " " + ("cert=" + b.cert.value) == CertText(b)
    ensures b.policy.Some? ==> " " + ("policy=" + b.policy.value) == PolicyText(b)
  {}

  lemma AtMostOne(a: seq<string>, b: seq<string>)
    requires |a| <= 1
    ensures Spaced(a + b) == (if a == [] then "" else " " + a[0]) + Spaced(b)
  {
    if a == [] {
      assert a + b == b && "" + Spaced(b) == Spaced(b);
    } else {
      assert a + b == [a[0]] + b;
      SpacedFirst(a[0], b);
    }
  }

  lemma {:induction false} LaidIsJoin(gaps: seq<string>, ws: seq<string>)
    requires |gaps| == |ws| > 0 && gaps[0] == "" && forall i | 0 < i < |gaps| :: gaps[i] == " "
    ensures Laid(gaps, ws) == Join(ws)
  {
    LaidIsSpaced(gaps[1..], ws[1..]);
  }

  lemma {:induction false} LaidIsSpaced(gaps: seq<string>, ws: seq<string>)
    requires |gaps| == |ws| && forall i | 0 <= i < |gaps| :: gaps[i] == " "
    ensures Laid(gaps, ws) == Spaced(ws)
    decreases |ws|
  {
    if ws != [] {
      LaidIsSpaced(gaps[1..], ws[1..]);
    }
  }

  /** A row for a range binds every port of it. */
  lemma RangeRow(first: Port, last: Port, b: Binding, policy: Policy, d: Desired)
    requires 0 < first <= last && b.slot <= 1 && ValidNames(b) && HashFree(b)
    requires (forall p: Port :: p in d <==> first <= p <= last) && forall p | p in d :: d[p] == b
    ensures
      Load(Decimal(first) + "-" + Decimal(last) + " " + b.tenant + " " + b.site + ExtraText(b) + "\n", policy) ==
        if Admissible(d, policy) then Ok(d) else Err
  {
    var token := Token("", Span(first, "", "", last), "");
    RangeText(first, last);
    RangeNames(token, d);
    RowLoads([token], b, policy, d);
  }

  lemma RangeText(first: Port, last: Port)
    ensures
      var tokens := [Token("", Span(first, "", "", last), "")];
      Tight(tokens) && ListText(tokens) == Decimal(first) + "-" + Decimal(last)
  {
    var spec := Decimal(first) + "-" + Decimal(last);
    assert Decimal(first) + "" + "-" + "" + Decimal(last) == spec;
    assert "" + spec + "" == spec;
  }

  lemma RangeNames(token: Token, d: Desired)
    requires token.item.Span? && forall p: Port :: p in d <==> token.item.first <= p <= token.item.last
    ensures d.Keys == (set p: Port | Names([token], p))
  {
    forall p: Port
      ensures Names([token], p) <==> p in d
    {
      assert [token][0].item.Has(p) <==> p in d;
    }
  }

  // ---- What is written --------------------------------------------------------------

  /** The rows for these ports, one after the other. */
  function RowsText(desired: Desired, ports: seq<Port>): string
    requires forall p | p in ports :: p in desired
    decreases |ports|
  {
    if ports == [] then ""
    else
      var p := ports[0];
      Decimal(p) + " " + desired[p].tenant + " " + desired[p].site + ExtraText(desired[p])
      + "\n" + RowsText(desired, ports[1..])
  }

  function ColumnNames(): string {
    "#" + " " + "PORT" + " " + "TENANT" + " " + "SITE" + " " + "[tls]" + " " + "[cert=ID]" + " " + "[policy=ID]"
  }

  /** What the writer writes, letter by letter: two comment lines and a row for each port, in
      ascending order. */
  lemma PrintedIs(desired: Desired)
    ensures
      Print(desired) ==
        "# desired open_ports" + "\n" + ColumnNames() + "\n" + RowsText(desired, Sorted(desired.Keys))
  {
    TitleIs();
    ColumnsRowIs();
    HeaderThenLines(HEADER, BindingLines(desired, Sorted(desired.Keys)));
    UnlinesRows(desired, Sorted(desired.Keys));
  }

  lemma TitleIs()
    ensures HEADER[0] == "# desired open_ports"
  {
    JoinThree("#", "desired", "open_ports");
  }

  lemma JoinThree(a: string, b: string, c: string)
    ensures Join([a, b, c]) == a + " " + b + " " + c
  {
    JoinNamed(a, b, c, []);
    assert [a, b, c] + [] == [a, b, c];
  }

  lemma ColumnsRowIs()
    ensures HEADER[1] == ColumnNames()
  {
    JoinNamed("#", "PORT", "TENANT", ["SITE", "[tls]", "[cert=ID]", "[policy=ID]"]);
    assert COLUMNS == ["#", "PORT", "TENANT"] + ["SITE", "[tls]", "[cert=ID]", "[policy=ID]"];
    SpacedFour("SITE", "[tls]", "[cert=ID]", "[policy=ID]");
    FlatFour("#" + " " + "PORT" + " " + "TENANT", "SITE", "[tls]", "[cert=ID]", "[policy=ID]");
  }

  lemma FlatFour(s: string, a: string, b: string, c: string, d: string)
    ensures
      s + (" " + a + (" " + b + (" " + c + (" " + d)))) == s + " " + a + " " + b + " " + c + " " + d
  {}

  lemma SpacedFour(a: string, b: string, c: string, d: string)
    ensures Spaced([a, b, c, d]) == " " + a + (" " + b + (" " + c + (" " + d)))
  {
    assert [a, b, c, d] == [a] + [b, c, d] && [b, c, d] == [b] + [c, d];
    assert [c, d] == [c] + [d] && [d] == [d] + [];
    SpacedFirst(a, [b, c, d]);
    SpacedFirst(b, [c, d]);
    SpacedFirst(c, [d]);
    SpacedFirst(d, []);
    assert " " + d + "" == " " + d;
  }

  lemma HeaderThenLines(header: seq<string>, lines: seq<string>)
    requires |header| == 2
    ensures Unlines(header + lines) == header[0] + "\n" + header[1] + "\n" + Unlines(lines)
  {
    var rest := Unlines(lines);
    assert header[0] + "\n" + (header[1] + "\n" + rest) == header[0] + "\n" + header[1] + "\n" + rest;
    assert (header + lines)[1..] == [header[1]] + lines && ([header[1]] + lines)[1..] == lines;
  }

  lemma RowIs(port: Port, b: Binding)
    ensures PrintLine(port, b) == Decimal(port) + " " + b.tenant + " " + b.site + ExtraText(b)
  {
    ExtraColumnsAre(b);
    SpacedExtra(b);
    JoinNamed(Decimal(port), b.tenant, b.site, ExtraColumns(b));
    assert Fields(port, b) == [Decimal(port), b.tenant, b.site] + ExtraColumns(b);
  }

  lemma {:induction false} UnlinesRows(desired: Desired, ports: seq<Port>)
    requires forall p | p in ports :: p in desired
    ensures Unlines(BindingLines(desired, ports)) == RowsText(desired, ports)
    decreases |ports|
  {
    if ports != [] {
      RowIs(ports[0], desired[ports[0]]);
      assert BindingLines(desired, ports)[1..] == BindingLines(desired, ports[1..]);
      UnlinesRows(desired, ports[1..]);
    }
  }
}
