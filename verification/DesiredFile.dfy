/** `ports.conf`: how it is read into the desired state and how it is written. */
module DesiredFile {
  import opened Prelude
  import opened Text
  import opened Ports
  import opened PortPolicy

  // ---- Reading ----------------------------------------------------------------------

  datatype Extras = Extras(slot: Slot, cert: Option<string>, policy: Option<string>)

  const NO_EXTRAS := Extras(REDIR_PRIMARY, None, None)

  function AddToken(e: Extras, token: string): (r: Result<Extras>)
    ensures e.slot <= REDIR_TLS && r.Ok? ==> r.value.slot <= REDIR_TLS
  {
    if token == "tls" && e.slot == REDIR_PRIMARY then Ok(e.(slot := REDIR_TLS))
    else if "cert=" <= token && e.cert.None? then Ok(e.(cert := Some(token[5..])))
    else if "policy=" <= token && e.policy.None? then Ok(e.(policy := Some(token[7..])))
    else Err
  }

  function ParseExtras(tokens: seq<string>): Result<Extras> {
    Fold(AddToken, NO_EXTRAS, tokens)
  }

  datatype Entry = Entry(ports: seq<Port>, binding: Binding)

  /** One line: nothing when it is blank or a comment, else the ports it names and the
      binding they share. */
  function ParseLine(raw: string): Result<Option<Entry>> {
    ParseFields(Words(Before(raw, '#')))
  }

  function ParseFields(fields: seq<string>): Result<Option<Entry>> {
    if fields == [] then Ok(None)
    else if |fields| < 3 then Err
    else
      match (ParseExtras(fields[3..]), ParsePortList(fields[0]))
      case (Ok(e), Ok(ports)) => Ok(Some(Entry(ports, Binding(e.slot, fields[1], fields[2], e.cert, e.policy))))
      case _ => Err
  }

  function Put(acc: Desired, port: Port, b: Binding, policy: Policy): Result<Desired> {
    if BindingAllowed(port, b, policy) && (port in acc ==> acc[port] == b) then Ok(acc[port := b]) else Err
  }

  function PutStep(b: Binding, policy: Policy): (Desired, Port) -> Result<Desired> {
    (acc, port) => Put(acc, port, b, policy)
  }

  function PutAll(acc: Desired, ports: seq<Port>, b: Binding, policy: Policy): Result<Desired> {
    Fold(PutStep(b, policy), acc, ports)
  }

  function LoadLine(acc: Desired, raw: string, policy: Policy): Result<Desired> {
    match ParseLine(raw)
    case Err => Err
    case Ok(None) => Ok(acc)
    case Ok(Some(e)) => PutAll(acc, e.ports, e.binding, policy)
  }

  function LineStep(policy: Policy): (Desired, string) -> Result<Desired> {
    (acc, raw) => LoadLine(acc, raw, policy)
  }

  function LoadLines(lines: seq<string>, policy: Policy): Result<Desired> {
    Fold(LineStep(policy), map[], lines)
  }

  function Load(text: string, policy: Policy): (r: Result<Desired>)
    ensures r.Ok? ==> Admissible(r.value, policy)
  {
    match LoadLines(Lines(text), policy)
    case Err => Err
    case Ok(d) => if Admissible(d, policy) then Ok(d) else Err
  }

  method ReadExtras(tokens: seq<string>) returns (r: Result<Extras>)
    ensures r == ParseExtras(tokens)
  {
    var e := NO_EXTRAS;
    for i := 0 to |tokens|
      invariant Fold(AddToken, NO_EXTRAS, tokens[..i]) == Ok(e)
    {
      FoldNext(AddToken, NO_EXTRAS, tokens, i);
      var next := AddToken(e, tokens[i]);
      if next.Err? {
        FoldFails(AddToken, NO_EXTRAS, tokens, i + 1);
        return Err;
      }
      e := next.value;
    }
    assert tokens[..|tokens|] == tokens;
    return Ok(e);
  }

  method InsertPorts(acc: Desired, ports: seq<Port>, b: Binding, policy: Policy) returns (r: Result<Desired>)
    ensures r == PutAll(acc, ports, b, policy)
  {
    var desired := acc;
    for i := 0 to |ports|
      invariant Fold(PutStep(b, policy), acc, ports[..i]) == Ok(desired)
    {
      FoldNext(PutStep(b, policy), acc, ports, i);
      if !BindingAllowed(ports[i], b, policy) || (ports[i] in desired && desired[ports[i]] != b) {
        FoldFails(PutStep(b, policy), acc, ports, i + 1);
        return Err;
      }
      desired := desired[ports[i] := b];
    }
    assert ports[..|ports|] == ports;
    return Ok(desired);
  }

  method ReadLine(desired: Desired, raw: string, policy: Policy) returns (r: Result<Desired>)
    ensures r == LoadLine(desired, raw, policy)
  {
    var fields := Words(Before(raw, '#'));
    if fields == [] {
      return Ok(desired);
    }
    if |fields| < 3 {
      return Err;
    }
    var extras := ReadExtras(fields[3..]);
    if extras.Err? {
      return Err;
    }
    var e := extras.value;
    var ports := ParsePortList(fields[0]);
    if ports.Err? {
      return Err;
    }
    r := InsertPorts(desired, ports.value, Binding(e.slot, fields[1], fields[2], e.cert, e.policy), policy);
  }

  /** `load_from_reader_with_policy`. */
  method ReadDesired(text: string, policy: Policy) returns (r: Result<Desired>)
    ensures r == Load(text, policy)
  {
    var lines := Lines(text);
    var desired: Desired := map[];
    for i := 0 to |lines|
      invariant Fold(LineStep(policy), map[], lines[..i]) == Ok(desired)
    {
      FoldNext(LineStep(policy), map[], lines, i);
      var next := ReadLine(desired, lines[i], policy);
      if next.Err? {
        FoldFails(LineStep(policy), map[], lines, i + 1);
        return Err;
      }
      desired := next.value;
    }
    assert lines[..|lines|] == lines;
    PortSetFits(desired.Keys);
    if |desired| > MAX_ENTRIES {
      return Err;
    }
    var ok := Validate(desired, policy);
    return if ok then Ok(desired) else Err;
  }

  // ---- Writing ----------------------------------------------------------------------

  /** The two comment lines, word by word. */
  const TITLE := ["#", "desired", "open_ports"]
  const COLUMNS := ["#", "PORT", "TENANT", "SITE", "[tls]", "[cert=ID]", "[policy=ID]"]
  const HEADER := [Join(TITLE), Join(COLUMNS)]

  function AddCert(fields: seq<string>, b: Binding): seq<string> {
    if b.cert.Some? then fields + ["cert=" + b.cert.value] else fields
  }

  function AddPolicy(fields: seq<string>, b: Binding): seq<string> {
    if b.policy.Some? then fields + ["policy=" + b.policy.value] else fields
  }

  function AddTls(fields: seq<string>, b: Binding): seq<string> {
    if b.slot == REDIR_TLS then fields + ["tls"] else fields
  }

  /** The fields of a binding's line, in the order they are written. */
  function Fields(port: Port, b: Binding): (ws: seq<string>)
    ensures |ws| >= 3
  {
    AddPolicy(AddCert(AddTls([Decimal(port), b.tenant, b.site], b), b), b)
  }

  function PrintLine(port: Port, b: Binding): string {
    Join(Fields(port, b))
  }

  function BindingLines(desired: Desired, ports: seq<Port>): (lines: seq<string>)
    requires forall p | p in ports :: p in desired
    ensures |lines| == |ports|
    ensures forall i | 0 <= i < |ports| :: lines[i] == PrintLine(ports[i], desired[ports[i]])
  {
    seq(|ports|, i requires 0 <= i < |ports| => PrintLine(ports[i], desired[ports[i]]))
  }

  function FileLines(header: seq<string>, desired: Desired): seq<string> {
    header + BindingLines(desired, Sorted(desired.Keys))
  }

  function Unlines(lines: seq<string>): string
    decreases |lines|
  {
    if lines == [] then "" else lines[0] + ['\n'] + Unlines(lines[1..])
  }

  /** The whole file, bindings in port order. */
  function Print(desired: Desired): string {
    Unlines(FileLines(HEADER, desired))
  }

  lemma {:induction false} UnlinesAppend(lines: seq<string>, last: string)
    ensures Unlines(lines + [last]) == Unlines(lines) + last + ['\n']
    decreases |lines|
  {
    if lines == [] {
      assert [last][1..] == [];
    } else {
      assert (lines + [last])[1..] == lines[1..] + [last];
      UnlinesAppend(lines[1..], last);
    }
  }

  lemma {:induction false} SpacedAppend(ws: seq<string>, w: string)
    ensures Spaced(ws + [w]) == Spaced(ws) + ([' '] + w)
    decreases |ws|
  {
    if ws == [] {
      assert ws + [w] == [w] && [w][1..] == [];
    } else {
      assert (ws + [w])[0] == ws[0] && (ws + [w])[1..] == ws[1..] + [w];
      SpacedAppend(ws[1..], w);
    }
  }

  lemma JoinAppend(ws: seq<string>, w: string)
    requires ws != []
    ensures Join(ws + [w]) == Join(ws) + ([' '] + w)
  {
    SpacedAppend(ws[1..], w);
    assert (ws + [w])[0] == ws[0] && (ws + [w])[1..] == ws[1..] + [w];
  }

  method AddField(line: string, ghost ws: seq<string>, w: string) returns (out: string)
    requires ws != [] && line == Join(ws)
    ensures out == Join(ws + [w])
  {
    out := line + ([' '] + w);
    JoinAppend(ws, w);
  }

  /** The line a binding is written as, field by field. */
  method WriteLine(port: Port, b: Binding) returns (line: string)
    ensures line == PrintLine(port, b)
  {
    ghost var ws := [Decimal(port)];
    line := Decimal(port);
    line := AddField(line, ws, b.tenant);
    line := AddField(line, ws + [b.tenant], b.site);
    ws := [Decimal(port), b.tenant, b.site];
    assert [Decimal(port)] + [b.tenant] + [b.site] == ws;
    if b.slot == REDIR_TLS {
      line := AddField(line, ws, "tls");
    }
    ws := AddTls(ws, b);
    if b.cert.Some? {
      line := AddField(line, ws, "cert=" + b.cert.value);
    }
    ws := AddCert(ws, b);
    if b.policy.Some? {
      line := AddField(line, ws, "policy=" + b.policy.value);
    }
  }

  method AddLine(text: string, ghost before: seq<string>, port: Port, b: Binding) returns (out: string)
    requires text == Unlines(before)
    ensures out == Unlines(before + [PrintLine(port, b)])
  {
    var line := WriteLine(port, b);
    UnlinesAppend(before, line);
    out := text + line + ['\n'];
  }

  /** `desired::write`, up to the rename that publishes the text. */
  method WriteDesired(desired: Desired) returns (text: string)
    ensures text == Print(desired)
  {
    text := HEADER[0] + ['\n'] + HEADER[1] + ['\n'];
    TwoLines(HEADER);
    text := WriteBindings(HEADER, text, desired);
  }

  method WriteBindings(ghost header: seq<string>, start: string, desired: Desired) returns (text: string)
    requires start == Unlines(header)
    ensures text == Unlines(FileLines(header, desired))
  {
    var ports := Sorted(desired.Keys);
    ghost var lines := BindingLines(desired, ports);
    text := start;
    HeadEnds(header, lines);
    for i := 0 to |ports|
      invariant text == Unlines(Head(header, lines, i))
    {
      text := AddLine(text, Head(header, lines, i), ports[i], desired[ports[i]]);
      HeadNext(header, lines, i);
    }
  }

  /** The first lines of the file: the header and `n` bindings. */
  function Head(header: seq<string>, lines: seq<string>, n: nat): seq<string>
    requires n <= |lines|
  {
    header + lines[..n]
  }

  lemma HeadEnds(header: seq<string>, lines: seq<string>)
    ensures Head(header, lines, 0) == header && Head(header, lines, |lines|) == header + lines
  {}

  lemma HeadNext(header: seq<string>, lines: seq<string>, n: nat)
    requires n < |lines|
    ensures Head(header, lines, n + 1) == Head(header, lines, n) + [lines[n]]
  {}

  lemma TwoLines(lines: seq<string>)
    requires |lines| == 2
    ensures Unlines(lines) == lines[0] + ['\n'] + lines[1] + ['\n']
  {
    UnlinesAppend([lines[0]], lines[1]);
    UnlinesAppend([], lines[0]);
    assert [lines[0]] + [lines[1]] == lines;
    assert [] + [lines[0]] == [lines[0]];
  }
}
