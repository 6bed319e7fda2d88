/** Port numbers, port lists in text, and the port generators. */
module Ports {
  import opened Prelude
  import opened Text

  const PORT_LIMIT := 0x10000
  const MAX_ENTRIES := 131072

  type Port = p: int | 0 <= p < PORT_LIMIT

  // ---- Ascending lists --------------------------------------------------------------

  /** The ports of `s` below `limit`, in increasing order: the order a `BTreeMap` or a
      sorted vector gives. */
  function Below(s: set<Port>, limit: nat): (ports: seq<Port>)
    requires limit <= PORT_LIMIT
    ensures forall p :: p in ports <==> p in s && p < limit
    ensures forall i, j | 0 <= i < j < |ports| :: ports[i] < ports[j]
  {
    if limit == 0 then []
    else
      var rest := Below(s, limit - 1);
      assert forall i | 0 <= i < |rest| :: rest[i] in rest;
      rest + if limit - 1 in s then [limit - 1] else []
  }

  function Sorted(s: set<Port>): (ports: seq<Port>)
    ensures forall p :: p in ports <==> p in s
    ensures forall i, j | 0 <= i < j < |ports| :: ports[i] < ports[j]
  {
    Below(s, PORT_LIMIT)
  }

  predicate Increasing(ports: seq<Port>) {
    forall i, j | 0 <= i < j < |ports| :: ports[i] < ports[j]
  }

  function Elements(ports: seq<Port>): set<Port> {
    set p | p in ports
  }

  lemma {:induction false} SizeOfDistinct(ports: seq<Port>)
    requires forall i, j | 0 <= i < j < |ports| :: ports[i] != ports[j]
    ensures |Elements(ports)| == |ports|
    decreases |ports|
  {
    if ports != [] {
      var n := |ports| - 1;
      SizeOfDistinct(ports[..n]);
      assert Elements(ports) == Elements(ports[..n]) + {ports[n]};
      assert ports[n] !in Elements(ports[..n]);
    }
  }

  lemma SubsetSize<T>(a: set<T>, b: set<T>)
    requires a <= b
    ensures |a| <= |b|
  {
    assert b == a + (b - a);
  }

  /** A set of ports has at most 65536 elements, so `open_ports` never fills up. */
  lemma PortSetFits(s: set<Port>)
    ensures |s| <= PORT_LIMIT < MAX_ENTRIES
  {
    var all := seq(PORT_LIMIT, i requires 0 <= i < PORT_LIMIT => i as Port);
    SizeOfDistinct(all);
    forall p | p in s
      ensures p in Elements(all)
    {
      assert all[p] == p;
    }
    SubsetSize(s, Elements(all));
  }

  // ---- Text -------------------------------------------------------------------------

  /** 1 to 65535; zero is rejected. */
  function ParsePortNumber(raw: string): (r: Result<Port>)
    ensures r.Ok? ==> r.value != 0
  {
    match ParseNat(Trim(raw))
    case Err => Err
    case Ok(n) => if n == 0 || n >= PORT_LIMIT then Err else Ok(n)
  }

  lemma InInterval(first: Port, last: Port, ports: seq<Port>)
    requires first <= last && |ports| == last - first + 1
    requires forall i | 0 <= i < |ports| :: ports[i] == first + i
    ensures forall p :: p in ports <==> first <= p <= last
  {
    forall p: Port | first <= p <= last
      ensures p in ports
    {
      assert ports[p - first] == p;
    }
  }

  function Interval(first: Port, last: Port): (ports: seq<Port>)
    requires first <= last
    ensures Increasing(ports) && forall p :: p in ports <==> first <= p <= last
  {
    var ports := seq(last - first + 1, i requires 0 <= i <= last - first => (first + i) as Port);
    InInterval(first, last, ports);
    ports
  }

  /** The loop that expands START-END; it stops before stepping past the last port. */
  method ExpandRange(first: Port, last: Port) returns (out: seq<Port>)
    requires first <= last
    ensures out == Interval(first, last)
  {
    out := [];
    var p := first;
    while true
      invariant first <= p <= last
      invariant out == Interval(first, last)[..p - first]
      decreases last - p
    {
      out := out + [p];
      if p == last {
        break;
      }
      p := p + 1;
    }
  }

  function ParsePortRange(raw: string): (r: Result<seq<Port>>)
    ensures r.Ok? ==> 0 !in r.value && r.value != []
  {
    var s := Trim(raw);
    if '-' !in s then Err
    else
      var first, last := Before(s, '-'), s[IndexOf(s, '-') + 1..];
      if first == [] || last == [] || '-' in last then Err
      else
        match (ParsePortNumber(first), ParsePortNumber(last))
        case (Ok(a), Ok(b)) => if b < a then Err else Ok(Interval(a, b))
        case _ => Err
  }

  function ParsePortToken(raw: string): (r: Result<seq<Port>>)
    ensures r.Ok? ==> 0 !in r.value
  {
    var s := Trim(raw);
    if s == [] then Ok([])
    else if '-' in s then ParsePortRange(s)
    else
      match ParsePortNumber(s)
      case Err => Err
      case Ok(p) => Ok([p])
  }

  function ParseTokens(tokens: seq<string>): (r: Result<seq<Port>>)
    ensures r.Ok? ==> 0 !in r.value
    decreases |tokens|
  {
    if tokens == [] then Ok([])
    else
      match (ParsePortToken(tokens[0]), ParseTokens(tokens[1..]))
      case (Ok(a), Ok(b)) => Ok(a + b)
      case _ => Err
  }

  /** Comma-separated ports and ranges. Port 0 never comes out of it. */
  function ParsePortList(raw: string): (r: Result<seq<Port>>)
    ensures r.Ok? ==> 0 !in r.value
  {
    ParseTokens(Split(raw, ','))
  }

  lemma DigitsAreTame(s: string)
    requires AllDigits(s)
    ensures NoSpace(s) && '-' !in s && ',' !in s && '#' !in s && '+' !in s && '\n' !in s
  {}

  lemma ParseNatOfDecimal(n: nat)
    ensures ParseNat(Decimal(n)) == Ok(n)
  {
    DigitsAreTame(Decimal(n));
    ValueOfDecimal(n);
  }

  /** A printed port reads back as exactly that port, unless it is 0. */
  lemma PortListOfDecimal(p: Port)
    ensures ParsePortList(Decimal(p)) == if p == 0 then Err else Ok([p])
  {
    var s := Decimal(p);
    DigitsAreTame(s);
    ParseNatOfDecimal(p);
    TrimNoSpace(s);
    SplitNone(s, ',');
    assert ParsePortToken(s) == if p == 0 then Err else Ok([p]);
    assert ParseTokens([]) == Ok([]);
    assert [s][1..] == [];
    if p != 0 {
      assert [p] + [] == [p];
    }
  }

  lemma NumberOfDecimal(p: Port)
    ensures ParsePortNumber(Decimal(p)) == if p == 0 then Err else Ok(p)
  {
    DigitsAreTame(Decimal(p));
    TrimNoSpace(Decimal(p));
    ParseNatOfDecimal(p);
  }

  lemma RangeInParts(a: string, b: string)
    requires a != [] && b != [] && NoSpace(a) && NoSpace(b) && '-' !in a && '-' !in b
    ensures
      ParsePortRange(a + ['-'] + b) ==
        match (ParsePortNumber(a), ParsePortNumber(b))
        case (Ok(x), Ok(y)) => if y < x then Err else Ok(Interval(x, y))
        case _ => Err
  {
    var s := a + ['-'] + b;
    TrimNoSpace(s);
    IndexOfIs(s, '-', |a|);
    assert s[..|a|] == a && s[|a| + 1..] == b && s[|a|] == '-';
  }

  /** So does a printed range: every port of it, unless it is empty or starts at 0. */
  lemma RangeOfDecimals(first: Port, last: Port)
    ensures
      ParsePortRange(Decimal(first) + ['-'] + Decimal(last)) ==
        if first == 0 || last < first then Err else Ok(Interval(first, last))
  {
    DigitsAreTame(Decimal(first));
    DigitsAreTame(Decimal(last));
    NumberOfDecimal(first);
    NumberOfDecimal(last);
    RangeInParts(Decimal(first), Decimal(last));
  }

  /** A list is read token by token. */
  lemma ListInParts(token: string, rest: string)
    requires ',' !in token
    ensures
      ParsePortList(token + [','] + rest) ==
        match (ParsePortToken(token), ParsePortList(rest))
        case (Ok(a), Ok(b)) => Ok(a + b)
        case _ => Err
  {
    SplitFirst(token, ',', rest);
    var tokens := Split(token + [','] + rest, ',');
    assert tokens[1..] == Split(rest, ',');
  }

  // ---- Lists ------------------------------------------------------------------------

  /** First occurrences, in order. */
  function Firsts(ports: seq<Port>): (r: seq<Port>)
    ensures forall p :: p in r <==> p in ports
    ensures forall i, j | 0 <= i < j < |r| :: r[i] != r[j]
    decreases |ports|
  {
    if ports == [] then []
    else
      var n := |ports| - 1;
      var r := Firsts(ports[..n]);
      if ports[n] in ports[..n] then r else r + [ports[n]]
  }

  /** Each is kept where it was first seen: what follows adds only at the end. */
  lemma {:induction false} FirstsPrefix(ports: seq<Port>, k: nat)
    requires k <= |ports|
    ensures Firsts(ports[..k]) <= Firsts(ports)
    decreases |ports|
  {
    if k == |ports| {
      assert ports[..k] == ports;
    } else {
      var n := |ports| - 1;
      assert ports[..n][..k] == ports[..k];
      FirstsPrefix(ports[..n], k);
    }
  }

  method UniquePorts(ports: seq<Port>) returns (out: seq<Port>)
    ensures out == Firsts(ports)
  {
    out := [];
    var seen: set<Port> := {};
    for i := 0 to |ports|
      invariant out == Firsts(ports[..i]) && seen == Elements(ports[..i])
    {
      assert ports[..i + 1][..i] == ports[..i];
      if ports[i] !in seen {
        seen := seen + {ports[i]};
        out := out + [ports[i]];
      }
    }
    assert ports[..|ports|] == ports;
  }

  lemma FirstsNext(ports: seq<Port>, p: Port)
    ensures Firsts(ports + [p]) == if p in Firsts(ports) then Firsts(ports) else Firsts(ports) + [p]
  {
    assert (ports + [p])[..|ports|] == ports;
  }

  /** One port offered: kept unless it was kept before. `all` is everything offered so far. */
  method Push(seen: set<Port>, out: seq<Port>, port: Port, ghost all: seq<Port>)
    returns (seen': set<Port>, out': seq<Port>)
    requires out == Firsts(all) && seen == Elements(out)
    ensures out' == Firsts(all + [port]) && seen' == Elements(out')
  {
    FirstsNext(all, port);
    seen', out' := seen, out;
    if port !in seen {
      seen' := seen' + {port};
      out' := out' + [port];
    }
  }

  /** The ports of `b` that are also in `a`, in the order of `b`. */
  function Shared(a: seq<Port>, b: seq<Port>): seq<Port>
    decreases |b|
  {
    if b == [] then []
    else Shared(a, b[..|b| - 1]) + if b[|b| - 1] in a then [b[|b| - 1]] else []
  }

  lemma {:induction false} SharedIs(a: seq<Port>, b: seq<Port>, p: Port)
    ensures p in Shared(a, b) <==> p in a && p in b
    decreases |b|
  {
    if b != [] {
      var n := |b| - 1;
      SharedIs(a, b[..n], p);
      assert p in b <==> p in b[..n] || p == b[n];
    }
  }

  lemma {:induction false} SharedInOrder(a: seq<Port>, b: seq<Port>, c: seq<Port>)
    ensures Shared(a, b + c) == Shared(a, b) + Shared(a, c)
    decreases |c|
  {
    if c == [] {
      assert b + c == b;
    } else {
      assert (b + c)[..|b + c| - 1] == b + c[..|c| - 1];
      SharedInOrder(a, b, c[..|c| - 1]);
    }
  }

  lemma {:induction false} NothingShared(a: seq<Port>, b: seq<Port>)
    requires a == [] || b == []
    ensures Shared(a, b) == []
    decreases |b|
  {
    if b != [] {
      NothingShared(a, b[..|b| - 1]);
    }
  }

  lemma SharedNext(a: seq<Port>, b: seq<Port>, i: nat)
    requires i < |b|
    ensures Shared(a, b[..i + 1]) == if b[i] in a then Shared(a, b[..i]) + [b[i]] else Shared(a, b[..i])
  {
    assert b[..i + 1][..i] == b[..i];
  }

  /** The ports of `b` that are also in `a`, each once, in the order of `b`. */
  method PortSetOverlap(a: seq<Port>, b: seq<Port>) returns (out: seq<Port>)
    ensures out == Firsts(Shared(a, b))
    ensures forall p :: p in out <==> p in a && p in b
  {
    forall p
      ensures p in Shared(a, b) <==> p in a && p in b
    {
      SharedIs(a, b, p);
    }
    if a == [] || b == [] {
      NothingShared(a, b);
      return [];
    }
    out := CollectShared(a, b);
  }

  method CollectShared(a: seq<Port>, b: seq<Port>) returns (out: seq<Port>)
    ensures out == Firsts(Shared(a, b))
  {
    out := [];
    var seen := Elements(a);
    var dup: set<Port> := {};
    for i := 0 to |b|
      invariant out == Firsts(Shared(a, b[..i])) && dup == Elements(out)
    {
      SharedNext(a, b, i);
      if b[i] in seen {
        dup, out := Push(dup, out, b[i], Shared(a, b[..i]));
      }
    }
    assert b[..|b|] == b;
  }

  // ---- Fill generation --------------------------------------------------------------

  /** Every port from `start` on that is not skipped. */
  function Available(start: Port, skip: set<Port>): set<Port> {
    set p: Port | start <= p < PORT_LIMIT && p !in skip
  }

  /** Exactly the `count` smallest available ports, in increasing order; an error exactly
      when an argument is out of range or too few ports are available. */
  method GenerateFillPorts(start: Port, count: nat, skip: set<Port>) returns (r: Result<seq<Port>>)
    ensures r.Ok? <==> 0 < count <= MAX_ENTRIES && start > 0 && count <= |Available(start, skip)|
    ensures r.Ok? ==>
      && |r.value| == count && Increasing(r.value)
      && (forall p | p in r.value :: p in Available(start, skip))
      && (forall p | p in Available(start, skip) && p !in r.value :: forall q | q in r.value :: q < p)
  {
    if count == 0 || count > MAX_ENTRIES || start == 0 {
      return Err;
    }
    var out: seq<Port> := [];
    var p := start;
    while true
      invariant start <= p && |out| < count && Collected(start, skip, p, out)
      decreases PORT_LIMIT - p
    {
      CollectNext(start, skip, p, out);
      if p !in skip {
        out := out + [p];
        if |out| == count {
          Smallest(start, skip, p as int + 1, out);
          return Ok(out);
        }
      }
      if p == PORT_LIMIT - 1 {
        break;
      }
      p := p + 1;
    }
    SizeOfDistinct(out);
    assert Elements(out) == Available(start, skip);
    return Err;
  }

  /** `out` holds the available ports below `limit`, in increasing order. */
  ghost predicate Collected(start: Port, skip: set<Port>, limit: nat, out: seq<Port>) {
    Increasing(out) && forall q :: q in out <==> q in Available(start, skip) && q < limit
  }

  lemma CollectNext(start: Port, skip: set<Port>, p: Port, out: seq<Port>)
    requires start <= p && Collected(start, skip, p, out)
    ensures Collected(start, skip, p + 1, if p in skip then out else out + [p])
  {
    assert forall i | 0 <= i < |out| :: out[i] in out;
  }

  lemma Smallest(start: Port, skip: set<Port>, limit: nat, out: seq<Port>)
    requires Collected(start, skip, limit, out)
    ensures |out| <= |Available(start, skip)|
    ensures forall p | p in Available(start, skip) && p !in out :: forall q | q in out :: q < p
  {
    SizeOfDistinct(out);
    SubsetSize(Elements(out), Available(start, skip));
  }
}
