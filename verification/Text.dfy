/** The string operations the control plane uses, on sequences of Unicode scalar values. */
module Text {
  import opened Prelude

  /** Unicode `White_Space`, which Rust's `char::is_whitespace` tests. */
  predicate IsSpace(c: char) {
    if c < '\U{80}' then c == ' ' || '\t' <= c <= '\r' else IsWideSpace(c as int)
  }

  predicate IsWideSpace(c: int) {
    || c == 0x85 || c == 0xA0 || c == 0x1680 || 0x2000 <= c <= 0x200A
    || c == 0x2028 || c == 0x2029 || c == 0x202F || c == 0x205F || c == 0x3000
  }

  predicate NoSpace(s: string) {
    forall i | 0 <= i < |s| :: !IsSpace(s[i])
  }

  /** Index of the first `c` in `s`, or the length of `s`. */
  function IndexOf(s: string, c: char): (i: nat)
    ensures i <= |s|
    ensures c !in s[..i]
    ensures i < |s| ==> s[i] == c
    ensures i < |s| <==> c in s
  {
    if s == [] || s[0] == c then 0 else 1 + IndexOf(s[1..], c)
  }

  lemma {:induction false} IndexOfIs(s: string, c: char, i: nat)
    requires i <= |s| && c !in s[..i] && (i < |s| ==> s[i] == c)
    ensures IndexOf(s, c) == i
    decreases |s|
  {
    if i > 0 {
      assert s[..i][0] == s[0] && s[1..][..i - 1] == s[..i][1..];
      IndexOfIs(s[1..], c, i - 1);
    }
  }

  function Before(s: string, c: char): string {
    s[..IndexOf(s, c)]
  }

  lemma BeforeSkips(a: string, b: string, c: char)
    requires c !in a
    ensures Before(a + b, c) == a + Before(b, c)
  {
    var j := IndexOf(b, c);
    assert (a + b)[..|a| + j] == a + b[..j];
    assert j < |b| ==> (a + b)[|a| + j] == b[j];
    IndexOfIs(a + b, c, |a| + j);
  }

  lemma BeforeStops(a: string, b: string, c: char)
    requires c in a
    ensures Before(a + b, c) == Before(a, c)
  {
    var j := IndexOf(a, c);
    assert (a + b)[..j] == a[..j] && (a + b)[j] == a[j];
    IndexOfIs(a + b, c, j);
  }

  /** `str::split` on one character: always at least one piece. */
  function Split(s: string, c: char): (pieces: seq<string>)
    ensures pieces != []
    decreases |s|
  {
    var i := IndexOf(s, c);
    if i == |s| then [s] else [s[..i]] + Split(s[i + 1..], c)
  }

  lemma {:induction false} SplitNone(s: string, c: char)
    requires c !in s
    ensures Split(s, c) == [s]
  {
    IndexOfIs(s, c, |s|);
  }

  /** The first separator splits off the first piece. */
  lemma {:induction false} SplitFirst(a: string, c: char, rest: string)
    requires c !in a
    ensures Split(a + [c] + rest, c) == [a] + Split(rest, c)
  {
    var s := a + [c] + rest;
    assert s[..|a|] == a && s[|a| + 1..] == rest;
    IndexOfIs(s, c, |a|);
  }

  /** Length of the leading run of spaces. */
  function Spaces(s: string): (n: nat)
    ensures n <= |s|
    ensures forall i | 0 <= i < n :: IsSpace(s[i])
    ensures n < |s| ==> !IsSpace(s[n])
  {
    if s == [] || !IsSpace(s[0]) then 0 else 1 + Spaces(s[1..])
  }

  /** Length of the leading run of non-spaces. */
  function Word(s: string): (n: nat)
    ensures n <= |s|
    ensures forall i | 0 <= i < n :: !IsSpace(s[i])
    ensures n < |s| ==> IsSpace(s[n])
  {
    if s == [] || IsSpace(s[0]) then 0 else 1 + Word(s[1..])
  }

  function TrimStart(s: string): string {
    s[Spaces(s)..]
  }

  function TrimEnd(s: string): string
    decreases |s|
  {
    if s == [] || !IsSpace(s[|s| - 1]) then s else TrimEnd(s[..|s| - 1])
  }

  function Trim(s: string): string {
    TrimEnd(TrimStart(s))
  }

  lemma TrimNoSpace(s: string)
    requires NoSpace(s)
    ensures Trim(s) == s
  {}

  /** `split_whitespace`: the maximal runs of non-spaces. Trimming first makes no
      difference, and a line is blank after trimming exactly when it has no words. */
  function Words(s: string): seq<string>
    decreases |s|
  {
    var t := TrimStart(s);
    if t == [] then [] else [t[..Word(t)]] + Words(t[Word(t)..])
  }

  predicate IsWord(w: string) {
    w != [] && NoSpace(w)
  }

  lemma {:induction false} WordIs(w: string, rest: string)
    requires NoSpace(w)
    requires rest == [] || IsSpace(rest[0])
    ensures Word(w + rest) == |w|
    decreases |w|
  {
    if w == [] {
      assert w + rest == rest;
    } else {
      assert (w + rest)[1..] == w[1..] + rest;
      WordIs(w[1..], rest);
    }
  }

  lemma {:induction false} WordsFirst(w: string, rest: string)
    requires IsWord(w)
    requires rest == [] || IsSpace(rest[0])
    ensures Words(w + rest) == [w] + Words(rest)
  {
    var s := w + rest;
    assert !IsSpace(s[0]);
    WordIs(w, rest);
    assert TrimStart(s) == s && s[..|w|] == w && s[|w|..] == rest;
  }

  lemma {:induction false} WordsSkip(rest: string)
    ensures Words([' '] + rest) == Words(rest)
  {
    var s := [' '] + rest;
    assert s[1..] == rest;
    assert TrimStart(s) == TrimStart(rest);
  }

  lemma SpaceFirst(w: string, rest: string)
    ensures [' '] + w + rest == [' '] + (w + rest)
  {}

  lemma WordAfterSpace(w: string, rest: string)
    requires IsWord(w)
    requires rest == [] || IsSpace(rest[0])
    ensures Words([' '] + w + rest) == [w] + Words(rest)
    ensures IsSpace(([' '] + w + rest)[0])
  {
    SpaceFirst(w, rest);
    WordsSkip(w + rest);
    WordsFirst(w, rest);
  }

  /** Words joined with single spaces. */
  function Join(ws: seq<string>): string
    decreases |ws|, 1
  {
    if ws == [] then "" else ws[0] + Spaced(ws[1..])
  }

  /** Words, each after a space. */
  function Spaced(ws: seq<string>): string
    decreases |ws|, 0
  {
    if ws == [] then "" else [' '] + ws[0] + Spaced(ws[1..])
  }

  predicate AllWords(ws: seq<string>) {
    forall i | 0 <= i < |ws| :: IsWord(ws[i])
  }

  lemma {:induction false} WordsSpaced(ws: seq<string>)
    requires AllWords(ws)
    ensures Words(Spaced(ws)) == ws
    ensures ws != [] ==> IsSpace(Spaced(ws)[0])
    decreases |ws|
  {
    if ws != [] {
      WordsSpaced(ws[1..]);
      WordAfterSpace(ws[0], Spaced(ws[1..]));
      Headed(ws);
    }
  }

  lemma Headed(ws: seq<string>)
    requires ws != []
    ensures [ws[0]] + ws[1..] == ws
  {}

  lemma WordsJoin(ws: seq<string>)
    requires AllWords(ws)
    ensures Words(Join(ws)) == ws
  {
    if ws != [] {
      WordsSpaced(ws[1..]);
      WordsFirst(ws[0], Spaced(ws[1..]));
    }
  }

  lemma {:induction false} CutSpaced(ws: seq<string>, k: nat, mark: char)
    requires k < |ws| && mark in ws[k] && mark != ' ' && forall i | 0 <= i < k :: mark !in ws[i]
    ensures Before(Spaced(ws), mark) == Spaced(ws[..k]) + [' '] + Before(ws[k], mark)
    decreases k
  {
    var rest := Spaced(ws[1..]);
    if k == 0 {
      BeforeStops(ws[0], rest, mark);
      BeforeSkips([' '], ws[0] + rest, mark);
      SpaceFirst(ws[0], rest);
      assert Spaced(ws[..0]) == "";
    } else {
      CutSpaced(ws[1..], k - 1, mark);
      BeforeSkips([' '] + ws[0], rest, mark);
      assert ws[..k][0] == ws[0] && ws[..k][1..] == ws[1..][..k - 1];
      Regroup([' '] + ws[0], Spaced(ws[1..][..k - 1]), [' '], Before(ws[k], mark));
    }
  }

  lemma Regroup(a: string, b: string, c: string, d: string)
    ensures a + (b + c + d) == (a + b) + c + d
  {}

  /** Cutting a joined line at the first `mark`, which is not in the first word, keeps the
      words before the one that holds the mark and the part of that word before it. */
  lemma WordsOfCutJoin(ws: seq<string>, k: nat, mark: char)
    requires AllWords(ws) && 0 < k < |ws| && mark != ' '
    requires mark in ws[k] && forall i | 0 <= i < k :: mark !in ws[i]
    ensures
      var cut := Before(ws[k], mark);
      Words(Before(Join(ws), mark)) == ws[..k] + (if cut == [] then [] else [cut])
  {
    var cut := Before(ws[k], mark);
    var kept := ws[1..][..k - 1];
    CutJoin(ws, k, mark);
    WordsOfSpaced(kept, cut);
    WordsFirst(ws[0], Spaced(kept) + [' '] + cut);
    Rejoin(ws, k, if cut == [] then [] else [cut]);
  }

  lemma CutJoin(ws: seq<string>, k: nat, mark: char)
    requires 0 < k < |ws| && mark != ' '
    requires mark in ws[k] && forall i | 0 <= i < k :: mark !in ws[i]
    ensures Before(Join(ws), mark) == ws[0] + (Spaced(ws[1..][..k - 1]) + [' '] + Before(ws[k], mark))
  {
    CutSpaced(ws[1..], k - 1, mark);
    BeforeSkips(ws[0], Spaced(ws[1..]), mark);
  }

  lemma Rejoin(ws: seq<string>, k: nat, end: seq<string>)
    requires 0 < k <= |ws|
    ensures [ws[0]] + (ws[1..][..k - 1] + end) == ws[..k] + end
    ensures k == |ws| ==> [ws[0]] + (ws[1..] + end) == ws + end
  {}

  lemma WordsOfLast(last: string)
    requires NoSpace(last)
    ensures Words([' '] + last) == if last == [] then [] else [last]
  {
    WordsSkip(last);
    if last != [] {
      WordsFirst(last, "");
      assert last + "" == last;
    }
  }

  lemma SpacedCons(ws: seq<string>, last: string)
    requires ws != []
    ensures Spaced(ws) + [' '] + last == [' '] + ws[0] + (Spaced(ws[1..]) + [' '] + last)
  {}

  lemma {:induction false} WordsOfSpaced(ws: seq<string>, last: string)
    requires AllWords(ws) && NoSpace(last)
    ensures IsSpace((Spaced(ws) + [' '] + last)[0])
    ensures Words(Spaced(ws) + [' '] + last) == ws + (if last == [] then [] else [last])
    decreases |ws|
  {
    var end := if last == [] then [] else [last];
    if ws == [] {
      WordsOfLast(last);
      assert Spaced(ws) + [' '] + last == [' '] + last;
      assert ws + end == end;
    } else {
      WordsOfSpaced(ws[1..], last);
      WordAfterSpace(ws[0], Spaced(ws[1..]) + [' '] + last);
      SpacedCons(ws, last);
      Rejoin(ws, |ws|, end);
    }
  }

  lemma {:induction false} SpacedLacks(ws: seq<string>, c: char)
    requires c != ' ' && forall i | 0 <= i < |ws| :: c !in ws[i]
    ensures c !in Spaced(ws)
    decreases |ws|
  {
    if ws != [] {
      SpacedLacks(ws[1..], c);
    }
  }

  lemma JoinLacks(ws: seq<string>, c: char)
    requires c != ' ' && forall i | 0 <= i < |ws| :: c !in ws[i]
    ensures c !in Join(ws)
  {
    if ws != [] {
      SpacedLacks(ws[1..], c);
    }
  }

  lemma BeforeLacks(s: string, c: char)
    requires c !in s
    ensures Before(s, c) == s
  {}

  // ---- Lines ------------------------------------------------------------------------

  function StripReturn(s: string): string {
    if s != [] && s[|s| - 1] == '\r' then s[..|s| - 1] else s
  }

  /** `BufRead::lines`: a final line without a newline counts, an empty rest does not. */
  function Lines(s: string): seq<string>
    decreases |s|
  {
    if s == [] then []
    else
      var i := IndexOf(s, '\n');
      if i == |s| then [s] else [StripReturn(s[..i])] + Lines(s[i + 1..])
  }

  lemma {:induction false} LinesFirst(line: string, rest: string)
    requires '\n' !in line && '\r' !in line
    ensures Lines(line + ['\n'] + rest) == [line] + Lines(rest)
  {
    var s := line + ['\n'] + rest;
    assert s[..|line|] == line && s[|line| + 1..] == rest;
    IndexOfIs(s, '\n', |line|);
  }

  // ---- Decimal numbers ---------------------------------------------------------------

  predicate IsDigit(c: char) {
    '0' <= c <= '9'
  }

  predicate AllDigits(s: string) {
    forall i | 0 <= i < |s| :: IsDigit(s[i])
  }

  function DigitValue(c: char): (d: nat)
    requires IsDigit(c)
    ensures d < 10
  {
    c as int - '0' as int
  }

  function Digit(d: nat): (c: char)
    requires d < 10
    ensures IsDigit(c) && DigitValue(c) == d
  {
    ('0' as int + d) as char
  }

  function Value(s: string): nat
    requires AllDigits(s)
  {
    if s == [] then 0 else 10 * Value(s[..|s| - 1]) + DigitValue(s[|s| - 1])
  }

  function Decimal(n: nat): (s: string)
    ensures s != [] && AllDigits(s)
    decreases n
  {
    if n < 10 then [Digit(n)] else Decimal(n / 10) + [Digit(n % 10)]
  }

  lemma {:induction false} ValueOfDecimal(n: nat)
    ensures Value(Decimal(n)) == n
    decreases n
  {
    var s := Decimal(n);
    if n >= 10 {
      ValueOfDecimal(n / 10);
      assert s[..|s| - 1] == Decimal(n / 10);
    } else {
      assert s[..|s| - 1] == [];
    }
  }

  /** `str::parse::<u64>`, up to the size check: an optional `+` and at least one digit. */
  function ParseNat(s: string): Result<nat> {
    var digits := if s != [] && s[0] == '+' then s[1..] else s;
    if digits != [] && AllDigits(digits) then Ok(Value(digits)) else Err
  }
}
