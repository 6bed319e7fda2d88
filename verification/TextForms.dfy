/** How text with blanks anywhere reads: words between gaps of any white space, trimmed fields,
    lines ended in either way. */
module TextForms {
  import opened Prelude
  import opened Text

  predicate Blank(s: string) {
    forall i | 0 <= i < |s| :: IsSpace(s[i])
  }

  /** The usual blanks are white space, and no visible ASCII character is; beyond ASCII, the
      blanks of Unicode are. */
  lemma SpacesNamed(c: char)
    ensures c in " \t\n\r" ==> IsSpace(c)
    ensures '!' <= c <= '~' ==> !IsSpace(c)
    ensures
      c in ['\U{85}', '\U{A0}', '\U{1680}', '\U{2028}', '\U{2029}', '\U{202F}', '\U{205F}', '\U{3000}'] ==>
        IsSpace(c)
    ensures '\U{2000}' <= c <= '\U{200A}' ==> IsSpace(c)
    ensures '\U{3001}' <= c ==> !IsSpace(c)
  {}

  /** Digits count ten each, and a plus sign in front is allowed. */
  lemma NumbersAreDecimal(s: string, c: char)
    requires AllDigits(s) && IsDigit(c)
    ensures Value("") == 0 && Value(s + [c]) == 10 * Value(s) + (c as int - '0' as int)
    ensures ParseNat(s + [c]) == ParseNat("+" + s + [c]) == Ok(Value(s + [c]))
    ensures ParseNat("").Err? && ParseNat("+").Err?
  {
    assert (s + [c])[..|s|] == s;
    PlusInFront(s + [c]);
    assert "+" + (s + [c]) == "+" + s + [c];
    PlusInFront("");
    assert "+" + "" == "+";
  }

  lemma PlusInFront(s: string)
    requires AllDigits(s)
    ensures ParseNat("+" + s) == ParseNat(s) == if s == "" then Err else Ok(Value(s))
  {
    assert ("+" + s)[1..] == s && ("+" + s)[0] == '+';
  }

  /** Numbers are printed without a sign and without zeros in front. */
  lemma {:induction false} NoLeadingZero(n: nat)
    ensures AllDigits(Decimal(n)) && (Decimal(n)[0] == '0' ==> n == 0 && Decimal(n) == "0")
    decreases n
  {
    if n >= 10 {
      NoLeadingZero(n / 10);
    }
  }

  lemma NotANumber(s: string, i: nat)
    requires i < |s| && !IsDigit(s[i]) && (i == 0 ==> s[0] != '+')
    ensures ParseNat(s).Err?
  {
    if s[0] == '+' {
      assert s[1..][i - 1] == s[i];
    }
  }

  lemma SpacesIs(s: string, n: nat)
    requires n <= |s| && Blank(s[..n]) && (n < |s| ==> !IsSpace(s[n]))
    ensures Spaces(s) == n
  {
    forall i | 0 <= i < n
      ensures IsSpace(s[i])
    {
      assert s[..n][i] == s[i];
    }
  }

  lemma WordLengthIs(s: string, n: nat)
    requires n <= |s| && NoSpace(s[..n]) && (n < |s| ==> IsSpace(s[n]))
    ensures Word(s) == n
  {
    forall i | 0 <= i < n
      ensures !IsSpace(s[i])
    {
      assert s[..n][i] == s[i];
    }
  }

  lemma TrimStartSkips(gap: string, s: string)
    requires Blank(gap) && (s == [] || !IsSpace(s[0]))
    ensures TrimStart(gap + s) == s
  {
    assert (gap + s)[..|gap|] == gap;
    SpacesIs(gap + s, |gap|);
  }

  lemma {:induction false} TrimEndSkips(s: string, gap: string)
    requires Blank(gap) && (s == [] || !IsSpace(s[|s| - 1]))
    ensures TrimEnd(s + gap) == s
    decreases |gap|
  {
    var n := |gap|;
    if n == 0 {
      assert s + gap == s;
    } else {
      assert (s + gap)[|s + gap| - 1] == gap[n - 1];
      assert (s + gap)[..|s + gap| - 1] == s + gap[..n - 1];
      TrimEndSkips(s, gap[..n - 1]);
    }
  }

  /** Trimming takes off the blanks around a text and nothing else. */
  lemma TrimAround(before: string, s: string, after: string)
    requires Blank(before) && Blank(after)
    requires s == [] || (!IsSpace(s[0]) && !IsSpace(s[|s| - 1]))
    ensures Trim(before + s + after) == s
  {
    if s == [] {
      var all := before + after;
      assert before + s + after == all + [] && Blank(all);
      TrimStartSkips(all, []);
    } else {
      assert before + s + after == before + (s + after);
      TrimStartSkips(before, s + after);
      TrimEndSkips(s, after);
    }
  }

  // ---- Words ------------------------------------------------------------------------

  lemma {:induction false} WordsAfterGap(gap: string, rest: string)
    requires Blank(gap)
    ensures Words(gap + rest) == Words(rest)
  {
    var n := Spaces(rest);
    var whole := gap + rest;
    assert whole[..|gap| + n] == gap + rest[..n];
    SpacesIs(whole, |gap| + n);
    assert TrimStart(whole) == TrimStart(rest);
  }

  lemma {:induction false} WordsAddSpace(s: string, c: char)
    requires IsSpace(c)
    ensures Words(s + [c]) == Words(s)
    decreases |s|
  {
    var t := TrimStart(s);
    if t == [] {
      assert Blank(s + [c]) && (s + [c])[..|s| + 1] == s + [c];
      SpacesIs(s + [c], |s| + 1);
    } else {
      var k, n := Spaces(s), Word(t);
      assert (s + [c])[..k] == s[..k];
      SpacesIs(s + [c], k);
      assert TrimStart(s + [c]) == t + [c];
      assert (t + [c])[..n] == t[..n];
      WordLengthIs(t + [c], n);
      assert (t + [c])[n..] == t[n..] + [c];
      WordsAddSpace(t[n..], c);
    }
  }

  lemma {:induction false} WordsBeforeGap(s: string, gap: string)
    requires Blank(gap)
    ensures Words(s + gap) == Words(s)
    decreases |gap|
  {
    var n := |gap|;
    if n == 0 {
      assert s + gap == s;
    } else {
      assert s + gap == s + gap[..n - 1] + [gap[n - 1]];
      WordsAddSpace(s + gap[..n - 1], gap[n - 1]);
      WordsBeforeGap(s, gap[..n - 1]);
    }
  }

  lemma {:induction false} WordsTrimEnd(s: string)
    ensures Words(TrimEnd(s)) == Words(s)
    decreases |s|
  {
    var n := |s| - 1;
    if s != [] && IsSpace(s[n]) {
      assert s == s[..n] + [s[n]];
      WordsAddSpace(s[..n], s[n]);
      WordsTrimEnd(s[..n]);
    }
  }

  lemma WordsTrimStart(s: string)
    ensures Words(TrimStart(s)) == Words(s)
  {
    assert s == s[..Spaces(s)] + TrimStart(s);
    WordsAfterGap(s[..Spaces(s)], TrimStart(s));
  }

  /** Trimming a line first makes no difference to its words. */
  lemma WordsTrim(s: string)
    ensures Words(Trim(s)) == Words(s)
  {
    WordsTrimStart(s);
    WordsTrimEnd(TrimStart(s));
  }

  /** Words, each behind its gap. */
  function Laid(gaps: seq<string>, ws: seq<string>): string
    requires |gaps| == |ws|
    decreases |ws|
  {
    if ws == [] then "" else gaps[0] + ws[0] + Laid(gaps[1..], ws[1..])
  }

  /** Gaps of white space; only the first may be empty. */
  predicate Gaps(gaps: seq<string>) {
    (forall i | 0 <= i < |gaps| :: Blank(gaps[i])) && (forall i | 0 < i < |gaps| :: gaps[i] != [])
  }

  /** However the words are laid out, they are read back. */
  lemma {:induction false} WordsLaid(gaps: seq<string>, ws: seq<string>, tail: string)
    requires |gaps| == |ws| && Gaps(gaps) && AllWords(ws) && Blank(tail)
    ensures Words(Laid(gaps, ws) + tail) == ws
    decreases |ws|
  {
    if ws == [] {
      assert Laid(gaps, ws) + tail == tail + "";
      WordsAfterGap(tail, "");
    } else {
      var rest := Laid(gaps[1..], ws[1..]) + tail;
      assert Laid(gaps, ws) + tail == gaps[0] + (ws[0] + rest);
      WordsAfterGap(gaps[0], ws[0] + rest);
      LaidStarts(gaps[1..], ws[1..], tail);
      WordsFirst(ws[0], rest);
      WordsLaid(gaps[1..], ws[1..], tail);
      Headed(ws);
    }
  }

  lemma LaidStarts(gaps: seq<string>, ws: seq<string>, tail: string)
    requires |gaps| == |ws| && Blank(tail)
    requires forall i | 0 <= i < |gaps| :: gaps[i] != [] && Blank(gaps[i])
    ensures var rest := Laid(gaps, ws) + tail; rest == [] || IsSpace(rest[0])
  {}

  // ---- Lines ------------------------------------------------------------------------

  /** A line ends at a newline, with or without a carriage return before it. */
  lemma LinesEitherEnd(line: string, end: string, rest: string)
    requires '\n' !in line && '\r' !in line && (end == "\n" || end == "\r\n")
    ensures Lines(line + end + rest) == [line] + Lines(rest)
  {
    if end == "\n" {
      LinesFirst(line, rest);
    } else {
      assert line + end + rest == (line + ['\r']) + ['\n'] + rest;
      ReturnedLine(line, rest);
    }
  }

  lemma ReturnedLine(line: string, rest: string)
    requires '\n' !in line
    ensures Lines((line + ['\r']) + ['\n'] + rest) == [line] + Lines(rest)
  {
    var cut := line + ['\r'];
    var s := cut + ['\n'] + rest;
    assert s[..|cut|] == cut && s[|cut| + 1..] == rest;
    IndexOfIs(s, '\n', |cut|);
    assert cut[..|line|] == line;
  }

  /** The last line needs no newline. */
  lemma LastLine(line: string)
    requires '\n' !in line && line != []
    ensures Lines(line) == [line]
  {
    IndexOfIs(line, '\n', |line|);
  }
}
