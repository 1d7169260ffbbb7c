/** Strings as sequences of characters: lines, edge whitespace, prefixes; lists of strings. */
module Text {

  /** The characters at which `splitlines` breaks a line. */
  predicate IsBreak(c: char) {
    || '\n' <= c <= '\r'
    || '\U{001C}' <= c <= '\U{001E}'
    || c == '\U{0085}' || c == '\U{2028}' || c == '\U{2029}'
  }

  /** The characters that `strip` removes from the edges of a string. */
  predicate IsSpace(c: char) {
    || IsBreak(c)
    || c == ' ' || c == '\t' || c == '\U{001F}' || c == '\U{00A0}' || c == '\U{1680}'
    || c == '\U{202F}' || c == '\U{205F}' || c == '\U{3000}'
    || '\U{2000}' <= c <= '\U{200A}'
  }

  predicate Distinct(names: seq<string>) {
    forall i, j | 0 <= i < j < |names| :: names[i] != names[j]
  }

  predicate BreakFree(s: string) {
    forall c | c in s :: !IsBreak(c)
  }

  predicate StartsWith(s: string, p: string) {
    p <= s
  }

  function RemovePrefix(s: string, p: string): string {
    if p <= s then s[|p|..] else s
  }

  /** The index of the first line break, or the length. */
  function FirstBreak(s: string): (i: nat)
    ensures i <= |s| && BreakFree(s[..i]) && (i < |s| ==> IsBreak(s[i]))
  {
    if s == "" || IsBreak(s[0]) then 0
    else
      var i := FirstBreak(s[1..]);
      assert s[..1 + i] == [s[0]] + s[1..][..i];
      1 + i
  }

  /** The number of characters of the line break at `i`: a carriage return takes its line feed with it. */
  function BreakLength(s: string, i: nat): nat
    requires i < |s|
  {
    if s[i] == '\r' && i + 1 < |s| && s[i + 1] == '\n' then 2 else 1
  }

  function SplitLines(s: string): (lines: seq<string>)
    ensures forall l | l in lines :: BreakFree(l)
    decreases |s|
  {
    if s == "" then []
    else
      var i := FirstBreak(s);
      if i == |s| then [s] else [s[..i]] + SplitLines(s[i + BreakLength(s, i)..])
  }

  /** Splitting puts no new character into a line. */
  lemma {:induction false} SplitKeepsOut(s: string, c: char)
    requires c !in s
    ensures forall l | l in SplitLines(s) :: c !in l
    decreases |s|
  {
    if s != "" && FirstBreak(s) < |s| {
      var i := FirstBreak(s);
      SplitKeepsOut(s[i + BreakLength(s, i)..], c);
    }
  }

  /** Every line followed by a line feed. */
  function JoinLines(lines: seq<string>): string {
    if lines == [] then "" else lines[0] + "\n" + JoinLines(lines[1..])
  }

  lemma {:induction false} FirstBreakAt(s: string, i: nat)
    requires i < |s| && BreakFree(s[..i]) && IsBreak(s[i])
    ensures FirstBreak(s) == i
  {
    if i > 0 {
      assert s[0] in s[..i];
      assert forall c | c in s[1..][..i - 1] :: c in s[..i];
      FirstBreakAt(s[1..], i - 1);
    }
  }

  lemma {:induction false} FirstBreakUpTo(s: string, j: nat)
    requires j < |s| && IsBreak(s[j])
    ensures FirstBreak(s) <= j
  {
    if !IsBreak(s[0]) {
      FirstBreakUpTo(s[1..], j - 1);
    }
  }

  /** `first` is the first line of `s` and `rest` what follows its break. */
  predicate Begins(s: string, first: string, rest: string) {
    var i := FirstBreak(s);
    i < |s| && first == s[..i] && rest == s[i + BreakLength(s, i)..]
  }

  lemma SplitFirst(s: string, first: string, rest: string)
    requires Begins(s, first, rest)
    ensures SplitLines(s) == [first] + SplitLines(rest)
  {
  }

  /** Text put behind a line feed changes nothing before it. */
  lemma BeginsLonger(s: string, b: string) returns (first: string, rest: string)
    requires s != "" && s[|s| - 1] == '\n'
    ensures Begins(s, first, rest) && Begins(s + b, first, rest + b)
    ensures |rest| < |s| && (rest != "" ==> rest[|rest| - 1] == '\n')
  {
    FirstBreakUpTo(s, |s| - 1);
    var i := FirstBreak(s);
    var t, k := s + b, i + BreakLength(s, i);
    assert t[..i] == s[..i] && t[i] == s[i];
    assert i + 1 < |s| ==> t[i + 1] == s[i + 1];
    FirstBreakAt(t, i);
    first, rest := s[..i], s[k..];
    assert t[k..] == rest + b;
  }

  lemma SplitGlue(first: string, rest: string, b: string)
    requires SplitLines(rest + b) == SplitLines(rest) + SplitLines(b)
    ensures [first] + SplitLines(rest + b) == [first] + SplitLines(rest) + SplitLines(b)
  {
  }

  /** A text that ends in a line feed is split on its own. */
  lemma {:induction false} SplitAfterNewline(s: string, b: string)
    requires s != "" && s[|s| - 1] == '\n'
    ensures SplitLines(s + b) == SplitLines(s) + SplitLines(b)
    decreases |s|
  {
    var first, rest := BeginsLonger(s, b);
    if rest != "" {
      SplitAfterNewline(rest, b);
    } else {
      assert rest + b == b;
    }
    SplitGlue(first, rest, b);
    SplitFirst(s, first, rest);
    SplitFirst(s + b, first, rest + b);
  }

  /** The lines a reader sees when these are written one after the other, each with its line feed. */
  function Physical(lines: seq<string>): seq<string> {
    if lines == [] then [] else SplitLines(lines[0] + "\n") + Physical(lines[1..])
  }

  lemma {:induction false} SplitWritten(lines: seq<string>)
    ensures SplitLines(JoinLines(lines)) == Physical(lines)
  {
    if lines != [] {
      SplitAfterNewline(lines[0] + "\n", JoinLines(lines[1..]));
      SplitWritten(lines[1..]);
    }
  }

  lemma SplitOne(line: string)
    requires BreakFree(line)
    ensures SplitLines(line + "\n") == [line]
  {
    var s := line + "\n";
    assert s[..|line|] == line && s[|line|] == '\n' && s[|line| + 1..] == "";
    FirstBreakAt(s, |line|);
  }

  lemma SplitCarriageReturn(line: string)
    requires BreakFree(line)
    ensures SplitLines(line + "\r" + "\n") == [line]
  {
    var s := line + "\r" + "\n";
    assert s[..|line|] == line && s[|line|] == '\r' && s[|line| + 1] == '\n' && s[|line| + 2..] == "";
    FirstBreakAt(s, |line|);
  }

  lemma SplitTwo(a: string, c: char, b: string)
    requires BreakFree(a) && BreakFree(b) && IsBreak(c) && c != '\r'
    ensures SplitLines(a + [c] + b + "\n") == [a, b]
  {
    var s := a + [c] + b + "\n";
    assert s[..|a|] == a && s[|a|] == c && s[|a| + 1..] == b + "\n";
    FirstBreakAt(s, |a|);
    SplitOne(b);
  }

  /** Writing break-free lines and splitting them again gives the same lines. */
  lemma {:induction false} SplitJoin(lines: seq<string>)
    requires forall l | l in lines :: BreakFree(l)
    ensures SplitLines(JoinLines(lines)) == lines
  {
    if lines != [] {
      SplitAfterNewline(lines[0] + "\n", JoinLines(lines[1..]));
      SplitOne(lines[0]);
      SplitJoin(lines[1..]);
    }
  }

  /** The index of the first `c`, or the length. */
  function IndexOf(s: string, c: char): (i: nat)
    ensures i <= |s| && (i < |s| <==> c in s) && (i < |s| ==> s[i] == c) && c !in s[..i]
  {
    if s == "" || s[0] == c then 0
    else
      var i := IndexOf(s[1..], c);
      assert s[..1 + i] == [s[0]] + s[1..][..i];
      assert c in s <==> c in s[1..];
      1 + i
  }

  lemma {:induction false} IndexOfAt(s: string, c: char, i: nat)
    requires i < |s| && s[i] == c && c !in s[..i]
    ensures IndexOf(s, c) == i
  {
    if i > 0 {
      assert s[0] in s[..i];
      assert forall x | x in s[1..][..i - 1] :: x in s[..i];
      IndexOfAt(s[1..], c, i - 1);
    }
  }

  function StripLeft(s: string): string {
    if s != "" && IsSpace(s[0]) then StripLeft(s[1..]) else s
  }

  function StripRight(s: string): string {
    if s != "" && IsSpace(s[|s| - 1]) then StripRight(s[..|s| - 1]) else s
  }

  function Strip(s: string): string {
    StripRight(StripLeft(s))
  }

  /** No whitespace at either edge. */
  predicate Trimmed(s: string) {
    s == "" || (!IsSpace(s[0]) && !IsSpace(s[|s| - 1]))
  }

  lemma StripRightTrims(s: string)
    ensures StripRight(s) <= s
    ensures var r := StripRight(s); r == "" || !IsSpace(r[|r| - 1])
  {
  }

  lemma StripLeftTrims(s: string)
    ensures var r := StripLeft(s); r == "" || !IsSpace(r[0])
    ensures forall c | c in StripLeft(s) :: c in s
  {
  }

  /** Stripping leaves exactly the trimmed strings alone, and everything it returns is one. */
  lemma StripTrims(s: string)
    ensures Trimmed(Strip(s))
    ensures Strip(s) == s <==> Trimmed(s)
    ensures forall c | c in Strip(s) :: c in s
  {
    StripLeftTrims(s);
    StripRightTrims(StripLeft(s));
  }

  lemma {:induction false} StripRightIs(s: string) returns (after: string)
    ensures s == StripRight(s) + after && forall c | c in after :: IsSpace(c)
  {
    after := "";
    if s != "" && IsSpace(s[|s| - 1]) {
      var rest := StripRightIs(s[..|s| - 1]);
      after := rest + [s[|s| - 1]];
      assert s == s[..|s| - 1] + [s[|s| - 1]];
    }
  }

  lemma {:induction false} StripLeftIs(s: string) returns (before: string)
    ensures s == before + StripLeft(s) && forall c | c in before :: IsSpace(c)
  {
    before := "";
    if s != "" && IsSpace(s[0]) {
      var rest := StripLeftIs(s[1..]);
      before := [s[0]] + rest;
      assert s == [s[0]] + s[1..];
    }
  }

  /** Stripping takes whitespace off the edges and nothing else. */
  lemma StripTakesOnlySpace(s: string) returns (before: string, after: string)
    ensures s == before + Strip(s) + after
    ensures forall c | c in before + after :: IsSpace(c)
  {
    before := StripLeftIs(s);
    after := StripRightIs(StripLeft(s));
  }

  /** The ten characters at which Python's `str.splitlines` breaks a line. */
  lemma BreakCharacters(c: char)
    ensures IsBreak(c) <==> c in {'\n', '\U{000B}', '\U{000C}', '\r', '\U{001C}', '\U{001D}', '\U{001E}',
                                  '\U{0085}', '\U{2028}', '\U{2029}'}
  {
    assert '\n' as int == 10 && '\r' as int == 13 && c as int >= 0;
    assert c as int == 11 ==> c == '\U{000B}';
    assert c as int == 12 ==> c == '\U{000C}';
    assert c as int == 29 ==> c == '\U{001D}';
  }

  /** What Python's `str.strip` takes off besides: the white space that breaks no line. */
  lemma SpaceCharacters(c: char)
    ensures IsSpace(c) <==>
              IsBreak(c) || c in {'\t', '\U{001F}', ' ', '\U{00A0}', '\U{1680}', '\U{202F}', '\U{205F}', '\U{3000}'}
              || 0x2000 <= c as int <= 0x200A
  {
  }
}
