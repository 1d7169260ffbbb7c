/** Reading the added lines, with their numbers in the new file, out of a unified diff. */
module DiffReader {
  import opened Storage
  import opened Text

  type Added = map<string, seq<(nat, string)>>

  /** The reader's variables: the current file, the next line number, the result so far. */
  datatype Reader = Reader(path: Option<string>, lineno: nat, added: Added)

  // ---------------------------------------------------------------- numbers in hunk headers

  predicate IsDigit(c: char) {
    '0' <= c <= '9'
  }

  function Digit(d: nat): char
    requires d < 10
  {
    (d + 48) as char
  }

  function DigitValue(c: char): nat
    requires IsDigit(c)
  {
    c as int - 48
  }

  function Decimal(n: nat): string {
    if n < 10 then [Digit(n)] else Decimal(n / 10) + [Digit(n % 10)]
  }

  /** The value of the longest run of digits at the head of `s`, after the digits already read. */
  function LeadingNumber(s: string, read: nat): nat {
    if s != "" && IsDigit(s[0]) then LeadingNumber(s[1..], 10 * read + DigitValue(s[0])) else read
  }

  /** The first number that follows a plus sign directly, or zero. */
  function HunkStart(s: string): nat {
    if s == "" then 0
    else if s[0] == '+' && |s| > 1 && IsDigit(s[1]) then LeadingNumber(s[1..], 0)
    else HunkStart(s[1..])
  }

  lemma {:induction false} LeadingDecimal(n: nat, rest: string)
    requires rest == "" || !IsDigit(rest[0])
    ensures LeadingNumber(Decimal(n) + rest, 0) == n
    ensures IsDigit(Decimal(n)[0])
  {
    LeadingDigits(n, 0, rest);
    assert LeadingNumber(rest, n) == n;
    assert Power(|Decimal(n)|) * 0 == 0;
  }

  function Power(k: nat): nat {
    if k == 0 then 1 else 10 * Power(k - 1)
  }

  lemma {:induction false} LeadingDigits(n: nat, read: nat, rest: string)
    ensures IsDigit(Decimal(n)[0])
    ensures LeadingNumber(Decimal(n) + rest, read) == LeadingNumber(rest, Power(|Decimal(n)|) * read + n)
  {
    if n < 10 {
      assert (Decimal(n) + rest)[1..] == rest;
      assert Power(1) == 10;
    } else {
      var head, tail := Decimal(n / 10), [Digit(n % 10)] + rest;
      assert Decimal(n) + rest == head + tail;
      LeadingDigits(n / 10, read, tail);
      var p := Power(|head|);
      assert tail[1..] == rest;
      calc {
        10 * (p * read + n / 10) + n % 10;
        { Shift(p, read); }
        Power(|head| + 1) * read + n;
      }
    }
  }

  lemma Shift(p: nat, read: nat)
    ensures 10 * (p * read) == 10 * p * read
  {
  }

  lemma {:induction false} HunkStartAfter(before: string, n: nat, rest: string)
    requires '+' !in before && (rest == "" || !IsDigit(rest[0]))
    ensures HunkStart(before + "+" + Decimal(n) + rest) == n
  {
    var s := before + "+" + Decimal(n) + rest;
    if before == "" {
      assert s[1..] == Decimal(n) + rest;
      LeadingDecimal(n, rest);
    } else {
      assert before[0] in before;
      assert s[1..] == before[1..] + "+" + Decimal(n) + rest;
      HunkStartAfter(before[1..], n, rest);
    }
  }

  // ---------------------------------------------------------------- the reader

  function Append(added: Added, path: string, items: seq<(nat, string)>): Added {
    if items == [] then added else added[path := (if path in added then added[path] else []) + items]
  }

  function Step(r: Reader, raw: string): Reader {
    if StartsWith(raw, "+++ ") then
      var target := Strip(raw[4..]);
      r.(path := if target == "/dev/null" then None else Some(RemovePrefix(target, "b/")))
    else if StartsWith(raw, "@@") then r.(lineno := HunkStart(raw))
    else if r.path.None? then r
    else if StartsWith(raw, "+") then
      r.(added := Append(r.added, r.path.value, [(r.lineno, raw[1..])]), lineno := r.lineno + 1)
    else if StartsWith(raw, "-") then r
    else if StartsWith(raw, " ") then r.(lineno := r.lineno + 1)
    else r
  }

  function Run(r: Reader, lines: seq<string>): Reader
    decreases lines
  {
    if lines == [] then r else Run(Step(r, lines[0]), lines[1..])
  }

  /** The reading loop, as a function of the text. */
  function Reading(text: string): Added {
    Run(Reader(None, 0, map[]), SplitLines(text)).added
  }

  method ParseAddedLines(text: string) returns (added: Added)
    ensures added == Reading(text)
  {
    added := map[];
    var path: Option<string> := None;
    var lineno: nat := 0;
    var lines := SplitLines(text);
    for i := 0 to |lines|
      invariant Run(Reader(path, lineno, added), lines[i..]).added == Reading(text)
    {
      var raw := lines[i];
      assert lines[i..][1..] == lines[i + 1..];
      if StartsWith(raw, "+++ ") {
        var target := Strip(raw[4..]);
        path := if target == "/dev/null" then None else Some(RemovePrefix(target, "b/"));
        continue;
      }
      if StartsWith(raw, "@@") {
        lineno := HunkStart(raw);
        continue;
      }
      if path.None? {
        continue;
      }
      if StartsWith(raw, "+") {
        added := added[path.value := (if path.value in added then added[path.value] else []) + [(lineno, raw[1..])]];
        lineno := lineno + 1;
      } else if StartsWith(raw, "-") {
        continue;
      } else if StartsWith(raw, " ") {
        lineno := lineno + 1;
      }
    }
  }

  // ---------------------------------------------------------------- diffs

  datatype Line = Keep(text: string) | Add(text: string) | Del(text: string) | NoNewline

  /** A hunk; `oldSide` and `rest` are what its header says around the new start line. */
  datatype Hunk = Hunk(oldSide: string, newStart: nat, rest: string, lines: seq<Line>)

  /** One file of a diff; no path stands for a deleted file. */
  datatype FileDiff = FileDiff(preamble: seq<string>, path: Option<string>, hunks: seq<Hunk>)

  function RenderLine(line: Line): string {
    match line
    case Keep(t) => " " + t
    case Add(t) => "+" + t
    case Del(t) => "-" + t
    case NoNewline => "\\ No newline at end of file"
  }

  function RenderLines(lines: seq<Line>): seq<string> {
    if lines == [] then [] else [RenderLine(lines[0])] + RenderLines(lines[1..])
  }

  function Header(h: Hunk): string {
    "@@ -" + h.oldSide + " +" + Decimal(h.newStart) + h.rest
  }

  function RenderHunks(hunks: seq<Hunk>): seq<string> {
    if hunks == [] then [] else [Header(hunks[0])] + RenderLines(hunks[0].lines) + RenderHunks(hunks[1..])
  }

  function TargetLine(path: Option<string>): string {
    match path
    case None => "+++ /dev/null"
    case Some(p) => "+++ b/" + p
  }

  function RenderFile(f: FileDiff): seq<string> {
    f.preamble + ([TargetLine(f.path)] + RenderHunks(f.hunks))
  }

  function Render(files: seq<FileDiff>): seq<string> {
    if files == [] then [] else RenderFile(files[0]) + Render(files[1..])
  }

  /** A line between files (`diff`, `index`, `---`, mode lines) that cannot be taken for diff content. */
  predicate Harmless(line: string) {
    line == "" || (line[0] !in {'+', ' ', '@'})
  }

  predicate HunkOk(h: Hunk) {
    && '+' !in h.oldSide
    && (h.rest == "" || h.rest[0] in {',', ' '})
  }

  predicate FileOk(f: FileDiff) {
    && (forall l | l in f.preamble :: Harmless(l))
    && (forall h | h in f.hunks :: HunkOk(h))
    && (f.path.Some? ==> f.path.value == "" || !IsSpace(f.path.value[|f.path.value| - 1]))
    && (f.path.None? ==> forall h, l | h in f.hunks && l in h.lines :: !l.Add?)
  }

  // ---------------------------------------------------------------- what the reader should find

  /** The inserted lines of a hunk, numbered from `n` in the new file. */
  function Inserted(lines: seq<Line>, n: nat): seq<(nat, string)> {
    if lines == [] then []
    else
      match lines[0]
      case Add(t) => [(n, t)] + Inserted(lines[1..], n + 1)
      case Keep(_) => Inserted(lines[1..], n + 1)
      case _ => Inserted(lines[1..], n)
  }

  function InsertedHunks(hunks: seq<Hunk>): seq<(nat, string)> {
    if hunks == [] then [] else Inserted(hunks[0].lines, hunks[0].newStart) + InsertedHunks(hunks[1..])
  }

  function Expected(added: Added, files: seq<FileDiff>): Added
    decreases files
  {
    if files == [] then added
    else
      Expected(if files[0].path.Some? then Append(added, files[0].path.value, InsertedHunks(files[0].hunks)) else added,
               files[1..])
  }

  /** No added text looks like a file header once its plus sign is in front. */
  predicate Unambiguous(files: seq<FileDiff>) {
    forall f, h, l | f in files && h in f.hunks && l in h.lines && l.Add? :: !StartsWith(l.text, "++ ")
  }

  // ---------------------------------------------------------------- the reader finds it

  lemma {:induction false} RunConcat(r: Reader, a: seq<string>, b: seq<string>)
    ensures Run(r, a + b) == Run(Run(r, a), b)
    decreases a
  {
    if a == [] {
      assert a + b == b;
    } else {
      assert (a + b)[1..] == a[1..] + b;
      RunConcat(Step(r, a[0]), a[1..], b);
    }
  }

  lemma AppendTwice(added: Added, path: string, a: seq<(nat, string)>, b: seq<(nat, string)>)
    ensures Append(Append(added, path, a), path, b) == Append(added, path, a + b)
  {
    if a == [] {
      assert a + b == b;
    } else if b == [] {
      assert a + b == a;
    } else {
      var was := if path in added then added[path] else [];
      assert was + a + b == was + (a + b);
      assert added[path := was + a][path := was + a + b] == added[path := was + (a + b)];
    }
  }

  lemma {:induction false} PreambleIgnored(r: Reader, lines: seq<string>)
    requires forall l | l in lines :: Harmless(l)
    ensures Run(r, lines) == r
  {
    if lines != [] {
      assert Harmless(lines[0]);
      assert Step(r, lines[0]) == r;
      PreambleIgnored(r, lines[1..]);
    }
  }

  lemma StepLine(r: Reader, line: Line)
    requires r.path.Some? && (line.Add? ==> !StartsWith(line.text, "++ "))
    ensures Step(r, RenderLine(line)) ==
            match line
            case Add(t) => r.(added := Append(r.added, r.path.value, [(r.lineno, t)]), lineno := r.lineno + 1)
            case Keep(_) => r.(lineno := r.lineno + 1)
            case _ => r
  {
    var raw := RenderLine(line);
    assert raw[0] == (match line case Keep(_) => ' ' case Add(_) => '+' case Del(_) => '-' case NoNewline => '\\');
    if line.Add? {
      assert raw[1..] == line.text;
      assert "+++ "[1..] == "++ ";
    }
  }

  predicate NoHeaderLike(lines: seq<Line>) {
    forall l | l in lines && l.Add? :: !StartsWith(l.text, "++ ")
  }

  /** The reader after the items have been collected for its file. */
  predicate Collected(r: Reader, r': Reader, items: seq<(nat, string)>)
    requires r.path.Some?
  {
    r'.path == r.path && r'.added == Append(r.added, r.path.value, items)
  }

  lemma CollectedTwice(r: Reader, r': Reader, r'': Reader, a: seq<(nat, string)>, b: seq<(nat, string)>)
    requires r.path.Some? && Collected(r, r', a) && Collected(r', r'', b)
    ensures Collected(r, r'', a + b)
  {
    AppendTwice(r.added, r.path.value, a, b);
  }

  lemma {:induction false} RunHunkLines(r: Reader, lines: seq<Line>)
    requires r.path.Some? && NoHeaderLike(lines)
    ensures Collected(r, Run(r, RenderLines(lines)), Inserted(lines, r.lineno))
    decreases lines
  {
    if lines != [] {
      var line, rest := lines[0], lines[1..];
      assert line in lines;
      StepLine(r, line);
      var next := Step(r, RenderLine(line));
      assert RenderLines(lines)[1..] == RenderLines(rest);
      RunHunkLines(next, rest);
      if line.Add? {
        CollectedTwice(r, next, Run(next, RenderLines(rest)), [(r.lineno, line.text)], Inserted(rest, r.lineno + 1));
      }
    }
  }

  lemma StepHeader(r: Reader, h: Hunk)
    requires HunkOk(h)
    ensures Step(r, Header(h)) == r.(lineno := h.newStart)
  {
    var before := "@@ -" + h.oldSide + " ";
    assert Header(h) == before + "+" + Decimal(h.newStart) + h.rest;
    assert "@@" <= Header(h) && Header(h)[0] == '@';
    HunkStartAfter(before, h.newStart, h.rest);
  }

  lemma RunHunk(r: Reader, h: Hunk)
    requires HunkOk(h) && r.path.Some? && NoHeaderLike(h.lines)
    ensures Collected(r, Run(r, [Header(h)] + RenderLines(h.lines)), Inserted(h.lines, h.newStart))
  {
    StepHeader(r, h);
    assert ([Header(h)] + RenderLines(h.lines))[1..] == RenderLines(h.lines);
    RunHunkLines(r.(lineno := h.newStart), h.lines);
  }

  lemma {:induction false} RunHunks(r: Reader, hunks: seq<Hunk>)
    requires r.path.Some? && forall h | h in hunks :: HunkOk(h) && NoHeaderLike(h.lines)
    ensures Collected(r, Run(r, RenderHunks(hunks)), InsertedHunks(hunks))
    decreases hunks
  {
    if hunks != [] {
      var h, rest := hunks[0], hunks[1..];
      assert h in hunks;
      var head, tail := [Header(h)] + RenderLines(h.lines), RenderHunks(rest);
      RunConcat(r, head, tail);
      RunHunk(r, h);
      var next := Run(r, head);
      RunHunks(next, rest);
      CollectedTwice(r, next, Run(next, tail), Inserted(h.lines, h.newStart), InsertedHunks(rest));
    }
  }

  /** Nothing is collected for a deleted file. */
  lemma {:induction false} RunDeleted(r: Reader, lines: seq<string>)
    requires r.path.None? && forall l | l in lines :: !StartsWith(l, "+++ ")
    ensures var r' := Run(r, lines); r'.path.None? && r'.added == r.added
    decreases lines
  {
    if lines != [] {
      assert lines[0] in lines;
      RunDeleted(Step(r, lines[0]), lines[1..]);
    }
  }

  lemma {:induction false} DeletedHunkLines(hunks: seq<Hunk>)
    requires forall h, l | h in hunks && l in h.lines :: !l.Add?
    ensures forall raw | raw in RenderHunks(hunks) :: !StartsWith(raw, "+++ ")
  {
    if hunks != [] {
      DeletedHunkLines(hunks[1..]);
      assert hunks[0] in hunks;
      DeletedLines(hunks[0].lines);
      assert Header(hunks[0])[0] == '@';
    }
  }

  lemma {:induction false} DeletedLines(lines: seq<Line>)
    requires forall l | l in lines :: !l.Add?
    ensures forall raw | raw in RenderLines(lines) :: !StartsWith(raw, "+++ ")
  {
    if lines != [] {
      DeletedLines(lines[1..]);
      assert lines[0] in lines;
      assert RenderLine(lines[0])[0] != '+';
    }
  }

  lemma StepTarget(r: Reader, path: Option<string>)
    requires path.Some? ==> path.value == "" || !IsSpace(path.value[|path.value| - 1])
    ensures Step(r, TargetLine(path)) == r.(path := path)
  {
    var raw := TargetLine(path);
    match path
    case None =>
      assert raw[4..] == "/dev/null";
      StripTrims("/dev/null");
    case Some(p) =>
      assert raw[4..] == "b/" + p;
      assert Trimmed("b/" + p);
      StripTrims("b/" + p);
      assert ("b/" + p)[0] == 'b' && ("b/" + p)[2..] == p;
  }

  /** A target line names its file with or without the prefix "b/", and white space around it does not count. */
  lemma TargetNames(r: Reader, p: string, space: string)
    requires Trimmed(p) && p != "" && p != "/dev/null" && forall c | c in space :: IsSpace(c)
    ensures Step(r, "+++ " + p + space).path == Some(if "b/" <= p then p[2..] else p)
  {
    var raw := "+++ " + p + space;
    assert raw[4..] == p + space && "+++ " <= raw;
    StripAfter(p, space);
  }

  lemma {:induction false} StripAfter(p: string, space: string)
    requires Trimmed(p) && p != "" && forall c | c in space :: IsSpace(c)
    ensures Strip(p + space) == p
  {
    assert (p + space)[0] == p[0];
    StripRightAfter(p, space);
  }

  lemma {:induction false} StripRightAfter(p: string, space: string)
    requires p != "" && !IsSpace(p[|p| - 1]) && forall c | c in space :: IsSpace(c)
    ensures StripRight(p + space) == p
  {
    if space == "" {
      assert p + space == p;
    } else {
      var n := |space| - 1;
      assert (p + space)[|p + space| - 1] == space[n] && space[n] in space;
      assert (p + space)[..|p + space| - 1] == p + space[..n];
      StripRightAfter(p, space[..n]);
    }
  }

  /** A hunk header without a number behind a plus sign starts at zero. */
  lemma {:induction false} NoHunkStart(s: string)
    requires forall i | 0 <= i < |s| - 1 && s[i] == '+' :: !IsDigit(s[i + 1])
    ensures HunkStart(s) == 0
  {
    if s != "" {
      assert forall i | 0 <= i < |s[1..]| - 1 && s[1..][i] == '+' :: s[i + 1] == '+' && s[1..][i + 1] == s[i + 2];
      NoHunkStart(s[1..]);
    }
  }

  lemma RunFile(r: Reader, f: FileDiff)
    requires Unambiguous([f]) && FileOk(f)
    ensures Run(r, RenderFile(f)).added
            == (if f.path.Some? then Append(r.added, f.path.value, InsertedHunks(f.hunks)) else r.added)
  {
    var body := RenderHunks(f.hunks);
    RunConcat(r, f.preamble, [TargetLine(f.path)] + body);
    PreambleIgnored(r, f.preamble);
    StepTarget(r, f.path);
    var entered := r.(path := f.path);
    assert ([TargetLine(f.path)] + body)[1..] == body;
    assert f in [f];
    if f.path.Some? {
      RunHunks(entered, f.hunks);
    } else {
      DeletedHunkLines(f.hunks);
      RunDeleted(entered, body);
    }
  }

  lemma {:induction false} RunFiles(r: Reader, files: seq<FileDiff>)
    requires Unambiguous(files) && forall f | f in files :: FileOk(f)
    ensures Run(r, Render(files)).added == Expected(r.added, files)
    decreases files
  {
    if files != [] {
      assert files[0] in files;
      RunConcat(r, RenderFile(files[0]), Render(files[1..]));
      RunFile(r, files[0]);
      RunFiles(Run(r, RenderFile(files[0])), files[1..]);
    }
  }

  // ---------------------------------------------------------------- and only it

  /** The text is never taken for an added line of some file. */
  predicate Absent(added: Added, bad: string) {
    forall p, item | p in added && item in added[p] :: item.1 != bad
  }

  /** A text that looks like a header behind its plus sign, or spans lines, is never read. */
  lemma {:induction false} NeverRead(r: Reader, lines: seq<string>, bad: string)
    requires Absent(r.added, bad) && (StartsWith(bad, "++ ") || !BreakFree(bad))
    requires forall l | l in lines :: BreakFree(l)
    ensures Absent(Run(r, lines).added, bad)
    decreases lines
  {
    if lines != [] {
      var raw := lines[0];
      assert raw in lines;
      if StartsWith(raw, "+") && raw[1..] == bad {
        assert forall c | c in bad :: c in raw;
        assert raw == "+" + bad;
        assert "+++ " == "+" + "++ " && "+++ " <= raw;
      }
      NeverRead(Step(r, raw), lines[1..], bad);
    }
  }

  lemma {:induction false} InsertedHas(lines: seq<Line>, n: nat, l: Line)
    requires l in lines && l.Add?
    ensures exists item | item in Inserted(lines, n) :: item.1 == l.text
  {
    if lines[0] == l {
      assert (n, l.text) in Inserted(lines, n);
    } else {
      var m := if lines[0].Add? || lines[0].Keep? then n + 1 else n;
      InsertedHas(lines[1..], m, l);
      var item :| item in Inserted(lines[1..], m) && item.1 == l.text;
      assert item in Inserted(lines, n);
    }
  }

  lemma {:induction false} InsertedHunksHas(hunks: seq<Hunk>, h: Hunk, l: Line)
    requires h in hunks && l in h.lines && l.Add?
    ensures exists item | item in InsertedHunks(hunks) :: item.1 == l.text
  {
    if hunks[0] == h {
      InsertedHas(h.lines, h.newStart, l);
      var item :| item in Inserted(h.lines, h.newStart) && item.1 == l.text;
      assert item in InsertedHunks(hunks);
    } else {
      InsertedHunksHas(hunks[1..], h, l);
      var item :| item in InsertedHunks(hunks[1..]) && item.1 == l.text;
      assert item in InsertedHunks(hunks);
    }
  }

  lemma {:induction false} ExpectedKeeps(added: Added, files: seq<FileDiff>, bad: string)
    requires !Absent(added, bad)
    ensures !Absent(Expected(added, files), bad)
    decreases files
  {
    if files != [] {
      var f := files[0];
      var next := if f.path.Some? then Append(added, f.path.value, InsertedHunks(f.hunks)) else added;
      var p, item :| p in added && item in added[p] && item.1 == bad;
      assert p in next && item in next[p];
      ExpectedKeeps(next, files[1..], bad);
    }
  }

  lemma {:induction false} ExpectedHas(added: Added, files: seq<FileDiff>, f: FileDiff, h: Hunk, l: Line)
    requires f in files && f.path.Some? && h in f.hunks && l in h.lines && l.Add?
    ensures !Absent(Expected(added, files), l.text)
    decreases files
  {
    var g := files[0];
    var next := if g.path.Some? then Append(added, g.path.value, InsertedHunks(g.hunks)) else added;
    if g == f {
      InsertedHunksHas(f.hunks, h, l);
      var item :| item in InsertedHunks(f.hunks) && item.1 == l.text;
      assert item in next[f.path.value];
      ExpectedKeeps(next, files[1..], l.text);
    } else {
      ExpectedHas(next, files[1..], f, h, l);
    }
  }

  // ---------------------------------------------------------------- breaks inside lines

  /** No added text holds a character at which `splitlines` breaks. */
  predicate Unbroken(files: seq<FileDiff>) {
    forall f, h, l | f in files && h in f.hunks && l in h.lines && l.Add? :: BreakFree(l.text)
  }

  /** What follows a break inside the line cannot be taken for diff content; a trailing CR is fine. */
  predicate Tame(raw: string) {
    var lines := SplitLines(raw + "\n");
    forall i | 1 <= i < |lines| :: Harmless(lines[i])
  }

  /** The lines of the file's diff that add nothing are tame. */
  predicate TameFile(f: FileDiff) {
    && (forall l | l in f.preamble :: Tame(l))
    && BreakFree(TargetLine(f.path))
    && (forall h | h in f.hunks :: BreakFree(h.oldSide) && Tame(Header(h)))
    && (forall h, l | h in f.hunks && l in h.lines && !l.Add? :: Tame(RenderLine(l)))
  }

  /** Written out, the line has the effect it has as one line. */
  ghost predicate Transparent(raw: string) {
    forall r :: Run(r, SplitLines(raw + "\n")) == Step(r, raw)
  }

  lemma {:induction false} RunPhysical(r: Reader, lines: seq<string>)
    requires forall raw | raw in lines :: Transparent(raw)
    ensures Run(r, Physical(lines)) == Run(r, lines)
    decreases lines
  {
    if lines != [] {
      assert lines[0] in lines;
      RunConcat(r, SplitLines(lines[0] + "\n"), Physical(lines[1..]));
      RunPhysical(Step(r, lines[0]), lines[1..]);
    }
  }

  /** The first line that is seen of a line written out. */
  function FirstPiece(raw: string): (p: string)
    ensures p <= raw
  {
    FirstBreakUpTo(raw + "\n", |raw|);
    (raw + "\n")[..FirstBreak(raw + "\n")]
  }

  lemma FirstPieceFirst(raw: string)
    ensures var lines := SplitLines(raw + "\n"); lines != [] && lines[0] == FirstPiece(raw)
  {
    FirstBreakUpTo(raw + "\n", |raw|);
  }

  /** A break-free beginning is in the first piece. */
  lemma BeginningInPiece(raw: string, p: string)
    requires p <= raw && BreakFree(p)
    ensures p <= FirstPiece(raw)
  {
    FirstBreakUpTo(raw + "\n", |raw|);
  }

  lemma TameIsTransparent(raw: string)
    requires Tame(raw) && forall r :: Step(r, FirstPiece(raw)) == Step(r, raw)
    ensures Transparent(raw)
  {
    var lines := SplitLines(raw + "\n");
    FirstPieceFirst(raw);
    forall r
      ensures Run(r, lines) == Step(r, raw)
    {
      assert forall l | l in lines[1..] :: Harmless(l);
      PreambleIgnored(Step(r, lines[0]), lines[1..]);
    }
  }

  lemma HarmlessIsTransparent(raw: string)
    requires Tame(raw) && Harmless(raw)
    ensures Transparent(raw)
  {
    TameIsTransparent(raw);
  }

  lemma ContextIsTransparent(raw: string)
    requires Tame(raw) && " " <= raw && " " <= FirstPiece(raw)
    ensures Transparent(raw)
  {
    assert raw[0] == ' ' && FirstPiece(raw)[0] == ' ';
    TameIsTransparent(raw);
  }

  lemma LineIsTransparent(line: Line)
    requires if line.Add? then BreakFree(line.text) else Tame(RenderLine(line))
    ensures Transparent(RenderLine(line))
  {
    var raw := RenderLine(line);
    match line
    case Add(t) =>
      assert BreakFree(raw);
      SplitOne(raw);
    case Keep(t) =>
      assert raw[..1] == " ";
      BeginningInPiece(raw, " ");
      ContextIsTransparent(raw);
    case Del(t) =>
      assert raw[0] == '-';
      HarmlessIsTransparent(raw);
    case NoNewline =>
      assert raw[0] == '\\';
      HarmlessIsTransparent(raw);
  }

  lemma {:induction false} DecimalBreakFree(n: nat)
    ensures BreakFree(Decimal(n))
  {
    if n >= 10 {
      DecimalBreakFree(n / 10);
    }
  }

  lemma HeaderIsTransparent(h: Hunk)
    requires HunkOk(h) && BreakFree(h.oldSide) && Tame(Header(h))
    ensures Transparent(Header(h))
  {
    var raw, start := Header(h), "@@ -" + h.oldSide + " +" + Decimal(h.newStart);
    DecimalBreakFree(h.newStart);
    assert raw[..|start|] == start;
    BeginningInPiece(raw, start);
    var piece := FirstPiece(raw);
    var cut := h.(rest := piece[|start|..]);
    assert piece == Header(cut);
    assert cut.rest <= h.rest by {
      assert raw[|start|..] == h.rest;
    }
    forall r
      ensures Step(r, piece) == Step(r, raw)
    {
      StepHeader(r, h);
      StepHeader(r, cut);
    }
    TameIsTransparent(raw);
  }

  predicate LinesOk(lines: seq<Line>) {
    forall l | l in lines :: if l.Add? then BreakFree(l.text) else Tame(RenderLine(l))
  }

  lemma {:induction false} LinesAreTransparent(lines: seq<Line>)
    requires LinesOk(lines)
    ensures forall raw | raw in RenderLines(lines) :: Transparent(raw)
  {
    if lines != [] {
      assert lines[0] in lines;
      LineIsTransparent(lines[0]);
      LinesAreTransparent(lines[1..]);
    }
  }

  lemma {:induction false} HunksAreTransparent(hunks: seq<Hunk>)
    requires forall h | h in hunks :: HunkOk(h) && BreakFree(h.oldSide) && Tame(Header(h)) && LinesOk(h.lines)
    ensures forall raw | raw in RenderHunks(hunks) :: Transparent(raw)
  {
    if hunks != [] {
      assert hunks[0] in hunks;
      HeaderIsTransparent(hunks[0]);
      LinesAreTransparent(hunks[0].lines);
      HunksAreTransparent(hunks[1..]);
    }
  }

  lemma FileIsTransparent(f: FileDiff)
    requires FileOk(f) && TameFile(f) && Unbroken([f])
    ensures forall raw | raw in RenderFile(f) :: Transparent(raw)
  {
    forall l | l in f.preamble
      ensures Transparent(l)
    {
      HarmlessIsTransparent(l);
    }
    SplitOne(TargetLine(f.path));
    assert Transparent(TargetLine(f.path));
    assert f in [f];
    HunksAreTransparent(f.hunks);
  }

  lemma {:induction false} FilesAreTransparent(files: seq<FileDiff>)
    requires Unbroken(files) && forall f | f in files :: FileOk(f) && TameFile(f)
    ensures forall raw | raw in Render(files) :: Transparent(raw)
  {
    if files != [] {
      assert files[0] in files;
      FileIsTransparent(files[0]);
      FilesAreTransparent(files[1..]);
    }
  }

  /**
   * Whatever the diff, reading it can return every inserted line once, under its file and with its
   * number, only if no added text begins with "++ " or holds a line break of its own; and for
   * tame diffs it does so exactly then.
   */
  lemma ReadsExactlyTheInsertions(files: seq<FileDiff>)
    requires forall f | f in files :: FileOk(f)
    ensures Reading(JoinLines(Render(files))) == Expected(map[], files) ==> Unambiguous(files) && Unbroken(files)
    ensures (forall f | f in files :: TameFile(f)) ==>
              (Reading(JoinLines(Render(files))) == Expected(map[], files) <==> Unambiguous(files) && Unbroken(files))
  {
    var start := Reader(None, 0, map[]);
    if !Unambiguous(files) || !Unbroken(files) {
      var f, h, l :| && f in files && h in f.hunks && l in h.lines && l.Add?
                     && (StartsWith(l.text, "++ ") || !BreakFree(l.text));
      assert FileOk(f);
      ExpectedHas(map[], files, f, h, l);
      NeverRead(start, SplitLines(JoinLines(Render(files))), l.text);
    } else if forall f | f in files :: TameFile(f) {
      SplitWritten(Render(files));
      FilesAreTransparent(files);
      RunPhysical(start, Render(files));
      RunFiles(start, files);
    }
  }

  // ---------------------------------------------------------------- diffs that are misread

  /** The diff of a file `p` with one hunk of one line. */
  function OneLine(p: string, line: Line): seq<FileDiff> {
    [FileDiff([], Some(p), [Hunk("0", 1, "", [line])])]
  }

  lemma RunThree(r: Reader, a: string, b: string, c: string)
    requires BreakFree(a) && BreakFree(b)
    ensures Run(r, Physical([a, b, c])) == Run(Step(Step(r, a), b), SplitLines(c + "\n"))
  {
    SplitOne(a);
    SplitOne(b);
    var tail := SplitLines(c + "\n");
    assert [a, b, c][1..] == [b, c] && [b, c][1..] == [c] && [c][1..] == [];
    assert Physical([c]) == tail;
    assert Physical([b, c]) == [b] + tail;
    assert Physical([a, b, c]) == [a] + ([b] + tail);
    assert ([b] + tail)[1..] == tail;
  }

  lemma RenderOneLine(p: string, h: Hunk, line: Line)
    requires h.lines == [line]
    ensures Render([FileDiff([], Some(p), [h])]) == [TargetLine(Some(p)), Header(h), RenderLine(line)]
  {
    var f := FileDiff([], Some(p), [h]);
    assert RenderLines([line]) == [RenderLine(line)];
    assert RenderHunks([h]) == [Header(h), RenderLine(line)];
    assert RenderFile(f) == [TargetLine(f.path), Header(h), RenderLine(line)];
  }

  /** A path as a diff names it. */
  predicate PathOk(p: string) {
    BreakFree(p) && p != "" && !IsSpace(p[|p| - 1])
  }

  lemma ReadingHunk(p: string, h: Hunk, line: Line)
    requires h.lines == [line] && HunkOk(h) && BreakFree(Header(h))
    requires PathOk(p)
    ensures Reading(JoinLines(Render([FileDiff([], Some(p), [h])])))
            == Run(Reader(Some(p), h.newStart, map[]), SplitLines(RenderLine(line) + "\n")).added
  {
    var start := Reader(None, 0, map[]);
    RenderOneLine(p, h, line);
    SplitWritten([TargetLine(Some(p)), Header(h), RenderLine(line)]);
    RunThree(start, TargetLine(Some(p)), Header(h), RenderLine(line));
    StepTarget(start, Some(p));
    StepHeader(start.(path := Some(p)), h);
  }

  lemma AppendFirst(p: string, items: seq<(nat, string)>)
    ensures Append(map[], p, items) == if items == [] then map[] else map[p := items]
  {
    assert [] + items == items;
  }

  /** What is read of a diff of one line, and what should be. */
  lemma ReadingOneLine(p: string, line: Line)
    requires PathOk(p)
    ensures Reading(JoinLines(Render(OneLine(p, line))))
            == Run(Reader(Some(p), 1, map[]), SplitLines(RenderLine(line) + "\n")).added
    ensures Expected(map[], OneLine(p, line)) == if line.Add? then map[p := [(1, line.text)]] else map[]
  {
    var h := Hunk("0", 1, "", [line]);
    DecimalBreakFree(1);
    ReadingHunk(p, h, line);
    assert Inserted([line], 1) == if line.Add? then [(1, line.text)] else [];
    assert InsertedHunks([h]) == Inserted([line], 1);
    AppendFirst(p, Inserted([line], 1));
  }

  /** An added line that begins with "++ " is lost: it is taken for a file header. */
  lemma HeaderLikeInsertionIsLost(p: string, t: string)
    requires PathOk(p) && BreakFree(t)
    ensures Reading(JoinLines(Render(OneLine(p, Add("++ " + t))))) == map[]
    ensures Expected(map[], OneLine(p, Add("++ " + t))) == map[p := [(1, "++ " + t)]]
  {
    ReadingOneLine(p, Add("++ " + t));
    HeaderLikeIsHeader(p, "++ " + t);
  }

  lemma HeaderLikeIsHeader(p: string, text: string)
    requires BreakFree(text) && StartsWith(text, "++ ")
    ensures Run(Reader(Some(p), 1, map[]), SplitLines(RenderLine(Add(text)) + "\n")).added == map[]
  {
    var raw := RenderLine(Add(text));
    SplitOne(raw);
    assert raw[..4] == "+" + text[..3] == "+++ ";
    assert Step(Reader(Some(p), 1, map[]), raw).added == map[];
  }

  /** An added line of a file with CRLF line ends is read without its carriage return. */
  lemma CarriageReturnIsLost(p: string, t: string)
    requires PathOk(p) && BreakFree(t) && !StartsWith(t, "++ ")
    ensures Reading(JoinLines(Render(OneLine(p, Add(t + "\r"))))) == map[p := [(1, t)]]
    ensures Expected(map[], OneLine(p, Add(t + "\r"))) == map[p := [(1, t + "\r")]]
  {
    ReadingOneLine(p, Add(t + "\r"));
    assert RenderLine(Add(t + "\r")) + "\n" == RenderLine(Add(t)) + "\r" + "\n";
    SplitCarriageReturn(RenderLine(Add(t)));
    StepLine(Reader(Some(p), 1, map[]), Add(t));
    AppendFirst(p, [(1, t)]);
  }

  /** A form feed inside a context line can bring forth an insertion that the diff does not have. */
  lemma PhantomInsertion(p: string, t: string, u: string, text: string)
    requires PathOk(p) && BreakFree(t) && BreakFree(u) && !StartsWith(u, "++ ")
    requires text == t + ['\U{000C}'] + ("+" + u)
    ensures Reading(JoinLines(Render(OneLine(p, Keep(text))))) == map[p := [(2, u)]]
    ensures Expected(map[], OneLine(p, Keep(text))) == map[]
  {
    ReadingOneLine(p, Keep(text));
    ContextSplits(t, u, text);
    RunContextThenAdded(p, t, u);
  }

  lemma ContextSplits(t: string, u: string, text: string)
    requires BreakFree(t) && BreakFree(u) && text == t + ['\U{000C}'] + ("+" + u)
    ensures SplitLines(RenderLine(Keep(text)) + "\n") == [RenderLine(Keep(t)), RenderLine(Add(u))]
  {
    var a, b := RenderLine(Keep(t)), RenderLine(Add(u));
    assert RenderLine(Keep(text)) == a + ['\U{000C}'] + b;
    SplitTwo(a, '\U{000C}', b);
  }

  lemma RunContextThenAdded(p: string, t: string, u: string)
    requires !StartsWith(u, "++ ")
    ensures Run(Reader(Some(p), 1, map[]), [RenderLine(Keep(t)), RenderLine(Add(u))]).added == map[p := [(2, u)]]
  {
    var r, a, b := Reader(Some(p), 1, map[]), RenderLine(Keep(t)), RenderLine(Add(u));
    StepLine(r, Keep(t));
    StepLine(r.(lineno := 2), Add(u));
    AppendFirst(p, [(2, u)]);
    assert [a, b][1..] == [b] && [b][1..] == [];
    assert Run(Step(r, a), [b]) == Step(Step(r, a), b);
  }

  predicate DistinctPaths(files: seq<FileDiff>) {
    forall i, j | 0 <= i < j < |files| && files[i].path.Some? :: files[i].path != files[j].path
  }

  /** With one entry per path, a path is a key exactly when its file exists and has insertions. */
  lemma {:induction false} ExpectedByFile(added: Added, files: seq<FileDiff>, p: string)
    requires DistinctPaths(files)
    requires forall f | f in files && f.path.Some? :: f.path.value !in added
    ensures (forall f | f in files :: f.path != Some(p)) ==>
              (p in Expected(added, files) <==> p in added)
              && (p in added ==> Expected(added, files)[p] == added[p])
    ensures forall f | f in files && f.path == Some(p) ::
              if InsertedHunks(f.hunks) == [] then p !in Expected(added, files)
              else p in Expected(added, files) && Expected(added, files)[p] == InsertedHunks(f.hunks)
    decreases files
  {
    if files != [] {
      var f, rest := files[0], files[1..];
      var next := if f.path.Some? then Append(added, f.path.value, InsertedHunks(f.hunks)) else added;
      forall g | g in rest && g.path.Some?
        ensures g.path != f.path && g.path.value !in next
      {
        var j :| 0 <= j < |rest| && rest[j] == g;
        assert files[j + 1] == g;
        assert g in files;
      }
      assert f in files;
      ExpectedByFile(next, rest, p);
      assert forall g | g in files :: g == f || g in rest;
    }
  }

  // ---------------------------------------------------------------- the numbers are true

  function NewSide(lines: seq<Line>): seq<string> {
    if lines == [] then []
    else if lines[0].Keep? || lines[0].Add? then [lines[0].text] + NewSide(lines[1..])
    else NewSide(lines[1..])
  }

  /** The hunk's new side stands in the new file from line `start` on. */
  predicate Fits(lines: seq<Line>, start: nat, file: seq<string>) {
    NewSide(lines) == [] || (1 <= start && NewSide(lines) <= file[Clamp(start - 1, |file|)..])
  }

  function Clamp(i: int, n: nat): nat
    requires 0 <= i
  {
    if i < n then i else n
  }

  lemma {:induction false} NumbersAreTrue(lines: seq<Line>, start: nat, file: seq<string>)
    requires Fits(lines, start, file)
    ensures forall item | item in Inserted(lines, start) :: 1 <= item.0 <= |file| && file[item.0 - 1] == item.1
  {
    if lines != [] {
      if lines[0].Keep? || lines[0].Add? {
        var tail := file[Clamp(start - 1, |file|)..];
        assert NewSide(lines)[0] == tail[0] && file[start - 1] == lines[0].text;
        assert NewSide(lines)[1..] <= tail[1..];
        assert tail[1..] == file[Clamp(start, |file|)..];
        NumbersAreTrue(lines[1..], start + 1, file);
      } else {
        NumbersAreTrue(lines[1..], start, file);
      }
    }
  }

  /** In a diff whose hunks fit the new file, every number returned is a line that holds the text. */
  lemma {:induction false} InsertionsAreInFile(hunks: seq<Hunk>, file: seq<string>)
    requires forall h | h in hunks :: Fits(h.lines, h.newStart, file)
    ensures forall item | item in InsertedHunks(hunks) :: 1 <= item.0 <= |file| && file[item.0 - 1] == item.1
  {
    if hunks != [] {
      assert hunks[0] in hunks;
      NumbersAreTrue(hunks[0].lines, hunks[0].newStart, file);
      InsertionsAreInFile(hunks[1..], file);
    }
  }

  /** Some file at the path has insertions. */
  predicate HasInsertions(files: seq<FileDiff>, p: string) {
    exists f | f in files :: f.path == Some(p) && InsertedHunks(f.hunks) != []
  }

  /** `texts` holds the new text of every file that is not deleted, and its hunks fit it. */
  predicate NewTexts(files: seq<FileDiff>, texts: map<string, seq<string>>) {
    forall f | f in files && f.path.Some? ::
      f.path.value in texts && forall h | h in f.hunks :: Fits(h.lines, h.newStart, texts[f.path.value])
  }

  /**
   * What the reader is for. Of a tame diff whose added texts neither begin with "++ " nor hold a line
   * break, it returns as keys exactly the files with insertions, never a deleted one, and under each
   * exactly its insertions, each with a number at which the new file really holds the text.
   */
  lemma ReaderIsRight(files: seq<FileDiff>, texts: map<string, seq<string>>, p: string)
    requires forall f | f in files :: FileOk(f) && TameFile(f)
    requires Unambiguous(files) && Unbroken(files) && DistinctPaths(files) && NewTexts(files, texts)
    ensures var found := Reading(JoinLines(Render(files)));
            && (p in found <==> HasInsertions(files, p))
            && (forall f | f in files && f.path == Some(p) && p in found :: found[p] == InsertedHunks(f.hunks))
            && (p in found ==> p in texts && forall item | item in found[p] ::
                  1 <= item.0 <= |texts[p]| && texts[p][item.0 - 1] == item.1)
  {
    ReadsExactlyTheInsertions(files);
    ExpectedByFile(map[], files, p);
    if HasInsertions(files, p) {
      var f :| f in files && f.path == Some(p) && InsertedHunks(f.hunks) != [];
      InsertionsAreInFile(f.hunks, texts[p]);
    }
  }
}
