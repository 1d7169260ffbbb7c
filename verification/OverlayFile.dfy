/** The key=value overlay file: read, merge, write back; and the boot loader that reads it. */
module OverlayFile {
  import opened Storage
  import opened Text

  /** A dictionary that remembers the order in which its keys were inserted. */
  datatype Dict = Dict(order: seq<string>, at: map<string, string>)

  ghost predicate Valid(d: Dict) {
    && Distinct(d.order)
    && (forall k :: k in d.order <==> k in d.at)
  }

  const EMPTY := Dict([], map[])

  /** Assignment: an existing key keeps its place, a new one goes last. */
  function Put(d: Dict, k: string, v: string): Dict {
    Dict(if k in d.at then d.order else d.order + [k], d.at[k := v])
  }

  function Drop(d: Dict, k: string): Dict {
    Dict(Without(d.order, k), d.at - {k})
  }

  function Without(keys: seq<string>, k: string): (r: seq<string>)
    ensures forall x :: x in r <==> x in keys && x != k
  {
    if keys == [] then []
    else if keys[0] == k then Without(keys[1..], k)
    else [keys[0]] + Without(keys[1..], k)
  }

  lemma {:induction false} WithoutDistinct(keys: seq<string>, k: string)
    ensures Distinct(keys) ==> Distinct(Without(keys, k))
  {
    if keys != [] && Distinct(keys) {
      WithoutDistinct(keys[1..], k);
      assert keys[0] !in keys[1..];
    }
  }

  lemma UpdateSum(a: map<string, string>, b: map<string, string>, k: string, v: string)
    ensures a + b[k := v] == (a + b)[k := v]
  {
  }

  // ---------------------------------------------------------------- text

  predicate Assigns(line: string) {
    '=' in line && !StartsWith(line, "#")
  }

  function KeyOf(line: string): string
    requires Assigns(line)
  {
    Strip(line[..IndexOf(line, '=')])
  }

  function ValueOf(line: string): string
    requires Assigns(line)
  {
    Strip(line[IndexOf(line, '=') + 1..])
  }

  function ParseLines(lines: seq<string>): (d: Dict)
    ensures Valid(d)
  {
    if lines == [] then EMPTY
    else
      var before, last := ParseLines(lines[..|lines| - 1]), lines[|lines| - 1];
      if Assigns(last) then Put(before, KeyOf(last), ValueOf(last)) else before
  }

  function Parse(text: string): (d: Dict)
    ensures Valid(d)
  {
    ParseLines(SplitLines(text))
  }

  function Line(k: string, v: string): string {
    k + "=" + v
  }

  /** The lines of the first `n` entries. */
  function LinesUpTo(d: Dict, n: nat): (lines: seq<string>)
    requires Valid(d) && n <= |d.order|
    ensures |lines| == n
  {
    if n == 0 then []
    else
      var k := d.order[n - 1];
      assert k in d.order;
      LinesUpTo(d, n - 1) + [Line(k, d.at[k])]
  }

  function Lines(d: Dict): seq<string>
    requires Valid(d)
  {
    LinesUpTo(d, |d.order|)
  }

  function Print(d: Dict): string
    requires Valid(d)
  {
    JoinLines(Lines(d))
  }

  // ---------------------------------------------------------------- the store

  /** The new text of the file after a save or a removal. */
  function Saved(text: string, name: string, value: Option<string>): string {
    var was := Parse(text);
    WithoutDistinct(was.order, name);
    Print(if Truthy(value) then Put(was, name, value.value) else Drop(was, name))
  }

  /** A pair that an assignment to the environment takes; any other makes it raise. */
  predicate Settable(k: string, v: string) {
    k != "" && '=' !in k && '\0' !in k && '\0' !in v
  }

  /** The boot loader can set what the line assigns. */
  predicate Loads(line: string) {
    Assigns(line) ==> Settable(KeyOf(line), ValueOf(line))
  }

  /** Every line of the file loads. */
  predicate Boots(text: string) {
    forall line | line in SplitLines(text) :: Loads(line)
  }

  predicate FirstRefused(lines: seq<string>, n: nat)
    requires n < |lines|
  {
    !Loads(lines[n]) && forall line | line in lines[..n] :: Loads(line)
  }

  class Store {
    var file: Option<string>
    var environ: map<string, string>

    /**
     * Save a token, or remove it when there is no value; the environment follows. A token that the
     * environment does not take raises before anything is changed.
     */
    method Persist(name: string, value: Option<string>) returns (ok: bool)
      modifies this
      ensures ok <==> (Truthy(value) ==> Settable(name, value.value))
      ensures ok ==> file == Some(Saved(old(TextOf(file)), name, value))
      ensures ok ==> environ == (if Truthy(value) then old(environ)[name := value.value] else old(environ) - {name})
      ensures !ok ==> file == old(file) && environ == old(environ)
      ensures value == None || value == Some("") ==> ok && name !in environ
      ensures ok && value.Some? && value.value != "" ==> name in environ && environ[name] == value.value
      ensures forall other | other != name ::
                && (other in environ <==> other in old(environ))
                && (other in environ ==> environ[other] == old(environ)[other])
    {
      var existing := EMPTY;
      if file.Some? {
        var lines := SplitLines(file.value);
        for i := 0 to |lines|
          invariant existing == ParseLines(lines[..i])
        {
          assert lines[..i + 1][..i] == lines[..i];
          if Assigns(lines[i]) {
            existing := Put(existing, KeyOf(lines[i]), ValueOf(lines[i]));
          }
        }
        assert lines[..|lines|] == lines;
      }
      if Truthy(value) {
        existing := Put(existing, name, value.value);
        if !Settable(name, value.value) {
          return false;
        }
        environ := environ[name := value.value];
      } else {
        WithoutDistinct(existing.order, name);
        existing := Drop(existing, name);
        environ := environ - {name};
      }
      file := Some(Print(existing));
      ok := true;
    }

    /**
     * The boot loader: every assignment of the file overrides the environment, up to the first that
     * the environment does not take; that one raises.
     */
    method Boot() returns (ok: bool)
      modifies this`environ
      ensures ok <==> Boots(TextOf(file))
      ensures ok ==> environ == old(environ) + Parse(TextOf(file)).at
      ensures !ok ==> exists n | 0 <= n < |SplitLines(TextOf(file))| ::
                && FirstRefused(SplitLines(TextOf(file)), n)
                && environ == Loaded(old(environ), SplitLines(TextOf(file)), n)
    {
      if file.Some? {
        var lines := SplitLines(file.value);
        ghost var before := environ;
        for i := 0 to |lines|
          invariant environ == Loaded(before, lines, i)
          invariant forall line | line in lines[..i] :: Loads(line)
        {
          LoadOneMore(before, lines, i);
          assert lines[..i + 1] == lines[..i] + [lines[i]];
          if Assigns(lines[i]) {
            if !Settable(KeyOf(lines[i]), ValueOf(lines[i])) {
              assert lines[i] in lines && FirstRefused(lines, i);
              return false;
            }
            environ := environ[KeyOf(lines[i]) := ValueOf(lines[i])];
          }
        }
        assert lines[..|lines|] == lines;
      }
      ok := true;
    }
  }

  /** The environment after the first `n` lines have been loaded. */
  function Loaded(environ: map<string, string>, lines: seq<string>, n: nat): map<string, string>
    requires n <= |lines|
  {
    environ + ParseLines(lines[..n]).at
  }

  lemma LoadOneMore(environ: map<string, string>, lines: seq<string>, n: nat)
    requires n < |lines|
    ensures Loaded(environ, lines, n + 1)
            == if Assigns(lines[n]) then Loaded(environ, lines, n)[KeyOf(lines[n]) := ValueOf(lines[n])]
               else Loaded(environ, lines, n)
  {
    assert lines[..n + 1][..n] == lines[..n];
    if Assigns(lines[n]) {
      UpdateSum(environ, ParseLines(lines[..n]).at, KeyOf(lines[n]), ValueOf(lines[n]));
    }
  }

  function TextOf(file: Option<string>): string {
    if file.Some? then file.value else ""
  }

  predicate Truthy(value: Option<string>) {
    value.Some? && value.value != ""
  }

  // ---------------------------------------------------------------- round trip

  /** What the text format can hold, but for a leading "#". */
  predicate Plain(k: string, v: string) {
    BreakFree(k) && BreakFree(v) && Trimmed(k) && Trimmed(v) && '=' !in k
  }

  predicate Clean(k: string, v: string) {
    Plain(k, v) && !StartsWith(k, "#")
  }

  lemma LineParses(k: string, v: string)
    requires Plain(k, v)
    ensures BreakFree(Line(k, v)) && (Assigns(Line(k, v)) <==> !StartsWith(k, "#"))
    ensures !StartsWith(k, "#") ==> KeyOf(Line(k, v)) == k && ValueOf(Line(k, v)) == v
  {
    var line := Line(k, v);
    assert line[|k|] == '=' && line[..|k|] == k && line[|k| + 1..] == v;
    assert line[|k|] in line;
    IndexOfAt(line, '=', |k|);
    StripTrims(k);
    StripTrims(v);
    assert k != "" ==> line[0] == k[0];
  }

  /** Whatever is parsed is plain. */
  lemma {:induction false} ParsedIsPlain(lines: seq<string>)
    requires forall l | l in lines :: BreakFree(l)
    ensures forall k | k in ParseLines(lines).at :: Plain(k, ParseLines(lines).at[k])
  {
    if lines != [] {
      ParsedIsPlain(lines[..|lines| - 1]);
      var last := lines[|lines| - 1];
      assert last in lines;
      if Assigns(last) {
        StripTrims(last[..IndexOf(last, '=')]);
        StripTrims(last[IndexOf(last, '=') + 1..]);
      }
    }
  }

  lemma InOneMore(keys: seq<string>, n: nat, k: string)
    requires 0 < n <= |keys|
    ensures k in keys[..n] <==> k in keys[..n - 1] || k == keys[n - 1]
  {
    assert keys[..n] == keys[..n - 1] + [keys[n - 1]];
  }

  lemma ParseOneMore(lines: seq<string>, k: string, v: string)
    requires Plain(k, v)
    ensures ParseLines(lines + [Line(k, v)]).at
            == if StartsWith(k, "#") then ParseLines(lines).at else ParseLines(lines).at[k := v]
  {
    assert (lines + [Line(k, v)])[..|lines|] == lines;
    LineParses(k, v);
  }

  ghost predicate AllPlain(d: Dict) {
    forall k | k in d.at :: Plain(k, d.at[k])
  }

  /** Of the first `n` printed entries, parsing brings back those that do not begin with "#". */
  lemma {:induction false} ParsePrinted(d: Dict, n: nat, k: string)
    requires Valid(d) && n <= |d.order| && AllPlain(d)
    ensures var back := ParseLines(LinesUpTo(d, n)).at;
            && (k in back <==> k in d.order[..n] && !StartsWith(k, "#"))
            && (k in back ==> k in d.at && back[k] == d.at[k])
  {
    if n > 0 {
      ParsePrinted(d, n - 1, k);
      var x := d.order[n - 1];
      assert x in d.order;
      ParseOneMore(LinesUpTo(d, n - 1), x, d.at[x]);
      InOneMore(d.order, n, k);
    }
  }

  lemma {:induction false} PrintedIsBreakFree(d: Dict, n: nat)
    requires Valid(d) && AllPlain(d) && n <= |d.order|
    ensures forall l | l in LinesUpTo(d, n) :: BreakFree(l)
  {
    if n > 0 {
      PrintedIsBreakFree(d, n - 1);
      assert d.order[n - 1] in d.order;
      LineParses(d.order[n - 1], d.at[d.order[n - 1]]);
    }
  }

  lemma PlainRoundTrip(d: Dict, k: string)
    requires Valid(d) && AllPlain(d)
    ensures var back := Parse(Print(d)).at;
            && (k in back <==> k in d.at && !StartsWith(k, "#"))
            && (k in back ==> back[k] == d.at[k])
  {
    PrintedIsBreakFree(d, |d.order|);
    SplitJoin(Lines(d));
    ParsePrinted(d, |d.order|, k);
    assert d.order[..|d.order|] == d.order;
  }

  ghost predicate AllClean(d: Dict) {
    forall k | k in d.at :: Clean(k, d.at[k])
  }

  /** Printing and parsing gives the dictionary back exactly when all its entries are clean. */
  lemma RoundTrip(d: Dict)
    requires Valid(d)
    ensures Parse(Print(d)).at == d.at <==> AllClean(d)
  {
    var back := Parse(Print(d)).at;
    ParsedIsPlain(SplitLines(Print(d)));
    if AllPlain(d) {
      forall k
        ensures k in back <==> k in d.at && !StartsWith(k, "#")
        ensures k in back ==> back[k] == d.at[k]
      {
        PlainRoundTrip(d, k);
      }
      if AllClean(d) {
        assert back.Keys == d.at.Keys;
      }
    }
  }

  // ---------------------------------------------------------------- runs of saves

  /** A save (a value) or a removal (none). */
  datatype Change = Change(name: string, value: Option<string>)

  function ApplyToMap(m: map<string, string>, c: Change): map<string, string> {
    if Truthy(c.value) then m[c.name := c.value.value] else m - {c.name}
  }

  function ApplyAll(m: map<string, string>, changes: seq<Change>): map<string, string> {
    if changes == [] then m else ApplyToMap(ApplyAll(m, changes[..|changes| - 1]), changes[|changes| - 1])
  }

  function SaveAll(text: string, changes: seq<Change>): string {
    if changes == [] then text
    else var c := changes[|changes| - 1]; Saved(SaveAll(text, changes[..|changes| - 1]), c.name, c.value)
  }

  /**
   * From a file that reads back cleanly (a missing one does), any sequence of saves and removals of
   * clean tokens refines plain map updates: what the file parses to is the updated map.
   */
  lemma {:induction false} SavesRefineMapUpdates(text: string, changes: seq<Change>)
    requires AllClean(Parse(text))
    requires forall c | c in changes && Truthy(c.value) :: Clean(c.name, c.value.value)
    ensures AllClean(Parse(SaveAll(text, changes)))
    ensures Parse(SaveAll(text, changes)).at == ApplyAll(Parse(text).at, changes)
  {
    if changes != [] {
      var before, c := changes[..|changes| - 1], changes[|changes| - 1];
      SavesRefineMapUpdates(text, before);
      assert c in changes;
      var was := Parse(SaveAll(text, before));
      WithoutDistinct(was.order, c.name);
      var now := if Truthy(c.value) then Put(was, c.name, c.value.value) else Drop(was, c.name);
      assert AllClean(now);
      RoundTrip(now);
    }
  }

  /** Saving an empty value is removing the token: nothing is left of it in the file. */
  lemma EmptyValueRemoves(text: string, name: string)
    requires AllClean(Parse(text))
    ensures Saved(text, name, Some("")) == Saved(text, name, None)
    ensures Parse(Saved(text, name, None)).at == Parse(text).at - {name}
  {
    SavesRefineMapUpdates(text, [Change(name, None)]);
    assert [Change(name, None)][..0] == [];
    assert SaveAll(text, [Change(name, None)]) == Saved(SaveAll(text, []), name, None);
    assert ApplyAll(Parse(text).at, [Change(name, None)]) == ApplyToMap(Parse(text).at, Change(name, None));
  }

  lemma OrderOneMore(lines: seq<string>, k: string, v: string)
    requires Clean(k, v) && k !in ParseLines(lines).order
    ensures ParseLines(lines + [Line(k, v)]).order == ParseLines(lines).order + [k]
  {
    assert (lines + [Line(k, v)])[..|lines|] == lines;
    LineParses(k, v);
    assert k !in ParseLines(lines).at;
  }

  lemma NextInOrder(d: Dict, n: nat) returns (k: string)
    requires Valid(d) && AllClean(d) && n < |d.order|
    ensures k in d.at && Clean(k, d.at[k]) && LinesUpTo(d, n + 1) == LinesUpTo(d, n) + [Line(k, d.at[k])]
    ensures k !in d.order[..n] && d.order[..n + 1] == d.order[..n] + [k]
  {
    k := d.order[n];
    assert k in d.order;
  }

  lemma {:induction false} ParsedOrder(d: Dict, n: nat, lines: seq<string>)
    requires Valid(d) && AllClean(d) && n <= |d.order| && lines == LinesUpTo(d, n)
    ensures ParseLines(lines).order == d.order[..n]
    decreases n
  {
    if n > 0 {
      var before := LinesUpTo(d, n - 1);
      ParsedOrder(d, n - 1, before);
      var k := NextInOrder(d, n - 1);
      OrderOneMore(before, k, d.at[k]);
    }
  }

  lemma PrintedOrder(d: Dict)
    requires Valid(d) && AllClean(d)
    ensures Parse(Print(d)).order == d.order
  {
    ParsedOrder(d, |d.order|, Lines(d));
    PrintedIsBreakFree(d, |d.order|);
    SplitJoin(Lines(d));
    assert d.order[..|d.order|] == d.order;
  }

  /** The file keeps the order in which its tokens were first saved: a new one goes last. */
  lemma SaveKeepsOrder(text: string, name: string, v: string)
    requires AllClean(Parse(text)) && Clean(name, v) && v != ""
    ensures Parse(Saved(text, name, Some(v))).order
            == Parse(text).order + (if name in Parse(text).order then [] else [name])
  {
    PrintedOrder(Put(Parse(text), name, v));
    assert Parse(text).order + [] == Parse(text).order;
  }

  // ---------------------------------------------------------------- which files boot

  /** The line assigns to the empty name, which no environment takes. */
  predicate Nameless(line: string) {
    Assigns(line) && KeyOf(line) == ""
  }

  /** The line assigns nothing that holds NUL. */
  predicate Sound(line: string) {
    Assigns(line) ==> '\0' !in KeyOf(line) && '\0' !in ValueOf(line)
  }

  predicate Healthy(text: string) {
    forall line | line in SplitLines(text) :: Sound(line)
  }

  predicate HasNameless(text: string) {
    exists line | line in SplitLines(text) :: Nameless(line)
  }

  lemma LoadsWhen(line: string)
    ensures Loads(line) <==> Sound(line) && !Nameless(line)
  {
    if Assigns(line) {
      StripTrims(line[..IndexOf(line, '=')]);
    }
  }

  /** A file boots exactly when no line assigns NUL and no line assigns to the empty name. */
  lemma BootsWhen(text: string)
    ensures Boots(text) <==> Healthy(text) && !HasNameless(text)
  {
    forall line | line in SplitLines(text)
      ensures Loads(line) <==> Sound(line) && !Nameless(line)
    {
      LoadsWhen(line);
    }
  }

  /** Saving the pair writes a line that assigns to the empty name, for instance behind a line break. */
  predicate Poisons(k: string, v: string) {
    HasNameless(Line(k, v) + "\n")
  }

  lemma {:induction false} NamelessKey(lines: seq<string>)
    ensures "" in ParseLines(lines).at <==> exists line | line in lines :: Nameless(line)
  {
    if lines != [] {
      var before, last := lines[..|lines| - 1], lines[|lines| - 1];
      NamelessKey(before);
      assert lines == before + [last] && last in lines;
      assert (exists line | line in lines :: Nameless(line))
             <==> Nameless(last) || exists line | line in before :: Nameless(line);
    }
  }

  lemma {:induction false} InPhysical(lines: seq<string>, piece: string)
    ensures piece in Physical(lines) <==> exists l | l in lines :: piece in SplitLines(l + "\n")
  {
    if lines != [] {
      InPhysical(lines[1..], piece);
      assert lines == [lines[0]] + lines[1..];
    }
  }

  lemma {:induction false} InLines(d: Dict, n: nat, l: string)
    requires Valid(d) && n <= |d.order|
    ensures l in LinesUpTo(d, n) <==> exists i | 0 <= i < n :: l == Line(d.order[i], EntryAt(d, i))
  {
    if n > 0 {
      InLines(d, n - 1, l);
      assert EntryAt(d, n - 1) == d.at[d.order[n - 1]];
    }
  }

  ghost function EntryAt(d: Dict, i: nat): string
    requires Valid(d) && i < |d.order|
  {
    assert d.order[i] in d.order;
    d.at[d.order[i]]
  }

  /** The lines that a reader sees in a printed dictionary are those of its entries. */
  lemma InPrinted(d: Dict, piece: string)
    requires Valid(d)
    ensures piece in SplitLines(Print(d)) <==> exists k | k in d.at :: piece in SplitLines(Line(k, d.at[k]) + "\n")
  {
    SplitWritten(Lines(d));
    InPhysical(Lines(d), piece);
    forall l
      ensures l in Lines(d) <==> exists k | k in d.at :: l == Line(k, d.at[k])
    {
      InLines(d, |d.order|, l);
      if k :| k in d.at && l == Line(k, d.at[k]) {
        var i :| 0 <= i < |d.order| && d.order[i] == k;
        assert l == Line(d.order[i], EntryAt(d, i));
      }
      if i :| 0 <= i < |d.order| && l == Line(d.order[i], EntryAt(d, i)) {
        assert d.order[i] in d.at && d.at[d.order[i]] == EntryAt(d, i);
      }
    }
  }

  /** A plain entry is one line. */
  lemma PlainEntry(k: string, v: string)
    requires Plain(k, v)
    ensures SplitLines(Line(k, v) + "\n") == [Line(k, v)]
    ensures Poisons(k, v) <==> k == ""
    ensures Settable(k, v) ==> Boots(Line(k, v) + "\n")
  {
    LineParses(k, v);
    SplitOne(Line(k, v));
    assert Line(k, v) in SplitLines(Line(k, v) + "\n");
  }

  lemma EmptyNamePoisons(v: string)
    ensures Poisons("", v)
  {
    var text := Line("", v) + "\n";
    var piece := SplitLines(text)[0];
    assert text[0] == '=' && piece[0] == '=' && piece[0] in piece;
    IndexOfAt(piece, '=', 0);
    assert piece[..0] == "";
    assert piece in SplitLines(text) && Nameless(piece);
  }

  lemma {:induction false} ParsedIsSound(lines: seq<string>)
    requires forall line | line in lines :: Sound(line)
    ensures var at := ParseLines(lines).at; forall k | k in at :: '\0' !in k && '\0' !in at[k]
  {
    if lines != [] {
      ParsedIsSound(lines[..|lines| - 1]);
      assert lines[|lines| - 1] in lines;
    }
  }

  ghost predicate AllSettable(d: Dict) {
    forall k | k in d.at :: Settable(k, d.at[k])
  }

  lemma {:induction false} ParsedIsSettable(lines: seq<string>)
    requires forall line | line in lines :: Loads(line)
    ensures AllSettable(ParseLines(lines))
  {
    if lines != [] {
      ParsedIsSettable(lines[..|lines| - 1]);
      assert lines[|lines| - 1] in lines;
    }
  }

  /** What a save or a removal prints: the old entries, all plain, but for the one it is about. */
  lemma SavedEntries(text: string, name: string, value: Option<string>) returns (d: Dict)
    ensures Valid(d) && Saved(text, name, value) == Print(d)
    ensures var was := Parse(text).at;
            d.at == if Truthy(value) then was[name := value.value] else was - {name}
    ensures forall k | k in d.at && (k != name || !Truthy(value)) :: k in Parse(text).at && Plain(k, d.at[k])
  {
    var was := Parse(text);
    WithoutDistinct(was.order, name);
    d := if Truthy(value) then Put(was, name, value.value) else Drop(was, name);
    ParsedIsPlain(SplitLines(text));
  }

  /**
   * From a file that boots, a save leaves one that boots exactly when every line that its own entry
   * turns into loads; a removal always does.
   */
  lemma SaveKeepsBooting(text: string, name: string, value: Option<string>)
    requires Boots(text)
    ensures Boots(Saved(text, name, value)) <==> (Truthy(value) ==> Boots(Line(name, value.value) + "\n"))
  {
    var d := SavedEntries(text, name, value);
    ParsedIsSettable(SplitLines(text));
    forall k | k in d.at && (k != name || !Truthy(value))
      ensures Boots(Line(k, d.at[k]) + "\n")
    {
      PlainEntry(k, d.at[k]);
    }
    BootsPrinted(d);
    if Truthy(value) {
      assert name in d.at && d.at[name] == value.value;
    }
  }

  lemma BootsPrinted(d: Dict)
    requires Valid(d)
    ensures Boots(Print(d)) <==> forall k | k in d.at :: Boots(Line(k, d.at[k]) + "\n")
  {
    forall piece
      ensures piece in SplitLines(Print(d)) <==> exists k | k in d.at :: piece in SplitLines(Line(k, d.at[k]) + "\n")
    {
      InPrinted(d, piece);
    }
  }

  lemma HasNamelessPrinted(d: Dict)
    requires Valid(d)
    ensures HasNameless(Print(d)) <==> exists k | k in d.at :: Poisons(k, d.at[k])
  {
    forall piece
      ensures piece in SplitLines(Print(d)) <==> exists k | k in d.at :: piece in SplitLines(Line(k, d.at[k]) + "\n")
    {
      InPrinted(d, piece);
    }
    if k :| k in d.at && Poisons(k, d.at[k]) {
      var piece :| piece in SplitLines(Line(k, d.at[k]) + "\n") && Nameless(piece);
      assert piece in SplitLines(Print(d));
    }
  }

  /** An assignment to the empty name comes with a save that writes one, and goes only with its removal. */
  lemma NamelessAfter(text: string, name: string, value: Option<string>)
    ensures HasNameless(Saved(text, name, value))
            <==> if Truthy(value) then HasNameless(text) || Poisons(name, value.value)
                 else HasNameless(text) && name != ""
  {
    var d := SavedEntries(text, name, value);
    HasNamelessPrinted(d);
    NamelessKey(SplitLines(text));
    if Truthy(value) && name == "" {
      EmptyNamePoisons(value.value);
    }
    forall k | k in d.at && (k != name || !Truthy(value))
      ensures Poisons(k, d.at[k]) <==> k == ""
    {
      PlainEntry(k, d.at[k]);
    }
    if HasNameless(text) && (Truthy(value) || name != "") {
      assert "" in d.at && Poisons("", d.at[""]) by {
        if name == "" {
          assert d.at[""] == value.value;
        }
      }
    }
    if Truthy(value) && Poisons(name, value.value) {
      assert name in d.at && d.at[name] == value.value;
    }
  }

  lemma HealthyEntry(k: string, v: string)
    requires '\0' !in k && '\0' !in v
    ensures Healthy(Line(k, v) + "\n")
  {
    var text := Line(k, v) + "\n";
    SplitKeepsOut(text, '\0');
    forall piece | piece in SplitLines(text)
      ensures Sound(piece)
    {
      SoundWithoutNul(piece);
    }
  }

  lemma HealthyPrinted(d: Dict)
    requires Valid(d) && forall k | k in d.at :: '\0' !in k && '\0' !in d.at[k]
    ensures Healthy(Print(d))
  {
    forall piece | piece in SplitLines(Print(d))
      ensures Sound(piece)
    {
      InPrinted(d, piece);
      var k :| k in d.at && piece in SplitLines(Line(k, d.at[k]) + "\n");
      HealthyEntry(k, d.at[k]);
    }
  }

  lemma HealthyAfter(text: string, name: string, value: Option<string>)
    requires Healthy(text) && (Truthy(value) ==> Settable(name, value.value))
    ensures Healthy(Saved(text, name, value))
  {
    var d := SavedEntries(text, name, value);
    ParsedIsSound(SplitLines(text));
    HealthyPrinted(d);
  }

  lemma SoundWithoutNul(line: string)
    requires '\0' !in line
    ensures Sound(line)
  {
    if Assigns(line) {
      StripTrims(line[..IndexOf(line, '=')]);
      StripTrims(line[IndexOf(line, '=') + 1..]);
    }
  }

  predicate Poisoning(c: Change) {
    Truthy(c.value) && Poisons(c.name, c.value.value)
  }

  predicate Curing(c: Change) {
    !Truthy(c.value) && c.name == ""
  }

  /** A removal of the empty name, from position `i` on. */
  predicate Cured(changes: seq<Change>, i: nat) {
    exists j | i <= j < |changes| :: Curing(changes[j])
  }

  /** Some line assigned to the empty name at first, or was written by a save, and no removal took it away. */
  predicate Poisoned(atFirst: bool, changes: seq<Change>) {
    || (atFirst && !Cured(changes, 0))
    || exists i | 0 <= i < |changes| :: Poisoning(changes[i]) && !Cured(changes, i)
  }

  /** The same, one change after the other. */
  function PoisonedStep(was: bool, c: Change): bool {
    if Truthy(c.value) then was || Poisoning(c) else was && !Curing(c)
  }

  function PoisonedRun(atFirst: bool, changes: seq<Change>): bool {
    if changes == [] then atFirst
    else PoisonedStep(PoisonedRun(atFirst, changes[..|changes| - 1]), changes[|changes| - 1])
  }

  lemma CuredSnoc(before: seq<Change>, c: Change, i: nat)
    requires i <= |before|
    ensures Cured(before + [c], i) <==> Cured(before, i) || Curing(c)
  {
    var changes := before + [c];
    if j :| i <= j < |before| && Curing(before[j]) {
      assert changes[j] == before[j];
    }
    if Curing(c) {
      assert changes[|before|] == c;
    }
  }

  lemma PoisonedSnoc(atFirst: bool, before: seq<Change>, c: Change)
    ensures Poisoned(atFirst, before + [c]) <==> PoisonedStep(Poisoned(atFirst, before), c)
  {
    var changes := before + [c];
    forall i | 0 <= i <= |before|
      ensures Cured(changes, i) <==> Cured(before, i) || Curing(c)
    {
      CuredSnoc(before, c, i);
    }
    assert forall i | 0 <= i < |before| :: changes[i] == before[i];
    assert changes[|before|] == c;
    if i :| 0 <= i < |before| && Poisoning(before[i]) && !Cured(before, i) {
      assert Poisoning(changes[i]);
    }
  }

  lemma {:induction false} PoisonedRunIs(atFirst: bool, changes: seq<Change>)
    ensures PoisonedRun(atFirst, changes) == Poisoned(atFirst, changes)
  {
    if changes == [] {
      assert !Cured(changes, 0);
    } else {
      var before, c := changes[..|changes| - 1], changes[|changes| - 1];
      PoisonedRunIs(atFirst, before);
      PoisonedSnoc(atFirst, before, c);
      assert changes == before + [c];
    }
  }

  lemma {:induction false} NamelessAfterAll(text: string, changes: seq<Change>)
    ensures HasNameless(SaveAll(text, changes)) == PoisonedRun(HasNameless(text), changes)
  {
    if changes != [] {
      var before, c := changes[..|changes| - 1], changes[|changes| - 1];
      NamelessAfterAll(text, before);
      NamelessAfter(SaveAll(text, before), c.name, c.value);
    }
  }

  lemma {:induction false} HealthyAfterAll(text: string, changes: seq<Change>)
    requires Healthy(text) && forall c | c in changes && Truthy(c.value) :: Settable(c.name, c.value.value)
    ensures Healthy(SaveAll(text, changes))
  {
    if changes != [] {
      var before, c := changes[..|changes| - 1], changes[|changes| - 1];
      assert c in changes;
      HealthyAfterAll(text, before);
      HealthyAfter(SaveAll(text, before), c.name, c.value);
    }
  }

  /**
   * What any sequence of saves and removals that succeed leaves on disk, the next boot loads without
   * raising exactly when no save wrote a line that assigns to the empty name, or a later
   * removal of the empty name took it away.
   */
  lemma SavedFileBoots(text: string, changes: seq<Change>)
    requires Healthy(text) && forall c | c in changes && Truthy(c.value) :: Settable(c.name, c.value.value)
    ensures Boots(SaveAll(text, changes)) <==> !Poisoned(HasNameless(text), changes)
  {
    HealthyAfterAll(text, changes);
    NamelessAfterAll(text, changes);
    PoisonedRunIs(HasNameless(text), changes);
    BootsWhen(SaveAll(text, changes));
  }

  // ---------------------------------------------------------------- tokens that do not survive

  /** A token with a line break is cut there when it is read back, and what follows sets another variable. */
  lemma BreakSetsAnotherVariable(k: string, v: string, b: string, w: string)
    requires Clean(k, v) && Clean(b, w)
    ensures Parse(Saved("", k, Some(v + "\n" + Line(b, w)))).at == map[k := v][b := w]
  {
    var token := v + "\n" + Line(b, w);
    SaveFirst(k, token);
    CutToken(k, v, b, w);
    var first, second := Line(k, v), Line(b, w);
    assert [] + [first] == [first] && [first] + [second] == [first, second];
    LineParses(k, v);
    ParseOneMore([], k, v);
    ParseOneMore([first], b, w);
  }

  lemma SaveFirst(k: string, token: string)
    requires token != ""
    ensures Saved("", k, Some(token)) == JoinLines([Line(k, token)])
  {
    assert LinesUpTo(Put(EMPTY, k, token), 1) == [Line(k, token)];
  }

  lemma CutToken(k: string, v: string, b: string, w: string)
    requires Clean(k, v) && Clean(b, w)
    ensures SplitLines(JoinLines([Line(k, v + "\n" + Line(b, w))])) == [Line(k, v), Line(b, w)]
  {
    var first, second := Line(k, v), Line(b, w);
    LineParses(k, v);
    LineParses(b, w);
    SplitTwo(first, '\n', second);
    WrittenToken(k, v, second);
  }

  lemma WrittenToken(k: string, v: string, second: string)
    ensures JoinLines([Line(k, v + "\n" + second)]) == Line(k, v) + ['\n'] + second + "\n"
  {
    assert Line(k, v + "\n" + second) == Line(k, v) + ['\n'] + second;
  }

  /** So a save can succeed and the next boot raise. */
  lemma SaveCanStopBoot(k: string, v: string, w: string)
    requires Clean(k, v) && Clean("", w) && Settable(k, v) && '\0' !in w
    ensures Settable(k, v + "\n" + Line("", w)) && !Boots(Saved("", k, Some(v + "\n" + Line("", w))))
  {
    var text := Saved("", k, Some(v + "\n" + Line("", w)));
    BreakSetsAnotherVariable(k, v, "", w);
    NamelessKey(SplitLines(text));
    BootsWhen(text);
  }
}
