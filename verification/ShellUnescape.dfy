/**
 * Undoing backslash escapes that a shell left in stored text. The program does it with a chain of
 * whole-string replacements that parks escaped backslashes on NUL; what it stands for is one
 * left-to-right pass.
 */
module ShellUnescape {

  const NUL := '\0'

  function Replace1(s: string, a: char, z: char): string {
    if s == "" then "" else [if s[0] == a then z else s[0]] + Replace1(s[1..], a, z)
  }

  /** Replace every occurrence of the pair `ab`, scanning left to right without overlap. */
  function Replace2(s: string, a: char, b: char, z: char): string {
    if s == "" then ""
    else if |s| >= 2 && s[0] == a && s[1] == b then [z] + Replace2(s[2..], a, b, z)
    else [s[0]] + Replace2(s[1..], a, b, z)
  }

  /** The five replacements between parking and unparking. */
  function Letters(s: string): string {
    Replace2(Replace2(Replace2(Replace2(Replace2(
      s, '\\', 'n', '\n'), '\\', 'r', '\r'), '\\', 't', '\t'), '\\', '\'', '\''), '\\', '\"', '\"')
  }

  /** The chain as the program runs it. */
  function Unescape(s: string): string {
    Replace1(Letters(Replace2(s, '\\', '\\', NUL)), NUL, '\\')
  }

  // ---------------------------------------------------------------- what it stands for

  predicate IsEscape(c: char) {
    c in {'\\', 'n', 'r', 't', '\'', '\"'}
  }

  function Meaning(c: char): char
    requires IsEscape(c)
  {
    match c
    case 'n' => '\n'
    case 'r' => '\r'
    case 't' => '\t'
    case _ => c
  }

  /** An escape sequence begins at the head of `s`. */
  predicate Pair(s: string) {
    |s| >= 2 && s[0] == '\\' && IsEscape(s[1])
  }

  function OnePass(s: string): (t: string)
    ensures |t| <= |s|
  {
    if s == "" then ""
    else if Pair(s) then [Meaning(s[1])] + OnePass(s[2..])
    else [s[0]] + OnePass(s[1..])
  }

  /** What the chain makes of any text: one pass that takes a stray NUL for an escaped backslash. */
  function Pass(s: string): (t: string)
    ensures |t| <= |s| && (s != "" ==> t != "")
  {
    if s == "" then ""
    else if Pair(s) then [Meaning(s[1])] + Pass(s[2..])
    else [if s[0] == NUL then '\\' else s[0]] + Pass(s[1..])
  }

  function EscapeChar(c: char): string {
    match c
    case '\\' => "\\\\"
    case '\n' => "\\n"
    case '\r' => "\\r"
    case '\t' => "\\t"
    case '\'' => "\\\'"
    case '\"' => "\\\""
    case _ => [c]
  }

  function Escape(s: string): string {
    if s == "" then "" else EscapeChar(s[0]) + Escape(s[1..])
  }

  /** Nothing is left that a pass would change. */
  predicate Settled(s: string) {
    if s == "" then true else !Pair(s) && Settled(s[1..])
  }

  // ---------------------------------------------------------------- the chain is one pass

  /** A character that is no backslash passes through the five replacements. */
  lemma LettersCons(c: char, s: string)
    requires c != '\\'
    ensures Letters([c] + s) == [c] + Letters(s)
  {
    Replace2Cons(c, s, 'n', '\n');
    var s1 := Replace2(s, '\\', 'n', '\n');
    Replace2Cons(c, s1, 'r', '\r');
    var s2 := Replace2(s1, '\\', 'r', '\r');
    Replace2Cons(c, s2, 't', '\t');
    var s3 := Replace2(s2, '\\', 't', '\t');
    Replace2Cons(c, s3, '\'', '\'');
    Replace2Cons(c, Replace2(s3, '\\', '\'', '\''), '\"', '\"');
  }

  lemma Replace2Cons(c: char, s: string, b: char, z: char)
    requires c != '\\'
    ensures Replace2([c] + s, '\\', b, z) == [c] + Replace2(s, '\\', b, z)
  {
    assert ([c] + s)[1..] == s;
  }

  /** A backslash before a character that is no backslash: one replacement takes it, or none does. */
  lemma Replace2Backslash(c: char, s: string, b: char, z: char)
    requires c != '\\' && b != '\\'
    ensures Replace2(['\\', c] + s, '\\', b, z)
            == (if c == b then [z] else ['\\', c]) + Replace2(s, '\\', b, z)
  {
    var t := ['\\', c] + s;
    assert t[2..] == s && t[1..] == [c] + s;
    if c != b {
      Replace2Cons(c, s, b, z);
    }
  }

  lemma LettersBackslash(c: char, s: string)
    requires c != '\\'
    ensures Letters(['\\', c] + s) == (if IsEscape(c) then [Meaning(c)] else ['\\', c]) + Letters(s)
  {
    var s1 := Replace2(s, '\\', 'n', '\n');
    var s2 := Replace2(s1, '\\', 'r', '\r');
    var s3 := Replace2(s2, '\\', 't', '\t');
    var s4 := Replace2(s3, '\\', '\'', '\'');
    Replace2Backslash(c, s, 'n', '\n');
    if c == 'n' {
      Replace2Cons('\n', s1, 'r', '\r');
      Replace2Cons('\n', s2, 't', '\t');
      Replace2Cons('\n', s3, '\'', '\'');
      Replace2Cons('\n', s4, '\"', '\"');
      return;
    }
    Replace2Backslash(c, s1, 'r', '\r');
    if c == 'r' {
      Replace2Cons('\r', s2, 't', '\t');
      Replace2Cons('\r', s3, '\'', '\'');
      Replace2Cons('\r', s4, '\"', '\"');
      return;
    }
    Replace2Backslash(c, s2, 't', '\t');
    if c == 't' {
      Replace2Cons('\t', s3, '\'', '\'');
      Replace2Cons('\t', s4, '\"', '\"');
      return;
    }
    Replace2Backslash(c, s3, '\'', '\'');
    if c == '\'' {
      Replace2Cons('\'', s4, '\"', '\"');
      return;
    }
    Replace2Backslash(c, s4, '\"', '\"');
  }

  lemma Replace1Cons(c: char, s: string, a: char, z: char)
    ensures Replace1([c] + s, a, z) == [if c == a then z else c] + Replace1(s, a, z)
  {
    assert ([c] + s)[1..] == s;
  }

  /** How the chain treats the head of the text, case by case. */
  lemma ChainPlain(s: string)
    requires s != "" && s[0] != '\\'
    ensures Unescape(s) == [if s[0] == NUL then '\\' else s[0]] + Unescape(s[1..])
  {
    var parked := Replace2(s[1..], '\\', '\\', NUL);
    LettersCons(s[0], parked);
    Replace1Cons(s[0], Letters(parked), NUL, '\\');
  }

  lemma ChainDouble(s: string)
    requires |s| >= 2 && s[0] == s[1] == '\\'
    ensures Unescape(s) == ['\\'] + Unescape(s[2..])
  {
    var parked := Replace2(s[2..], '\\', '\\', NUL);
    LettersCons(NUL, parked);
    Replace1Cons(NUL, Letters(parked), NUL, '\\');
  }

  lemma ChainBackslash(s: string)
    requires |s| >= 2 && s[0] == '\\' && s[1] != '\\'
    ensures Unescape(s)
            == (if IsEscape(s[1]) then [Meaning(s[1])] else ['\\', if s[1] == NUL then '\\' else s[1]])
               + Unescape(s[2..])
  {
    ParkedBackslash(s);
    var rest := Letters(Replace2(s[2..], '\\', '\\', NUL));
    LettersBackslash(s[1], Replace2(s[2..], '\\', '\\', NUL));
    if IsEscape(s[1]) {
      Replace1Cons(Meaning(s[1]), rest, NUL, '\\');
    } else {
      assert ['\\', s[1]] + rest == ['\\'] + ([s[1]] + rest);
      Replace1Cons('\\', [s[1]] + rest, NUL, '\\');
      Replace1Cons(s[1], rest, NUL, '\\');
    }
  }

  lemma PassBackslash(s: string)
    requires |s| >= 2 && s[0] == '\\' && s[1] != '\\'
    ensures Pass(s)
            == (if IsEscape(s[1]) then [Meaning(s[1])] else ['\\', if s[1] == NUL then '\\' else s[1]]) + Pass(s[2..])
  {
    if !IsEscape(s[1]) {
      assert Pass(s) == ['\\'] + Pass(s[1..]);
      assert !Pair(s[1..]) && s[1..][1..] == s[2..];
    }
  }

  /** On every text the chain is this one pass. */
  lemma {:induction false} ChainIsPass(s: string)
    ensures Unescape(s) == Pass(s)
  {
    if s == "" {
    } else if s[0] != '\\' {
      ChainPlain(s);
      ChainIsPass(s[1..]);
    } else if |s| == 1 {
      LoneBackslash();
    } else {
      ChainIsPass(s[2..]);
      if s[1] == '\\' {
        ChainDouble(s);
      } else {
        ChainBackslash(s);
        PassBackslash(s);
      }
    }
  }

  lemma ParkedBackslash(s: string)
    requires |s| >= 2 && s[0] == '\\' && s[1] != '\\'
    ensures Replace2(s, '\\', '\\', NUL) == ['\\', s[1]] + Replace2(s[2..], '\\', '\\', NUL)
  {
    assert s[1..][1..] == s[2..];
    assert s[1..][0] == s[1];
  }

  lemma LoneBackslash()
    ensures Unescape("\\") == "\\" && Pass("\\") == "\\"
  {
    var s := "\\";
    assert s[1..] == "";
    assert Replace2(s, '\\', '\\', NUL) == s;
    assert Letters(s) == s;
  }

  lemma {:induction false} PassHasNoNul(s: string)
    ensures NUL !in Pass(s)
  {
    if s != "" {
      PassHasNoNul(if Pair(s) then s[2..] else s[1..]);
    }
  }

  lemma {:induction false} OnePassKeepsNul(s: string)
    ensures NUL in OnePass(s) <==> NUL in s
  {
    if s != "" {
      if Pair(s) {
        OnePassKeepsNul(s[2..]);
        assert s == s[..2] + s[2..];
      } else {
        OnePassKeepsNul(s[1..]);
        assert s == [s[0]] + s[1..];
      }
    }
  }

  lemma {:induction false} PassWithoutNul(s: string)
    requires NUL !in s
    ensures Pass(s) == OnePass(s)
  {
    if s != "" {
      PassWithoutNul(if Pair(s) then s[2..] else s[1..]);
    }
  }

  /** The chain is the single pass on exactly the strings without NUL. */
  lemma ChainIsOnePass(s: string)
    ensures Unescape(s) == OnePass(s) <==> NUL !in s
  {
    ChainIsPass(s);
    if NUL in s {
      OnePassKeepsNul(s);
      PassHasNoNul(s);
    } else {
      PassWithoutNul(s);
    }
  }

  lemma OnePassUndoesToken(c: char, rest: string)
    ensures OnePass(EscapeChar(c) + rest) == [c] + OnePass(rest)
  {
    var e := EscapeChar(c);
    assert (e + rest)[|e|..] == rest;
    if |e| == 2 {
      assert e[0] == '\\' && IsEscape(e[1]) && Meaning(e[1]) == c;
      assert Pair(e + rest) && (e + rest)[1] == e[1];
    } else {
      assert e == [c] && c != '\\';
      assert !Pair(e + rest) && (e + rest)[0] == c;
    }
  }

  lemma {:induction false} OnePassUndoesEscape(s: string)
    ensures OnePass(Escape(s)) == s
  {
    if s != "" {
      OnePassUndoesEscape(s[1..]);
      OnePassUndoesToken(s[0], Escape(s[1..]));
      assert s == [s[0]] + s[1..];
    }
  }

  /** The chain undoes the matching escaper on exactly the strings without NUL. */
  lemma RoundTrip(s: string)
    ensures Unescape(Escape(s)) == s <==> NUL !in s
  {
    if NUL in s {
      ChainIsPass(Escape(s));
      PassHasNoNul(Escape(s));
    } else {
      OnePassUndoesEscape(s);
      OnePassKeepsNul(Escape(s));
      ChainIsOnePass(Escape(s));
    }
  }

  /** A run leaves a text alone exactly when no escape and no NUL is in it, and never lengthens it. */
  lemma {:induction false} ChangesShorten(s: string)
    ensures Unescape(s) == s <==> Settled(s) && NUL !in s
    ensures |Unescape(s)| <= |s|
    ensures !Settled(s) ==> |Unescape(s)| < |s|
  {
    ChainIsPass(s);
    PassHasNoNul(s);
    PassShortens(s);
  }

  lemma {:induction false} PassShortens(s: string)
    ensures Settled(s) && NUL !in s ==> Pass(s) == s
    ensures if Settled(s) then |Pass(s)| == |s| else |Pass(s)| < |s|
  {
    if s != "" && !Pair(s) {
      PassShortens(s[1..]);
      assert s == [s[0]] + s[1..];
      assert NUL in s <==> s[0] == NUL || NUL in s[1..];
    }
  }

  function Repeat(s: string, n: nat): string
    decreases n
  {
    if n == 0 then s else Repeat(Unescape(s), n - 1)
  }

  /** Without NUL every change shortens the text, so fewer runs than it is long reach a fixed point. */
  lemma {:induction false} CleanRunsReachFixedPoint(s: string)
    requires NUL !in s && s != ""
    ensures exists n | 0 <= n < |s| :: Unescape(Repeat(s, n)) == Repeat(s, n)
    decreases |s|
  {
    ChangesShorten(s);
    if Unescape(s) == s {
      assert Repeat(s, 0) == s;
    } else {
      ChainIsPass(s);
      PassHasNoNul(s);
      var t := Unescape(s);
      CleanRunsReachFixedPoint(t);
      var n :| 0 <= n < |t| && Unescape(Repeat(t, n)) == Repeat(t, n);
      assert Repeat(s, n + 1) == Repeat(t, n);
    }
  }

  /** Repeated runs of the clean-up reach text it leaves alone, in at most as many runs as the text is long. */
  lemma RunsReachFixedPoint(s: string)
    ensures exists n | 0 <= n <= |s| :: Unescape(Repeat(s, n)) == Repeat(s, n)
  {
    if s == "" {
      assert Repeat(s, 0) == s;
    } else {
      var t := Unescape(s);
      ChainIsPass(s);
      PassHasNoNul(s);
      CleanRunsReachFixedPoint(t);
      var n :| 0 <= n < |t| && Unescape(Repeat(t, n)) == Repeat(t, n);
      assert Repeat(s, n + 1) == Repeat(t, n);
    }
  }

  // ---------------------------------------------------------------- one run is not always enough

  /** The first character a run puts out. */
  function HeadOut(s: string): char
    requires s != ""
  {
    if Pair(s) then Meaning(s[1]) else if s[0] == NUL then '\\' else s[0]
  }

  /**
   * No escaped backslash, and no NUL, stands directly before something that comes out as an escape
   * letter: a backslash, a quote, or one of the letters n, r, t. Nor does a backslash stand before NUL.
   */
  predicate NoBuriedEscape(s: string) {
    if s == "" then true
    else if Pair(s) then
      (s[1] == '\\' && |s| > 2 ==> !IsEscape(HeadOut(s[2..]))) && NoBuriedEscape(s[2..])
    else if s[0] == NUL then
      (|s| > 1 ==> !IsEscape(HeadOut(s[1..]))) && NoBuriedEscape(s[1..])
    else
      (s[0] == '\\' && |s| > 1 ==> s[1] != NUL) && NoBuriedEscape(s[1..])
  }

  lemma {:induction false} SettledAfterOne(s: string)
    ensures Settled(Pass(s)) <==> NoBuriedEscape(s)
  {
    if s != "" {
      var k := if Pair(s) then 2 else 1;
      var t, rest := Pass(s), Pass(s[k..]);
      SettledAfterOne(s[k..]);
      assert t[1..] == rest;
      assert s[k..] != "" ==> rest[0] == HeadOut(s[k..]);
      if !Pair(s) && |s| > 1 && s[0] == '\\' {
        assert !Pair(s[1..]) && (IsEscape(rest[0]) <==> s[1] == NUL);
      }
    }
  }

  /** A second run is a no-op exactly when the text buries no escape. */
  lemma IdempotentWhen(s: string)
    ensures Unescape(Unescape(s)) == Unescape(s) <==> NoBuriedEscape(s)
  {
    ChainIsPass(s);
    PassHasNoNul(s);
    ChangesShorten(Pass(s));
    SettledAfterOne(s);
  }

  /** Two backslashes and an n: the first run leaves an escape that the second run changes again. */
  lemma NotIdempotent()
    ensures Unescape("\\\\n") == "\\n" && Unescape("\\n") == "\n"
  {
    ChainIsOnePass("\\\\n");
    ChainIsOnePass("\\n");
    var a, b := "\\\\n", "\\n";
    assert a[2..] == "n" && b[2..] == "";
    assert OnePass("n") == "n";
  }

  /** The six escapes. */
  lemma EscapesMean()
    ensures Unescape("\\n") == "\n" && Unescape("\\r") == "\r" && Unescape("\\t") == "\t"
    ensures Unescape("\\\'") == "\'" && Unescape("\\\"") == "\"" && Unescape("\\\\") == "\\"
  {
    TwoCharacters('n');
    TwoCharacters('r');
    TwoCharacters('t');
    TwoCharacters('\'');
    TwoCharacters('\"');
    TwoCharacters('\\');
  }

  /** A backslash before anything else is kept. */
  lemma OtherBackslashStays(c: char)
    requires c !in {'n', 'r', 't', '\'', '\"', '\\', NUL}
    ensures Unescape(['\\', c]) == ['\\', c]
  {
    TwoCharacters(c);
  }

  lemma TwoCharacters(c: char)
    requires c != NUL
    ensures Unescape(['\\', c]) == if IsEscape(c) then [Meaning(c)] else ['\\', c]
  {
    var s := ['\\', c];
    ChainIsPass(s);
    assert s[2..] == "" && s[1..] == [c] && [c][1..] == "";
  }
}
