/** The reader of server-sent events: `data:` lines are buffered and dispatched at a blank line. */
module EventStream {
  import opened Storage
  import opened Text

  const FIELD := "data:"

  /** The value of a data line: one leading space is dropped. */
  function Value(line: string): string {
    RemovePrefix(RemovePrefix(line, FIELD), " ")
  }

  function Join(texts: seq<string>): string {
    if texts == [] then ""
    else if |texts| == 1 then texts[0]
    else Join(texts[..|texts| - 1]) + "\n" + texts[|texts| - 1]
  }

  // ---------------------------------------------------------------- records

  /** The records that a blank line has terminated. */
  function Records(lines: seq<string>): seq<seq<string>> {
    if lines == [] then []
    else
      var before := lines[..|lines| - 1];
      if lines[|lines| - 1] == "" then Records(before) + [Open(before)] else Records(before)
  }

  /** The lines of the record still open. */
  function Open(lines: seq<string>): seq<string> {
    if lines == [] || lines[|lines| - 1] == "" then []
    else Open(lines[..|lines| - 1]) + [lines[|lines| - 1]]
  }

  function Stream(records: seq<seq<string>>): seq<string> {
    if records == [] then [] else Stream(records[..|records| - 1]) + records[|records| - 1] + [""]
  }

  /** Records and open lines are the stream, cut at its blank lines and nowhere else. */
  lemma {:induction false} RecordsPartition(lines: seq<string>)
    ensures Stream(Records(lines)) + Open(lines) == lines
    ensures "" !in Open(lines)
    ensures forall r | r in Records(lines) :: "" !in r
  {
    if lines != [] {
      var before, last := lines[..|lines| - 1], lines[|lines| - 1];
      RecordsPartition(before);
      assert lines == before + [last];
      if last == "" {
        var records := Records(lines);
        assert records[..|records| - 1] == Records(before);
        assert Stream(records) == Stream(Records(before)) + Open(before) + [""];
      } else {
        assert Stream(Records(before)) + (Open(before) + [last]) == Stream(Records(before)) + Open(before) + [last];
      }
    }
  }

  /** The data lines of a record, and their values. */
  function FieldLines(record: seq<string>): seq<string> {
    if record == [] then []
    else
      var before, last := FieldLines(record[..|record| - 1]), record[|record| - 1];
      if StartsWith(last, FIELD) then before + [last] else before
  }

  function Values(lines: seq<string>): (values: seq<string>)
    ensures |values| == |lines|
  {
    seq(|lines|, i requires 0 <= i < |lines| => Value(lines[i]))
  }

  /** The payload of every record that has a data line. */
  function Payloads(records: seq<seq<string>>): seq<string> {
    if records == [] then []
    else
      var before, fields := Payloads(records[..|records| - 1]), FieldLines(records[|records| - 1]);
      if fields == [] then before else before + [Join(Values(fields))]
  }

  function Parsed<E>(payloads: seq<string>, parse: string -> Option<E>): seq<E> {
    if payloads == [] then []
    else
      var before, last := Parsed(payloads[..|payloads| - 1], parse), parse(payloads[|payloads| - 1]);
      if last.Some? then before + [last.value] else before
  }

  lemma FieldLinesSnoc(record: seq<string>, line: string)
    ensures FieldLines(record + [line]) == FieldLines(record) + (if StartsWith(line, FIELD) then [line] else [])
  {
    assert (record + [line])[..|record|] == record;
  }

  lemma PayloadsSnoc(records: seq<seq<string>>, record: seq<string>)
    ensures Payloads(records + [record])
            == Payloads(records) + (if FieldLines(record) == [] then [] else [Join(Values(FieldLines(record)))])
  {
    assert (records + [record])[..|records|] == records;
  }

  lemma ParsedSnoc<E>(payloads: seq<string>, payload: string, parse: string -> Option<E>)
    ensures Parsed(payloads + [payload], parse)
            == Parsed(payloads, parse) + (if parse(payload).Some? then [parse(payload).value] else [])
  {
    assert (payloads + [payload])[..|payloads|] == payloads;
  }

  /** The parsed values come in the order of their payloads, and there is one for every payload that parses. */
  lemma {:induction false} ParsedInOrder<E>(payloads: seq<string>, parse: string -> Option<E>, i: nat)
    requires i < |payloads|
    ensures var before := Parsed(payloads[..i], parse);
            && before <= Parsed(payloads, parse)
            && (parse(payloads[i]).Some? ==>
                  |before| < |Parsed(payloads, parse)| && Parsed(payloads, parse)[|before|] == parse(payloads[i]).value)
            && (parse(payloads[i]).None? ==> Parsed(payloads[..i + 1], parse) == before)
    decreases |payloads|
  {
    var n := |payloads| - 1;
    assert payloads[..i + 1][..i] == payloads[..i];
    if i < n {
      ParsedInOrder(payloads[..n], parse, i);
      assert payloads[..n][..i] == payloads[..i] && payloads[..n][..i + 1] == payloads[..i + 1];
    }
  }

  lemma LinesSnoc(lines: seq<string>, i: nat)
    requires i < |lines|
    ensures lines[i] == "" ==>
              Records(lines[..i + 1]) == Records(lines[..i]) + [Open(lines[..i])] && Open(lines[..i + 1]) == []
    ensures lines[i] != "" ==>
              Records(lines[..i + 1]) == Records(lines[..i]) && Open(lines[..i + 1]) == Open(lines[..i]) + [lines[i]]
  {
    assert lines[..i + 1][..i] == lines[..i];
  }

  /**
   * The reading loop. It yields exactly the parseable payloads of the terminated records with
   * data, in order; the malformed ones are counted, and the record left open is dropped.
   */
  method ReadEvents<E>(lines: seq<string>, parse: string -> Option<E>) returns (events: seq<E>, malformed: nat)
    ensures events == Parsed(Payloads(Records(lines)), parse)
    ensures |events| + malformed == |Payloads(Records(lines))|
  {
    events, malformed := [], 0;
    var dataLines: seq<string> := [];
    for i := 0 to |lines|
      invariant events == Parsed(Payloads(Records(lines[..i])), parse)
      invariant |events| + malformed == |Payloads(Records(lines[..i]))|
      invariant dataLines == Values(FieldLines(Open(lines[..i])))
    {
      var line := lines[i];
      LinesSnoc(lines, i);
      if line == "" {
        PayloadsSnoc(Records(lines[..i]), Open(lines[..i]));
        if dataLines != [] {
          var payload := Join(dataLines);
          dataLines := [];
          ParsedSnoc(Payloads(Records(lines[..i])), payload, parse);
          var event := parse(payload);
          if event.None? {
            malformed := malformed + 1;
          } else {
            events := events + [event.value];
          }
        }
      } else {
        FieldLinesSnoc(Open(lines[..i]), line);
        if StartsWith(line, FIELD) {
          var value := line[|FIELD|..];
          value := RemovePrefix(value, " ");
          dataLines := dataLines + [value];
        }
      }
    }
    assert lines[..|lines|] == lines;
  }

  // ---------------------------------------------------------------- encoding

  /** The texts between the line feeds of a payload. */
  function Pieces(payload: string): (texts: seq<string>)
    ensures texts != []
  {
    if payload == "" then [""]
    else
      var before, c := Pieces(payload[..|payload| - 1]), payload[|payload| - 1];
      if c == '\n' then before + [""] else before[|before| - 1 := before[|before| - 1] + [c]]
  }

  lemma JoinSnoc(texts: seq<string>, text: string)
    ensures Join(texts + [text]) == if texts == [] then text else Join(texts) + "\n" + text
  {
    assert (texts + [text])[..|texts|] == texts;
  }

  /** A character added to the last text comes out at the end. */
  lemma JoinGrow(texts: seq<string>, c: char)
    requires texts != []
    ensures Join(texts[|texts| - 1 := texts[|texts| - 1] + [c]]) == Join(texts) + [c]
  {
    var before, last := texts[..|texts| - 1], texts[|texts| - 1];
    assert texts == before + [last];
    assert texts[|texts| - 1 := last + [c]] == before + [last + [c]];
    JoinSnoc(before, last);
    JoinSnoc(before, last + [c]);
    assert Join(before) + "\n" + (last + [c]) == Join(before) + "\n" + last + [c];
  }

  lemma {:induction false} JoinPieces(payload: string)
    ensures Join(Pieces(payload)) == payload
  {
    if payload != "" {
      var rest, c := payload[..|payload| - 1], payload[|payload| - 1];
      JoinPieces(rest);
      assert payload == rest + [c];
      if c == '\n' {
        JoinSnoc(Pieces(rest), "");
        assert rest + "\n" + "" == rest + [c];
      } else {
        JoinGrow(Pieces(rest), c);
      }
    }
  }

  predicate IsData(line: string) {
    "data:" <= line
  }

  /** A data line for the text, with a space after the colon or, unless the text begins with one, without. */
  predicate Spells(line: string, text: string) {
    line == "data: " + text || (line == "data:" + text && !StartsWith(text, " "))
  }

  /** The lines that begin with "data:", in order. */
  function DataLines(record: seq<string>): seq<string> {
    if record == [] then []
    else (if IsData(record[0]) then [record[0]] else []) + DataLines(record[1..])
  }

  /** A record carries a payload: its data lines spell the payload's lines, among any non-blank metadata lines. */
  predicate Carries(record: seq<string>, payload: string) {
    var lines, texts := DataLines(record), Pieces(payload);
    "" !in record && |lines| == |texts| && forall i | 0 <= i < |lines| :: Spells(lines[i], texts[i])
  }

  lemma {:induction false} DataLinesConcat(a: seq<string>, b: seq<string>)
    ensures DataLines(a + b) == DataLines(a) + DataLines(b)
  {
    if a == [] {
      assert a + b == b;
    } else {
      assert (a + b)[1..] == a[1..] + b;
      DataLinesConcat(a[1..], b);
    }
  }

  /** The lines that the reader buffers are exactly those that begin with "data:". */
  lemma {:induction false} FieldLinesAreDataLines(record: seq<string>)
    ensures FieldLines(record) == DataLines(record)
  {
    if record != [] {
      var before, last := record[..|record| - 1], record[|record| - 1];
      FieldLinesAreDataLines(before);
      DataLinesConcat(before, [last]);
      assert record == before + [last];
      assert DataLines([last]) == if IsData(last) then [last] else [];
    }
  }

  /** The reader takes the text out of a data line, however it is spelled; only one space is dropped. */
  lemma SpelledValue(line: string, text: string)
    requires Spells(line, text)
    ensures Value(line) == text
  {
    if line == "data: " + text {
      assert line[5..] == " " + text && " " <= line[5..];
    } else {
      assert line[5..] == text;
    }
  }

  lemma CarriedPayload(record: seq<string>, payload: string)
    requires Carries(record, payload)
    ensures FieldLines(record) != [] && Join(Values(FieldLines(record))) == payload
  {
    var texts := Pieces(payload);
    FieldLinesAreDataLines(record);
    forall i | 0 <= i < |texts|
      ensures Values(DataLines(record))[i] == texts[i]
    {
      SpelledValue(DataLines(record)[i], texts[i]);
    }
    assert Values(DataLines(record)) == texts;
    JoinPieces(payload);
  }

  lemma NotBlank(lines: seq<string>, line: string)
    requires line != ""
    ensures Records(lines + [line]) == Records(lines) && Open(lines + [line]) == Open(lines) + [line]
  {
    assert (lines + [line])[..|lines|] == lines;
  }

  lemma {:induction false} OpenSuffix(lines: seq<string>, record: seq<string>)
    requires "" !in record
    ensures Records(lines + record) == Records(lines) && Open(lines + record) == Open(lines) + record
  {
    if record == [] {
      assert lines + record == lines;
    } else {
      var before, last := record[..|record| - 1], record[|record| - 1];
      assert record == before + [last] && last in record;
      OpenSuffix(lines, before);
      assert lines + record == lines + before + [last];
      NotBlank(lines + before, last);
    }
  }

  lemma {:induction false} RecordsOfStream(records: seq<seq<string>>)
    requires forall r | r in records :: "" !in r
    ensures Records(Stream(records)) == records && Open(Stream(records)) == []
  {
    if records != [] {
      var before, last := records[..|records| - 1], records[|records| - 1];
      RecordsOfStream(before);
      OpenSuffix(Stream(before), last);
      var lines := Stream(before) + last + [""];
      assert lines[..|lines| - 1] == Stream(before) + last;
      assert Records(lines) == Records(Stream(before) + last) + [Open(Stream(before) + last)];
      assert [] + last == last;
      assert before + [last] == records;
    }
  }

  /** The records that carry something carry the payload given; the others have no data line at all. */
  predicate CarryAll(records: seq<seq<string>>, payloads: seq<Option<string>>) {
    && |records| == |payloads|
    && forall i | 0 <= i < |records| ::
         if payloads[i].Some? then Carries(records[i], payloads[i].value) else Bare(records[i])
  }

  /** Comments and metadata only. */
  predicate Bare(record: seq<string>) {
    "" !in record && forall line | line in record :: !IsData(line)
  }

  function Somes(payloads: seq<Option<string>>): seq<string> {
    if payloads == [] then []
    else
      var before, last := Somes(payloads[..|payloads| - 1]), payloads[|payloads| - 1];
      if last.Some? then before + [last.value] else before
  }

  lemma {:induction false} BareHasNoData(record: seq<string>)
    requires forall line | line in record :: !IsData(line)
    ensures FieldLines(record) == []
  {
    if record != [] {
      var before, last := record[..|record| - 1], record[|record| - 1];
      assert record == before + [last] && last in record;
      assert forall line | line in before :: line in record;
      BareHasNoData(before);
    }
  }

  lemma {:induction false} CarriedPayloads(records: seq<seq<string>>, payloads: seq<Option<string>>)
    requires CarryAll(records, payloads)
    ensures Payloads(records) == Somes(payloads)
  {
    if records != [] {
      var n := |records| - 1;
      CarriedPayloads(records[..n], payloads[..n]);
      if payloads[n].Some? {
        CarriedPayload(records[n], payloads[n].value);
      } else {
        BareHasNoData(records[n]);
      }
    }
  }

  // ---------------------------------------------------------------- what survives the split into lines

  /** The payload holds no line break but line feeds. */
  predicate OnlyLineFeeds(payload: string) {
    forall c | c in payload && IsBreak(c) :: c == '\n'
  }

  /** Every line of the record that is no data line is one line for the reader too. */
  predicate MetadataOk(record: seq<string>) {
    forall line | line in record && !IsData(line) :: BreakFree(line)
  }

  lemma {:induction false} JoinOnlyLineFeeds(texts: seq<string>)
    requires forall t | t in texts :: BreakFree(t)
    ensures OnlyLineFeeds(Join(texts))
  {
    if |texts| > 1 {
      JoinOnlyLineFeeds(texts[..|texts| - 1]);
      assert texts[|texts| - 1] in texts;
    } else if |texts| == 1 {
      assert texts[0] in texts;
    }
  }

  lemma {:induction false} FieldLinesAmong(record: seq<string>)
    ensures forall line | line in record && StartsWith(line, FIELD) :: line in FieldLines(record)
    ensures forall line | line in FieldLines(record) :: line in record
  {
    if record != [] {
      FieldLinesAmong(record[..|record| - 1]);
      assert record == record[..|record| - 1] + [record[|record| - 1]];
    }
  }

  lemma {:induction false} StreamAmong(records: seq<seq<string>>)
    ensures forall line | line in Stream(records) :: line == "" || exists r | r in records :: line in r
    ensures forall r, line | r in records && line in r :: line in Stream(records)
  {
    if records != [] {
      StreamAmong(records[..|records| - 1]);
      assert records == records[..|records| - 1] + [records[|records| - 1]];
    }
  }

  /** Whatever lines are read, no payload holds a break but line feeds. */
  lemma {:induction false} ReadOnlyLineFeeds(records: seq<seq<string>>)
    requires forall r, line | r in records && line in r :: BreakFree(line)
    ensures forall p | p in Payloads(records) :: OnlyLineFeeds(p)
  {
    if records != [] {
      var record := records[|records| - 1];
      ReadOnlyLineFeeds(records[..|records| - 1]);
      FieldLinesAmong(record);
      var fields := FieldLines(record);
      forall t | t in Values(fields)
        ensures BreakFree(t)
      {
        var i :| 0 <= i < |fields| && t == Value(fields[i]);
        assert record in records && fields[i] in record;
      }
      JoinOnlyLineFeeds(Values(fields));
    }
  }

  lemma {:induction false} PiecesBreakFree(payload: string)
    requires OnlyLineFeeds(payload)
    ensures forall t | t in Pieces(payload) :: BreakFree(t)
  {
    if payload != "" {
      var rest, c := payload[..|payload| - 1], payload[|payload| - 1];
      assert c in payload;
      PiecesBreakFree(rest);
      var before := Pieces(rest);
      assert before[|before| - 1] in before;
    }
  }

  lemma CarriedIsBreakFree(record: seq<string>, payload: string)
    requires Carries(record, payload) && MetadataOk(record) && OnlyLineFeeds(payload)
    ensures forall line | line in record :: BreakFree(line)
  {
    PiecesBreakFree(payload);
    FieldLinesAmong(record);
    FieldLinesAreDataLines(record);
    forall line | line in record && StartsWith(line, FIELD)
      ensures BreakFree(line)
    {
      var i :| 0 <= i < |DataLines(record)| && line == DataLines(record)[i];
      assert Pieces(payload)[i] in Pieces(payload);
      assert Spells(line, Pieces(payload)[i]);
    }
  }

  lemma EncodedIsBreakFree(records: seq<seq<string>>, payloads: seq<Option<string>>)
    requires CarryAll(records, payloads) && forall i | 0 <= i < |records| :: MetadataOk(records[i])
    requires forall p | p in payloads && p.Some? :: OnlyLineFeeds(p.value)
    ensures forall line | line in Stream(records) :: BreakFree(line)
  {
    StreamAmong(records);
    forall r, line | r in records && line in r
      ensures BreakFree(line)
    {
      var i :| 0 <= i < |records| && records[i] == r;
      assert payloads[i] in payloads;
      if payloads[i].Some? {
        CarriedIsBreakFree(r, payloads[i].value);
      }
    }
  }

  /** No payload that is read from a text holds a break other than the line feed. */
  lemma DecodedOnlyLineFeeds(text: string)
    ensures forall p | p in Payloads(Records(SplitLines(text))) :: OnlyLineFeeds(p)
  {
    var lines := SplitLines(text);
    RecordsPartition(lines);
    StreamAmong(Records(lines));
    assert forall r, line | r in Records(lines) && line in r :: line in lines;
    ReadOnlyLineFeeds(Records(lines));
  }

  lemma DecodeClean(records: seq<seq<string>>, payloads: seq<Option<string>>)
    requires CarryAll(records, payloads) && forall line | line in Stream(records) :: BreakFree(line)
    ensures Payloads(Records(SplitLines(JoinLines(Stream(records))))) == Somes(payloads)
  {
    SplitJoin(Stream(records));
    assert forall r | r in records :: "" !in r;
    RecordsOfStream(records);
    CarriedPayloads(records, payloads);
  }

  lemma {:induction false} InSomes(payloads: seq<Option<string>>, p: string)
    ensures p in Somes(payloads) <==> Some(p) in payloads
  {
    if payloads != [] {
      var before, last := payloads[..|payloads| - 1], payloads[|payloads| - 1];
      InSomes(before, p);
      assert payloads == before + [last];
    }
  }

  /**
   * A list of payloads, each spelled as data lines among any metadata lines, with any records that hold
   * no data in between, is recovered from the text of the stream exactly when no payload holds a
   * line break other than the line feed.
   */
  lemma DecodeEncoded(records: seq<seq<string>>, payloads: seq<Option<string>>)
    requires CarryAll(records, payloads) && forall i | 0 <= i < |records| :: MetadataOk(records[i])
    ensures Payloads(Records(SplitLines(JoinLines(Stream(records))))) == Somes(payloads)
            <==> forall p | p in payloads && p.Some? :: OnlyLineFeeds(p.value)
  {
    if forall p | p in payloads && p.Some? :: OnlyLineFeeds(p.value) {
      EncodedIsBreakFree(records, payloads);
      DecodeClean(records, payloads);
    } else {
      var p :| p in payloads && p.Some? && !OnlyLineFeeds(p.value);
      InSomes(payloads, p.value);
      DecodedOnlyLineFeeds(JoinLines(Stream(records)));
    }
  }

  /**
   * A payload with a break such as U+2028 inside, which section 9.2.6 of the standard takes for
   * ordinary text, is cut there.
   */
  lemma PayloadIsCut(t: string, c: char, u: string)
    requires BreakFree(t) && BreakFree(u) && u != "" && !IsData(u)
    requires IsBreak(c) && c != '\r' && c != '\n'
    ensures Payloads(Records(SplitLines(JoinLines(Stream([["data: " + t + [c] + u]]))))) == [t]
  {
    var first := "data: " + t;
    CutLines(first, c, u);
    OneRecord(first, u);
    OnePayload(first, t, u);
  }

  lemma OnePayload(first: string, t: string, u: string)
    requires first == "data: " + t && !IsData(u)
    ensures Payloads([[first, u]]) == [t]
  {
    FieldLinesSnoc([], first);
    FieldLinesSnoc([first], u);
    assert [] + [first] == [first] && [first] + [u] == [first, u];
    assert FieldLines([first, u]) == [first];
    PayloadsSnoc([], [first, u]);
    OneValue(first, t);
  }

  lemma CutLines(a: string, c: char, b: string)
    requires BreakFree(a) && BreakFree(b) && IsBreak(c) && c != '\r'
    ensures SplitLines(JoinLines(Stream([[a + [c] + b]]))) == [a, b, ""]
  {
    var line := a + [c] + b;
    assert Stream([[line]]) == [line, ""];
    SplitWritten([line, ""]);
    SplitTwo(a, c, b);
    SplitOne("");
    assert [line, ""][1..] == [""] && [""][1..] == [];
  }

  lemma OneRecord(a: string, b: string)
    requires a != "" && b != ""
    ensures Records([a, b, ""]) == [[a, b]]
  {
    assert Stream([[a, b]]) == [a, b, ""];
    RecordsOfStream([[a, b]]);
  }

  lemma OneValue(line: string, t: string)
    requires line == "data: " + t
    ensures Join(Values([line])) == t
  {
    assert line[|FIELD|..] == " " + t;
    assert Value(line) == t;
  }
}
