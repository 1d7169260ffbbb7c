/**
 * Copying tables between two Postgres databases in batches of insert-if-no-conflict, and the
 * verification that follows. A row is a key and its non-key column values; keys are numbered in
 * their sort order. `clash` tells whether two rows of a table, keys included, collide on some UNIQUE
 * constraint other than the key: an insert is skipped on any conflict, not only on a key conflict.
 */
module TableCopy {
  import opened Text
  type Key = int
  type Row = seq<int>
  type Table = map<Key, Row>
  type Clash = ((Key, Row), (Key, Row)) -> bool

  const SAMPLE_SIZE: nat := 1000

  predicate Blocked(t: Table, clash: Clash, k: Key, r: Row) {
    k in t || exists k' | k' in t :: clash((k', t[k']), (k, r))
  }

  function Insert(t: Table, clash: Clash, k: Key, r: Row): Table {
    if Blocked(t, clash, k, r) then t else t[k := r]
  }

  /** Row by row, in the order given. */
  function InsertAll(t: Table, clash: Clash, rows: seq<(Key, Row)>): Table {
    if rows == [] then t
    else
      var last := rows[|rows| - 1];
      Insert(InsertAll(t, clash, rows[..|rows| - 1]), clash, last.0, last.1)
  }

  /** `rows` is the source table, every row once, in whatever order the query yields it. */
  predicate Lists(src: Table, rows: seq<(Key, Row)>) {
    && (forall i | 0 <= i < |rows| :: rows[i].0 in src && src[rows[i].0] == rows[i].1)
    && (forall i, j | 0 <= i < j < |rows| :: rows[i].0 != rows[j].0)
    && (forall k | k in src :: exists i | 0 <= i < |rows| :: rows[i].0 == k)
  }

  /** The source satisfies its own UNIQUE constraints. */
  predicate Consistent(src: Table, clash: Clash) {
    forall k, k' | k in src && k' in src && k != k' :: !clash((k, src[k]), (k', src[k']))
  }

  /** No source row is kept out by a row the target already held under another key. */
  predicate Unobstructed(src: Table, t0: Table, clash: Clash) {
    forall k | k in src :: k in t0 || Admitted(src, t0, clash, k)
  }

  predicate Admitted(src: Table, t0: Table, clash: Clash, k: Key)
    requires k in src
  {
    forall k' | k' in t0 :: !clash((k', t0[k']), (k, src[k]))
  }

  // ---------------------------------------------------------------- the copy loop

  lemma {:induction false} InsertAllConcat(t: Table, clash: Clash, a: seq<(Key, Row)>, b: seq<(Key, Row)>)
    ensures InsertAll(t, clash, a + b) == InsertAll(InsertAll(t, clash, a), clash, b)
  {
    if b == [] {
      assert a + b == a;
    } else {
      assert (a + b)[..|a + b| - 1] == a + b[..|b| - 1];
      InsertAllConcat(t, clash, a, b[..|b| - 1]);
    }
  }

  /** Flushing the rows from `a` to `b` after those before `a` equals inserting all those before `b`. */
  lemma Flushed(t: Table, clash: Clash, rows: seq<(Key, Row)>, a: nat, b: nat)
    requires a <= b <= |rows|
    ensures InsertAll(InsertAll(t, clash, rows[..a]), clash, rows[a..b]) == InsertAll(t, clash, rows[..b])
  {
    assert rows[..a] + rows[a..b] == rows[..b];
    InsertAllConcat(t, clash, rows[..a], rows[a..b]);
  }

  lemma OneMore(batches: nat, batchSize: nat)
    ensures (batches + 1) * batchSize == batches * batchSize + batchSize
  {
  }

  class Database {
    var tables: map<string, Table>
    const clash: string -> Clash // every table has its own constraints

    /** One batch in its own transaction: all of it, or, when the transaction fails, none of it. */
    method FlushBatch(name: string, batch: seq<(Key, Row)>) returns (ok: bool)
      requires name in tables
      modifies this
      ensures tables == if ok then old(tables)[name := InsertAll(old(tables[name]), clash(name), batch)]
                        else old(tables)
      ensures batch == [] ==> ok
    {
      if batch == [] {
        assert tables[name := tables[name]] == tables;
        return true;
      }
      ok := *;
      if !ok {
        return;
      }
      var table := tables[name];
      for i := 0 to |batch|
        invariant table == InsertAll(tables[name], clash(name), batch[..i])
      {
        assert batch[..i + 1][..i] == batch[..i];
        table := Insert(table, clash(name), batch[i].0, batch[i].1);
      }
      assert batch[..|batch|] == batch;
      tables := tables[name := table];
    }

    /** The database after the first `n` rows have been inserted into one table. */
    ghost function CopiedTo(before: map<string, Table>, name: string, rows: seq<(Key, Row)>, n: nat): map<string, Table>
      requires name in before && n <= |rows|
    {
      before[name := InsertAll(before[name], clash(name), rows[..n])]
    }

    lemma FlushedTo(before: map<string, Table>, name: string, rows: seq<(Key, Row)>, a: nat, b: nat)
      requires name in before && a <= b <= |rows|
      ensures var was := CopiedTo(before, name, rows, a);
              was[name := InsertAll(was[name], clash(name), rows[a..b])] == CopiedTo(before, name, rows, b)
    {
      Flushed(before[name], clash(name), rows, a, b);
    }

    /**
     * Stream one table. For every batch size the effect is that of inserting row by row the
     * first `copied` rows; a run that is not aborted copies them all, and an aborted one stops
     * at a batch boundary.
     */
    method CopyTable(name: string, rows: seq<(Key, Row)>, batchSize: nat)
      returns (ok: bool, ghost copied: nat, ghost batches: nat)
      requires name in tables && batchSize > 0
      modifies this
      ensures copied <= |rows|
      ensures if ok then copied == |rows| else copied == batches * batchSize
      ensures tables == CopiedTo(old(tables), name, rows, copied)
    {
      var batch := [];
      copied, batches := 0, 0;
      ghost var before := tables;
      assert tables == CopiedTo(before, name, rows, 0);
      for i := 0 to |rows|
        invariant copied == batches * batchSize && copied <= i
        invariant batch == rows[copied..i] && |batch| < batchSize
        invariant tables == CopiedTo(before, name, rows, copied)
      {
        var readFails: bool := *;
        if readFails {
          return false, copied, batches;
        }
        batch := batch + [rows[i]];
        assert batch == rows[copied..i + 1];
        if |batch| >= batchSize {
          ok := FlushBatch(name, batch);
          if !ok {
            return false, copied, batches;
          }
          FlushedTo(before, name, rows, copied, i + 1);
          OneMore(batches, batchSize);
          batch, batches, copied := [], batches + 1, i + 1;
        }
      }
      ok := FlushBatch(name, batch);
      if ok {
        FlushedTo(before, name, rows, copied, |rows|);
        copied := |rows|;
      }
    }

    /** The table holds what it held before and the first `n` rows of its stream, inserted one by one. */
    ghost predicate RowsIn(before: map<string, Table>, now: map<string, Table>,
                           streams: map<string, seq<(Key, Row)>>, name: string, n: nat)
    {
      && name in streams && name in before && name in now && n <= |streams[name]|
      && now[name] == InsertAll(before[name], clash(name), streams[name][..n])
    }

    /** So it is with the first `|copied|` tables in `names`; every other table is as it was. */
    ghost predicate Copied(before: map<string, Table>, now: map<string, Table>, names: seq<string>,
                           streams: map<string, seq<(Key, Row)>>, copied: seq<nat>)
    {
      && now.Keys == before.Keys && |copied| <= |names|
      && (forall i | 0 <= i < |copied| :: RowsIn(before, now, streams, names[i], copied[i]))
      && (forall name | name in now && name !in names[..|copied|] :: now[name] == before[name])
    }

    /** Every stream was copied to its end. */
    ghost predicate AllRows(names: seq<string>, streams: map<string, seq<(Key, Row)>>, copied: seq<nat>) {
      forall i | 0 <= i < |copied| && i < |names| :: names[i] in streams && copied[i] == |streams[names[i]]|
    }

    lemma RowsStayIn(before: map<string, Table>, was: map<string, Table>, now: map<string, Table>,
                     streams: map<string, seq<(Key, Row)>>, name: string, n: nat)
      requires RowsIn(before, was, streams, name, n) && name in now && now[name] == was[name]
      ensures RowsIn(before, now, streams, name, n)
    {
    }

    lemma AllRowsOneMore(names: seq<string>, streams: map<string, seq<(Key, Row)>>, copied: seq<nat>)
      requires AllRows(names, streams, copied) && |copied| < |names| && names[|copied|] in streams
      ensures AllRows(names, streams, copied + [|streams[names[|copied|]]|])
    {
    }

    lemma OneMoreTable(before: map<string, Table>, was: map<string, Table>, now: map<string, Table>, names: seq<string>,
                       streams: map<string, seq<(Key, Row)>>, copied: seq<nat>, n: nat)
      requires Copied(before, was, names, streams, copied) && |copied| < |names|
      requires Distinct(names)
      requires names[|copied|] in streams && names[|copied|] in was && n <= |streams[names[|copied|]]|
      requires now == CopiedTo(was, names[|copied|], streams[names[|copied|]], n)
      ensures Copied(before, now, names, streams, copied + [n])
    {
      var i, name := |copied|, names[|copied|];
      assert names[..i + 1] == names[..i] + [name] && name !in names[..i];
      forall other | other in now && other !in names[..i + 1]
        ensures now[other] == before[other]
      {
        assert other != name && other !in names[..i];
      }
      assert RowsIn(before, now, streams, name, n);
      forall j | 0 <= j < i
        ensures RowsIn(before, now, streams, names[j], copied[j])
      {
        RowsStayIn(before, was, now, streams, names[j], copied[j]);
      }
    }

    /**
     * All tables in dependency order; the first failure, or a table missing on either side, ends the
     * run. `copied` counts the rows per table reached.
     */
    method CopyAll(names: seq<string>, streams: map<string, seq<(Key, Row)>>, batchSize: nat)
      returns (ok: bool, ghost copied: seq<nat>)
      requires batchSize > 0
      requires Distinct(names)
      modifies this
      ensures Copied(old(tables), tables, names, streams, copied)
      ensures ok ==> |copied| == |names| && AllRows(names, streams, copied)
    {
      copied := [];
      for i := 0 to |names|
        invariant |copied| == i && Copied(old(tables), tables, names, streams, copied)
        invariant AllRows(names, streams, copied)
      {
        if names[i] !in streams || names[i] !in tables {
          return false, copied;
        }
        ghost var n: nat, batches: nat, was := 0, 0, tables;
        ok, n, batches := CopyTable(names[i], streams[names[i]], batchSize);
        OneMoreTable(old(tables), was, tables, names, streams, copied, n);
        AllRowsOneMore(names, streams, copied);
        copied := copied + [n];
        if !ok {
          return;
        }
      }
      ok := true;
    }

    /** A complete copy of all tables in which the verification finds nothing settles every table. */
    lemma VerifiedSettles(plan: Plan, before: map<string, Table>, now: map<string, Table>, copied: seq<nat>)
      requires PlanOk(plan, clash, before)
      requires Copied(before, now, plan.names, plan.streams, copied)
      requires |copied| == |plan.names| && AllRows(plan.names, plan.streams, copied)
      requires forall name | name in plan.names :: Verified(plan.source, now, plan.widths, name)
      ensures AllSettled(plan, clash, before, now)
    {
      forall name | name in plan.names
        ensures && name in plan.source && name in before && name in now
                && Settled(plan.source[name], before[name], now[name], clash(name))
      {
        var i :| 0 <= i < |plan.names| && plan.names[i] == name;
        var rows := plan.streams[name];
        assert RowsIn(before, now, plan.streams, plan.names[i], copied[i]);
        assert Verified(plan.source, now, plan.widths, name) && rows[..|rows|] == rows;
        VerifiedCopy(plan.source[name], before[name], clash(name), rows, plan.widths[name]);
      }
    }

    /**
     * The data steps of a migration: copy every table, then verify every table. If the copy is complete
     * and the verification has no findings, every table is settled; the others are untouched.
     */
    method CopyThenVerify(plan: Plan) returns (ok: bool, verdict: Verdict)
      requires PlanOk(plan, clash, tables)
      modifies this
      ensures tables.Keys == old(tables.Keys)
      ensures forall name | name in tables && name !in plan.names :: tables[name] == old(tables)[name]
      ensures ok && verdict == Diffs([]) ==> AllSettled(plan, clash, old(tables), tables)
    {
      verdict := Diffs([]);
      ghost var before := tables;
      ghost var copied: seq<nat>;
      ok, copied := CopyAll(plan.names, plan.streams, plan.batchSize);
      if !ok {
        return;
      }
      verdict := VerifyTables(plan.names, plan.widths, plan.source, tables);
      if verdict == Diffs([]) {
        VerifiedSettles(plan, before, tables, copied);
      }
    }
  }

  // ---------------------------------------------------------------- what a copy leaves behind

  ghost predicate Seen(rows: seq<(Key, Row)>, n: nat, k: Key)
    requires n <= |rows|
  {
    exists i | 0 <= i < n :: rows[i].0 == k
  }

  /** What the target holds after `n` rows: what it held, plus the source rows that nothing obstructs. */
  ghost predicate Holds(src: Table, t0: Table, clash: Clash, rows: seq<(Key, Row)>, n: nat, t: Table)
    requires n <= |rows|
  {
    && (forall k :: k in t <==> k in t0 || (k in src && Seen(rows, n, k) && Admitted(src, t0, clash, k)))
    && (forall k | k in t :: if k in t0 then t[k] == t0[k] else k in src && t[k] == src[k])
  }

  lemma SeenOneMore(rows: seq<(Key, Row)>, n: nat, k: Key)
    requires n < |rows|
    ensures Seen(rows, n + 1, k) <==> Seen(rows, n, k) || k == rows[n].0
  {
    if k == rows[n].0 {
      assert Seen(rows, n + 1, k);
    }
  }

  /** The next row is kept out exactly when the starting target keeps it out. */
  lemma BlockedByStart(src: Table, t0: Table, clash: Clash, rows: seq<(Key, Row)>, n: nat, t: Table)
    requires Lists(src, rows) && Consistent(src, clash) && n < |rows| && Holds(src, t0, clash, rows, n, t)
    ensures Blocked(t, clash, rows[n].0, rows[n].1) <==> rows[n].0 in t0 || !Admitted(src, t0, clash, rows[n].0)
  {
    var k := rows[n].0;
    assert !Seen(rows, n, k);
    if k !in t0 && !Admitted(src, t0, clash, k) {
      var k' :| k' in t0 && clash((k', t0[k']), (k, src[k]));
      assert k' in t;
    }
  }

  lemma {:induction false} CopyContents(src: Table, t0: Table, clash: Clash, rows: seq<(Key, Row)>, n: nat)
    requires Lists(src, rows) && Consistent(src, clash) && n <= |rows|
    ensures Holds(src, t0, clash, rows, n, InsertAll(t0, clash, rows[..n]))
  {
    if n > 0 {
      CopyContents(src, t0, clash, rows, n - 1);
      var before := InsertAll(t0, clash, rows[..n - 1]);
      assert rows[..n][..n - 1] == rows[..n - 1];
      BlockedByStart(src, t0, clash, rows, n - 1, before);
      forall k
        ensures Seen(rows, n, k) <==> Seen(rows, n - 1, k) || k == rows[n - 1].0
      {
        SeenOneMore(rows, n - 1, k);
      }
    }
  }

  /** A complete copy covers the source keys exactly when no foreign row of the target obstructs one. */
  lemma CopyCovers(src: Table, t0: Table, clash: Clash, rows: seq<(Key, Row)>)
    requires Lists(src, rows) && Consistent(src, clash)
    ensures src.Keys <= InsertAll(t0, clash, rows).Keys <==> Unobstructed(src, t0, clash)
  {
    var t := InsertAll(t0, clash, rows);
    CopyContents(src, t0, clash, rows, |rows|);
    assert rows[..|rows|] == rows;
    assert forall k | k in src :: Seen(rows, |rows|, k);
    if Unobstructed(src, t0, clash) {
      assert forall k | k in src :: k in t;
    } else {
      var k :| k in src && k !in t0 && !Admitted(src, t0, clash, k);
      assert k !in t.Keys;
    }
  }

  // ---------------------------------------------------------------- interrupted runs

  predicate PartOf(t: Table, src: Table) {
    forall k | k in t :: k in src && t[k] == src[k]
  }

  /** A run that was aborted after `copied` rows of its own enumeration of the source. */
  datatype Aborted = Aborted(rows: seq<(Key, Row)>, copied: nat)

  function AfterRuns(t: Table, clash: Clash, runs: seq<Aborted>): Table
    requires forall i | 0 <= i < |runs| :: runs[i].copied <= |runs[i].rows|
  {
    if runs == [] then t
    else
      var last := runs[|runs| - 1];
      InsertAll(AfterRuns(t, clash, runs[..|runs| - 1]), clash, last.rows[..last.copied])
  }

  lemma PartStaysPart(src: Table, t: Table, clash: Clash, rows: seq<(Key, Row)>, n: nat)
    requires Lists(src, rows) && Consistent(src, clash) && n <= |rows| && PartOf(t, src)
    ensures PartOf(InsertAll(t, clash, rows[..n]), src)
  {
    CopyContents(src, t, clash, rows, n);
  }

  /** Some run had copied the row before it was aborted. */
  ghost predicate CopiedBySome(runs: seq<Aborted>, k: Key)
    requires forall i | 0 <= i < |runs| :: runs[i].copied <= |runs[i].rows|
  {
    exists i | 0 <= i < |runs| :: Seen(runs[i].rows, runs[i].copied, k)
  }

  lemma CopiedBySomeSnoc(runs: seq<Aborted>, k: Key)
    requires runs != [] && forall i | 0 <= i < |runs| :: runs[i].copied <= |runs[i].rows|
    ensures var n := |runs| - 1;
            CopiedBySome(runs, k) <==> CopiedBySome(runs[..n], k) || Seen(runs[n].rows, runs[n].copied, k)
  {
    var n := |runs| - 1;
    assert forall i | 0 <= i < n :: runs[i] == runs[..n][i];
    if CopiedBySome(runs[..n], k) {
      var i :| 0 <= i < n && Seen(runs[..n][i].rows, runs[..n][i].copied, k);
      assert Seen(runs[i].rows, runs[i].copied, k);
    }
  }

  lemma OneRunAdds(src: Table, t: Table, clash: Clash, rows: seq<(Key, Row)>, n: nat, k: Key)
    requires Consistent(src, clash) && PartOf(t, src) && Lists(src, rows) && n <= |rows|
    ensures k in InsertAll(t, clash, rows[..n]) <==> k in t || Seen(rows, n, k)
  {
    CopyContents(src, t, clash, rows, n);
    if k in src && k !in t {
      assert Admitted(src, t, clash, k);
    }
  }

  /** What aborted runs leave adds up: every row that some run had copied before it was aborted, and no other. */
  lemma {:induction false} RunsAddUp(src: Table, t: Table, clash: Clash, runs: seq<Aborted>, k: Key)
    requires Consistent(src, clash) && PartOf(t, src)
    requires forall i | 0 <= i < |runs| :: runs[i].copied <= |runs[i].rows| && Lists(src, runs[i].rows)
    ensures PartOf(AfterRuns(t, clash, runs), src)
    ensures k in AfterRuns(t, clash, runs) <==> k in t || CopiedBySome(runs, k)
  {
    if runs != [] {
      var n := |runs| - 1;
      RunsAddUp(src, t, clash, runs[..n], k);
      var t' := AfterRuns(t, clash, runs[..n]);
      PartStaysPart(src, t', clash, runs[n].rows, runs[n].copied);
      OneRunAdds(src, t', clash, runs[n].rows, runs[n].copied, k);
      CopiedBySomeSnoc(runs, k);
    }
  }

  /** A complete run from part of the source gives the source. */
  lemma CompleteRun(src: Table, t: Table, clash: Clash, rows: seq<(Key, Row)>)
    requires Consistent(src, clash) && PartOf(t, src) && Lists(src, rows)
    ensures InsertAll(t, clash, rows) == src
  {
    var done := InsertAll(t, clash, rows);
    assert rows[..|rows|] == rows;
    PartStaysPart(src, t, clash, rows, |rows|);
    CopyCovers(src, t, clash, rows);
    assert Unobstructed(src, t, clash);
    WholePart(done, src);
  }

  lemma WholePart(t: Table, src: Table)
    requires PartOf(t, src) && src.Keys <= t.Keys
    ensures t == src
  {
    assert forall k | k in t.Keys :: k in src.Keys;
    assert t.Keys == src.Keys;
    assert forall k | k in src.Keys :: t[k] == src[k];
  }

  /** Any number of aborted runs, then one complete run, from a target holding part of the source: equality. */
  lemma {:induction false} RetriesConverge(src: Table, t: Table, clash: Clash, runs: seq<Aborted>,
                                           rows: seq<(Key, Row)>)
    requires Consistent(src, clash) && PartOf(t, src) && Lists(src, rows)
    requires forall i | 0 <= i < |runs| :: runs[i].copied <= |runs[i].rows| && Lists(src, runs[i].rows)
    ensures PartOf(AfterRuns(t, clash, runs), src)
    ensures InsertAll(AfterRuns(t, clash, runs), clash, rows) == src
  {
    if runs != [] {
      var before, last := runs[..|runs| - 1], runs[|runs| - 1];
      RetriesConverge(src, t, clash, before, rows);
      PartStaysPart(src, AfterRuns(t, clash, before), clash, last.rows, last.copied);
    }
    CompleteRun(src, AfterRuns(t, clash, runs), clash, rows);
  }

  // ---------------------------------------------------------------- verification

  lemma {:induction false} MinExists(s: set<Key>)
    requires s != {}
    ensures exists m | m in s :: forall x | x in s :: m <= x
  {
    var _ := SomeMin(s);
  }

  lemma {:induction false} SomeMin(s: set<Key>) returns (m: Key)
    requires s != {}
    ensures m in s && forall x | x in s :: m <= x
    decreases |s|
  {
    if !(exists k :: k in s) {
      assert false;
    }
    var x :| x in s;
    m := x;
    var rest := s - {x};
    assert s == {x} + rest;
    if rest != {} {
      var r := SomeMin(rest);
      if r < m {
        m := r;
      }
    }
  }

  function Min(s: set<Key>): (m: Key)
    requires s != {}
    ensures m in s && forall x | x in s :: m <= x
  {
    MinExists(s);
    var m :| m in s && forall x | x in s :: m <= x;
    m
  }

  /** The keys in key order. */
  function SortedKeys(s: set<Key>): (keys: seq<Key>)
    ensures |keys| == |s|
    ensures forall k :: k in keys <==> k in s
  {
    if s == {} then [] else
      var m := Min(s);
      assert s == {m} + (s - {m});
      [m] + SortedKeys(s - {m})
  }

  lemma SortedKeysFirst(s: set<Key>) returns (m: Key, rest: set<Key>)
    requires s != {}
    ensures SortedKeys(s) == [m] + SortedKeys(rest) && |rest| == |s| - 1
    ensures forall k | k in SortedKeys(rest) :: m < k
  {
    m := Min(s);
    rest := s - {m};
  }

  lemma {:induction false} SortedKeysIncrease(s: set<Key>, i: nat, j: nat)
    requires i < j < |s|
    ensures SortedKeys(s)[i] < SortedKeys(s)[j]
    decreases i
  {
    var m, rest := SortedKeysFirst(s);
    if i > 0 {
      SortedKeysIncrease(rest, i - 1, j - 1);
    } else {
      assert SortedKeys(rest)[j - 1] in SortedKeys(rest);
    }
  }

  /**
   * What the content digest is taken over: the non-key values of the first `SAMPLE_SIZE` rows in
   * key order. A digest without collisions is identified with what it digests.
   */
  function Sample(t: Table, width: nat): seq<Row> {
    if width == 0 then [] // no non-key column: a constant stands for the digest
    else
      var keys := SortedKeys(t.Keys);
      seq(if |keys| < SAMPLE_SIZE then |keys| else SAMPLE_SIZE, i requires 0 <= i < |keys| => t[keys[i]])
  }

  predicate Matches(src: Table, t: Table, width: nat) {
    |src| == |t| && Sample(src, width) == Sample(t, width)
  }

  datatype Diff = RowCount(table: string) | ContentDrift(table: string)

  datatype Verdict = Diffs(diffs: seq<Diff>) | TableMissing(table: string)

  predicate Verified(source: map<string, Table>, target: map<string, Table>, widths: map<string, nat>, name: string)
    requires name in widths
  {
    name in source && name in target && Matches(source[name], target[name], widths[name])
  }

  /** A finding: a count that differs, or, where counts agree, a sample that does. */
  predicate Finding(names: seq<string>, widths: map<string, nat>,
                    source: map<string, Table>, target: map<string, Table>, d: Diff)
    requires forall name | name in names :: name in widths
  {
    && d.table in names && d.table in source && d.table in target
    && (d.RowCount? <==> |source[d.table]| != |target[d.table]|)
    && (d.ContentDrift? ==> Sample(source[d.table], widths[d.table]) != Sample(target[d.table], widths[d.table]))
  }

  /** No findings means that every table is verified. */
  lemma FindingsTell(names: seq<string>, widths: map<string, nat>,
                     source: map<string, Table>, target: map<string, Table>, diffs: seq<Diff>)
    requires forall name | name in names :: name in widths && name in source && name in target
    requires forall d :: d in diffs <==> Finding(names, widths, source, target, d)
    ensures diffs == [] <==> forall name | name in names :: Verified(source, target, widths, name)
  {
    if diffs == [] {
      forall name | name in names
        ensures Verified(source, target, widths, name)
      {
        assert !Finding(names, widths, source, target, RowCount(name));
        assert !Finding(names, widths, source, target, ContentDrift(name));
      }
    } else {
      assert diffs[0] in diffs;
      assert !Verified(source, target, widths, diffs[0].table);
    }
  }

  lemma InOneMore(names: seq<string>, i: nat)
    requires i < |names|
    ensures forall name :: name in names[..i + 1] <==> name in names[..i] || name == names[i]
  {
    assert names[..i + 1] == names[..i] + [names[i]];
  }

  /** Compare counts, then samples, table by table; a table missing on either side is an error. */
  method VerifyTables(names: seq<string>, widths: map<string, nat>,
                      source: map<string, Table>, target: map<string, Table>)
    returns (verdict: Verdict)
    requires forall name | name in names :: name in widths
    ensures verdict.TableMissing? <==> exists name | name in names :: name !in source || name !in target
    ensures verdict == Diffs([]) <==> forall name | name in names :: Verified(source, target, widths, name)
    ensures verdict.TableMissing? ==>
              verdict.table in names && (verdict.table !in source || verdict.table !in target)
    ensures verdict.Diffs? ==> forall d :: d in verdict.diffs <==> Finding(names, widths, source, target, d)
  {
    var diffs := [];
    for i := 0 to |names|
      invariant forall name | name in names[..i] :: name in source && name in target
      invariant forall d :: d in diffs <==> Finding(names[..i], widths, source, target, d)
    {
      var name := names[i];
      assert name in names;
      InOneMore(names, i);
      if name !in source || name !in target {
        return TableMissing(name);
      }
      if |source[name]| != |target[name]| {
        diffs := diffs + [RowCount(name)];
      } else if Sample(source[name], widths[name]) != Sample(target[name], widths[name]) {
        diffs := diffs + [ContentDrift(name)];
      }
    }
    assert names[..|names|] == names;
    FindingsTell(names, widths, source, target, diffs);
    verdict := Diffs(diffs);
  }

  lemma SubsetOfEqualSize(a: set<Key>, b: set<Key>)
    requires a <= b && |a| == |b|
    ensures a == b
  {
    assert b == a + (b - a);
    assert |b| == |a| + |b - a|;
    assert b - a == {};
  }

  predicate HasWidth(t: Table, width: nat) {
    forall k | k in t :: |t[k]| == width
  }

  /**
   * A table after a complete copy and a verification without findings. Its keys are those of the source
   * exactly when no foreign row of the starting target obstructed a source row; and in that case
   * the rows agree on the first `SAMPLE_SIZE` keys, so a table of at most that many rows is
   * identical to its source.
   */
  ghost predicate Settled(src: Table, t0: Table, t: Table, clash: Clash) {
    && (src.Keys == t.Keys <==> Unobstructed(src, t0, clash))
    && (Unobstructed(src, t0, clash) ==>
          && (forall i | 0 <= i < |src| && i < SAMPLE_SIZE ::
                var k := SortedKeys(src.Keys)[i]; k in t && t[k] == src[k])
          && (|src| <= SAMPLE_SIZE ==> t == src))
  }

  /** The tables to copy, what the source holds, the rows in the order it yields them, and the column counts. */
  datatype Plan = Plan(
    names: seq<string>, source: map<string, Table>, streams: map<string, seq<(Key, Row)>>,
    widths: map<string, nat>, batchSize: nat)

  /** The streams are those of the source, and both sides keep their schema. */
  ghost predicate PlanOk(plan: Plan, clash: string -> Clash, t0: map<string, Table>) {
    && plan.batchSize > 0
    && Distinct(plan.names)
    && (forall name | name in plan.names :: name in plan.widths)
    && (forall name | name in plan.names && name in plan.source ::
          && name in plan.streams && Lists(plan.source[name], plan.streams[name])
          && Consistent(plan.source[name], clash(name)) && HasWidth(plan.source[name], plan.widths[name]))
    && (forall name | name in plan.names && name in t0 :: HasWidth(t0[name], plan.widths[name]))
  }

  /** Every table is settled, from what the target held at first to what it holds now. */
  ghost predicate AllSettled(plan: Plan, clash: string -> Clash, t0: map<string, Table>, t: map<string, Table>) {
    forall name | name in plan.names ::
      && name in plan.source && name in t0 && name in t
      && Settled(plan.source[name], t0[name], t[name], clash(name))
  }

  lemma VerifiedCopy(src: Table, t0: Table, clash: Clash, rows: seq<(Key, Row)>, width: nat)
    requires Lists(src, rows) && Consistent(src, clash)
    requires Matches(src, InsertAll(t0, clash, rows), width)
    requires HasWidth(src, width) && HasWidth(t0, width)
    ensures Settled(src, t0, InsertAll(t0, clash, rows), clash)
  {
    var t := InsertAll(t0, clash, rows);
    CopyCovers(src, t0, clash, rows);
    CopyContents(src, t0, clash, rows, |rows|);
    assert rows[..|rows|] == rows;
    if Unobstructed(src, t0, clash) {
      assert |src.Keys| == |t.Keys|;
      SubsetOfEqualSize(src.Keys, t.Keys);
      SameSample(src, t, width);
    }
  }

  /** The sample is the first thousand rows in key order, all of them when there are fewer. */
  lemma SampleIs(t: Table, width: nat, i: nat)
    ensures width == 0 ==> Sample(t, width) == []
    ensures width > 0 ==> |Sample(t, width)| == if |t| < 1000 then |t| else 1000
    ensures i < |Sample(t, width)| ==> Sample(t, width)[i] == t[SortedKeys(t.Keys)[i]]
  {
    assert |SortedKeys(t.Keys)| == |t.Keys| == |t|;
  }

  /** What was copied and verified is the source, for tables of up to a thousand rows. */
  lemma SmallTablesIdentical(src: Table, t0: Table, clash: Clash, rows: seq<(Key, Row)>, width: nat)
    requires Lists(src, rows) && Consistent(src, clash) && Unobstructed(src, t0, clash)
    requires Matches(src, InsertAll(t0, clash, rows), width)
    requires HasWidth(src, width) && HasWidth(t0, width) && |src| <= 1000
    ensures InsertAll(t0, clash, rows) == src
  {
    VerifiedCopy(src, t0, clash, rows, width);
  }

  /** Whatever the rows behind the first thousand keys hold, verification does not see it. */
  lemma BeyondTheSample(src: Table, t: Table, width: nat)
    requires src.Keys == t.Keys
    requires forall i | 0 <= i < |src| && i < 1000 ::
               var k := SortedKeys(src.Keys)[i]; k in SortedKeys(src.Keys) && src[k] == t[k]
    ensures Matches(src, t, width)
  {
    assert |src| == |src.Keys| == |t.Keys| == |t|;
    if width > 0 {
      forall i | 0 <= i < |Sample(src, width)|
        ensures Sample(src, width)[i] == Sample(t, width)[i]
      {
        SampleIs(src, width, i);
        SampleIs(t, width, i);
        assert SortedKeys(src.Keys)[i] in SortedKeys(src.Keys);
      }
      assert Sample(src, width) == Sample(t, width);
    }
  }

  lemma SameSample(src: Table, t: Table, width: nat)
    requires src.Keys == t.Keys && Matches(src, t, width) && HasWidth(src, width) && HasWidth(t, width)
    ensures forall i | 0 <= i < |src| && i < SAMPLE_SIZE ::
              var k := SortedKeys(src.Keys)[i]; k in t && t[k] == src[k]
    ensures |src| <= SAMPLE_SIZE ==> t == src
  {
    var keys := SortedKeys(src.Keys);
    assert |keys| == |src|;
    forall i | 0 <= i < |src| && i < SAMPLE_SIZE
      ensures keys[i] in t && t[keys[i]] == src[keys[i]]
    {
      assert keys[i] in keys;
      if width > 0 {
        assert Sample(src, width)[i] == src[keys[i]];
        assert Sample(t, width)[i] == t[keys[i]];
      }
    }
    if |src| <= SAMPLE_SIZE {
      forall k | k in src
        ensures t[k] == src[k]
      {
        var i :| 0 <= i < |keys| && keys[i] == k;
      }
    }
  }

  /**
   * The obstruction is real: a target seeded with the same content under another key survives the
   * copy and passes the verification, although it never received the source's key.
   */
  lemma VerifyMissesForeignKey()
    ensures var src: Table := map[1 := [7]];
            var t0: Table := map[2 := [7]];
            var clash: Clash := (a: (Key, Row), b: (Key, Row)) => a.1 == b.1;
            var t := InsertAll(t0, clash, [(1, [7])]);
            && Lists(src, [(1, [7])]) && Consistent(src, clash) && Matches(src, t, 1) && src.Keys != t.Keys
  {
    var src: Table := map[1 := [7]];
    var t0: Table := map[2 := [7]];
    var clash: Clash := (a: (Key, Row), b: (Key, Row)) => a.1 == b.1;
    var rows: seq<(Key, Row)> := [(1, [7])];
    assert rows[..0] == [];
    assert clash((2, t0[2]), (1, [7]));
    assert InsertAll(t0, clash, rows) == t0;
    assert rows[0].0 == 1;
    assert 1 in src.Keys && 1 !in t0.Keys;
    assert src.Keys == {1} && t0.Keys == {2};
    assert SortedKeys(src.Keys) == [1] && SortedKeys(t0.Keys) == [2];
    assert Sample(src, 1) == [[7]] && Sample(t0, 1) == [[7]];
  }
}
