/**
 * The sweep of expired snapshots: a scan without the lock, then a second look under it. Everybody
 * else (installs, refreshes) changes snapshots only while holding the lock, so anything may happen
 * to them between any two reads of the scan, and nothing while the sweep holds the lock. The sweep is
 * given as a small-step machine, whose runs are all interleavings, and as the program itself, which
 * is proved to be a run of the machine.
 */
module SnapshotSweep {
  import opened Storage
  import opened Text

  /** The `expires_at` field: no TTL, no readable instant, no text at all, or an instant. */
  datatype Expiry = NoExpiry | Unparsable | Mistyped | At(instant: int)

  /** A `<stem>.meta.json` file: no UTF-8, no snapshot record, or one; the name in it need not be the stem. */
  datatype Meta = Undecodable | Corrupt | Meta(name: string, expiry: Expiry)

  datatype Dir = Dir(metas: map<string, Meta>, parquets: set<string>)

  datatype Outcome = Swept(names: seq<string>) | Raised

  predicate Expired(m: Meta, now: int) {
    m.Meta? && m.expiry.At? && m.expiry.instant <= now
  }

  predicate HasMistypedExpiry(m: Meta) {
    m.Meta? && m.expiry == Mistyped
  }

  /** The snapshot is there and expired. */
  predicate Doomed(d: Dir, now: int, name: string) {
    name in d.metas && Expired(d.metas[name], now)
  }

  /** The snapshot's sidecar is there and a second look at it raises. */
  predicate Unfit(d: Dir, name: string) {
    name in d.metas && (!d.metas[name].Meta? || HasMistypedExpiry(d.metas[name]))
  }

  function Without(d: Dir, names: set<string>): Dir {
    Dir(d.metas - names, d.parquets - names)
  }

  function Names(names: seq<string>): set<string> {
    set name | name in names
  }

  /** A listing of the directory: every sidecar, in whatever order. */
  predicate Lists(stems: seq<string>, d: Dir) {
    Names(stems) == d.metas.Keys
  }

  /** The names, in order, of the snapshots among `found` that were expired. */
  function ExpiredNames(found: seq<Meta>, now: int): seq<string> {
    if found == [] then []
    else
      var before, last := ExpiredNames(found[..|found| - 1], now), found[|found| - 1];
      if Expired(last, now) then before + [last.name] else before
  }

  lemma {:induction false} InExpiredNames(found: seq<Meta>, now: int, name: string)
    ensures name in ExpiredNames(found, now) <==> exists m | m in found :: Expired(m, now) && m.name == name
  {
    if found != [] {
      var before, last := found[..|found| - 1], found[|found| - 1];
      InExpiredNames(before, now, name);
      assert found == before + [last];
    }
  }

  // ---------------------------------------------------------------- the machine

  datatype Pc = Listing | Reading | Waiting | Looking | Done(outcome: Outcome)

  /** The directory and the sweep's variables; it holds the lock while `Looking`. */
  datatype State = State(
    dir: Dir, pc: Pc, stems: seq<string>, found: seq<Meta>, scanned: int,
    expired: seq<string>, now: int, looked: nat, swept: seq<string>)

  datatype Event =
    | Other(dir: Dir)          // another process leaves the directory like this
    | List(stems: seq<string>)
    | Read                     // the next listed sidecar
    | Judge(now: int)          // the clock is read and every sidecar found is judged
    | Lock(now: int)           // the lock is taken and the clock read again
    | Look                     // the next scanned name, or the release when none is left

  function Start(d: Dir): State {
    State(d, Listing, [], [], 0, [], 0, 0, [])
  }

  function NextRead(s: State): State
    requires |s.found| < |s.stems|
  {
    var stem := s.stems[|s.found|];
    if stem !in s.dir.metas || s.dir.metas[stem] == Undecodable then s.(pc := Done(Raised))
    else s.(found := s.found + [s.dir.metas[stem]])
  }

  function NextJudge(s: State, now: int): State {
    if exists m | m in s.found :: HasMistypedExpiry(m) then s.(pc := Done(Raised), scanned := now)
    else
      var expired := ExpiredNames(s.found, now);
      s.(pc := if expired == [] then Done(Swept([])) else Waiting, scanned := now, expired := expired)
  }

  function NextLook(s: State): State {
    if s.looked >= |s.expired| then s.(pc := Done(Swept(s.swept)))
    else
      var name := s.expired[s.looked];
      if Unfit(s.dir, name) then s.(pc := Done(Raised))
      else if !Doomed(s.dir, s.now, name) then s.(looked := s.looked + 1)
      else s.(dir := Without(s.dir, {name}), looked := s.looked + 1, swept := s.swept + [name])
  }

  /** An event that does not apply to the state does nothing; others cannot act while the lock is held. */
  function Next(s: State, e: Event): State {
    match e
    case Other(dir) => if s.pc == Looking then s else s.(dir := dir)
    case List(stems) => if s.pc == Listing && Lists(stems, s.dir) then s.(pc := Reading, stems := stems) else s
    case Read => if s.pc == Reading && |s.found| < |s.stems| then NextRead(s) else s
    case Judge(now) => if s.pc == Reading && |s.found| == |s.stems| then NextJudge(s, now) else s
    case Lock(now) => if s.pc == Waiting then s.(pc := Looking, now := now) else s
    case Look => if s.pc == Looking then NextLook(s) else s
  }

  function Run(d: Dir, trace: seq<Event>): State {
    if trace == [] then Start(d) else Next(Run(d, trace[..|trace| - 1]), trace[|trace| - 1])
  }

  /** The directory as it was when the sweep took the lock, once it has. */
  function Locked(d: Dir, trace: seq<Event>): Option<Dir> {
    if trace == [] then None
    else
      var before := trace[..|trace| - 1];
      if Locked(d, before).Some? then Locked(d, before)
      else if Run(d, before).pc == Waiting && trace[|trace| - 1].Lock? then Some(Run(d, before).dir)
      else None
  }

  /** The last event of the trace ends the sweep. */
  predicate Finishes(d: Dir, trace: seq<Event>) {
    trace != [] && Run(d, trace).pc.Done? && !Run(d, trace[..|trace| - 1]).pc.Done?
  }

  /** The last event of the trace ends the scan, and the sweep with it. */
  predicate EndedReading(d: Dir, trace: seq<Event>) {
    Finishes(d, trace) && Run(d, trace[..|trace| - 1]).pc == Reading
  }

  // ---------------------------------------------------------------- every step

  /**
   * The sweep removes one snapshot at a time, only under the lock, and only one that is expired
   * there and then; while it holds the lock nobody else changes anything.
   */
  lemma RemovesOnlyDoomed(s: State, e: Event)
    ensures !e.Other? && Next(s, e).dir != s.dir ==>
              && s.pc == Looking && s.looked < |s.expired|
              && var name := s.expired[s.looked];
                 Doomed(s.dir, s.now, name) && Next(s, e).dir == Without(s.dir, {name})
    ensures e.Other? && s.pc == Looking ==> Next(s, e) == s
  {
  }

  /** The `n`-th event read the sidecar of `stem` and found `m`. */
  predicate ReadAt(d: Dir, trace: seq<Event>, n: nat, stem: string, m: Meta)
    requires n < |trace|
  {
    var s := Run(d, trace[..n]);
    s.pc == Reading && trace[n] == Read && stem in s.dir.metas && s.dir.metas[stem] == m
  }

  /** A step keeps what was found, under its stem, or reads it. */
  lemma FoundStep(s: State, e: Event, t: State, i: nat)
    requires t == Next(s, e) && |s.found| <= |s.stems| && (s.pc == Listing ==> s.found == [])
    requires i < |t.found| <= |t.stems|
    ensures || (i < |s.found| && t.stems[i] == s.stems[i] && t.found[i] == s.found[i])
            || (s.pc == Reading && e == Read && t.stems[i] in s.dir.metas && s.dir.metas[t.stems[i]] == t.found[i])
  {
    FoundGrows(s, e);
  }

  /** Everything found was what the directory held, at the moment of its read, under the listed stem. */
  lemma {:induction false} FoundWasRead(d: Dir, trace: seq<Event>, t: State, i: nat)
    requires t == Run(d, trace) && i < |t.found|
    ensures |t.found| <= |t.stems|
    ensures exists n | 0 <= n < |trace| :: ReadAt(d, trace, n, t.stems[i], t.found[i])
  {
    StemsStay(d, trace);
    var last := |trace| - 1;
    var s := Run(d, trace[..last]);
    StemsStay(d, trace[..last]);
    FoundStep(s, trace[last], t, i);
    if i < |s.found| && t.stems[i] == s.stems[i] && t.found[i] == s.found[i] {
      FoundWasRead(d, trace[..last], s, i);
      var n :| 0 <= n < last && ReadAt(d, trace[..last], n, s.stems[i], s.found[i]);
      ReadAtLonger(d, trace, n, s.stems[i], s.found[i]);
    } else {
      assert ReadAt(d, trace, last, t.stems[i], t.found[i]);
    }
  }

  lemma ReadAtLonger(d: Dir, trace: seq<Event>, n: nat, stem: string, m: Meta)
    requires n < |trace| - 1 && ReadAt(d, trace[..|trace| - 1], n, stem, m)
    ensures ReadAt(d, trace, n, stem, m)
  {
    assert trace[..|trace| - 1][..n] == trace[..n];
  }

  /** Only a read adds to what was found. */
  lemma FoundGrows(s: State, e: Event)
    ensures var t := Next(s, e);
            || t.found == s.found
            || (s.pc == Reading && e == Read && |s.found| < |s.stems| && s.stems[|s.found|] in s.dir.metas
                && t.found == s.found + [s.dir.metas[s.stems[|s.found|]]])
    ensures s.found != [] && s.pc != Listing ==> Next(s, e).stems == s.stems
  {
  }

  /** The listing fixes the stems; nothing is found before it. */
  lemma {:induction false} StemsStay(d: Dir, trace: seq<Event>)
    ensures var s := Run(d, trace); |s.found| <= |s.stems| && (s.pc == Listing ==> s.found == [])
  {
    if trace != [] {
      StemsStay(d, trace[..|trace| - 1]);
    }
  }

  // ---------------------------------------------------------------- whole runs

  /** Where the pass under the lock stands, `d` being the directory it found. */
  ghost predicate Pass(d: Dir, s: State) {
    && s.looked <= |s.expired|
    && s.dir == Without(d, Names(s.swept))
    && Distinct(s.swept)
    && (forall name :: name in s.swept <==> name in s.expired[..s.looked] && Doomed(d, s.now, name))
    && (forall name | name in s.expired[..s.looked] :: !Unfit(d, name))
  }

  lemma LookKeepsPass(d: Dir, s: State)
    requires s.pc == Looking && Pass(d, s)
    ensures Pass(d, NextLook(s))
    ensures s.looked < |s.expired| ==> (Unfit(s.dir, s.expired[s.looked]) <==> Unfit(d, s.expired[s.looked]))
  {
    if s.looked < |s.expired| {
      var name := s.expired[s.looked];
      var t := NextLook(s);
      assert s.expired[..s.looked + 1] == s.expired[..s.looked] + [name];
      if t.swept != s.swept {
        assert Names(t.swept) == Names(s.swept) + {name};
        assert Without(Without(d, Names(s.swept)), {name}) == Without(d, Names(t.swept));
      }
    }
  }

  /** What the variables say at every point of the sweep. */
  ghost predicate Inv(s: State, locked: Option<Dir>) {
    && (s.pc in {Listing, Reading, Waiting} ==> locked == None && s.looked == 0 && s.swept == [])
    && (s.pc in {Waiting, Looking} ==> |s.found| == |s.stems|)
    && (s.pc in {Waiting, Looking} ==> s.expired == ExpiredNames(s.found, s.scanned))
    && (s.pc in {Waiting, Looking} ==> forall m | m in s.found :: !HasMistypedExpiry(m))
    && (s.pc == Looking ==> locked.Some? && Pass(locked.value, s))
  }

  lemma {:induction false} RunKeepsInv(d: Dir, trace: seq<Event>)
    ensures Inv(Run(d, trace), Locked(d, trace))
  {
    if trace != [] {
      var before, e := trace[..|trace| - 1], trace[|trace| - 1];
      RunKeepsInv(d, before);
      var s := Run(d, before);
      if s.pc == Looking && e == Look {
        LookKeepsPass(Locked(d, before).value, s);
      }
      if s.pc == Waiting && e.Lock? {
        assert Without(s.dir, Names([])) == s.dir;
      }
    }
  }

  lemma UnlockedEnd(d: Dir, trace: seq<Event>)
    requires EndedReading(d, trace)
    ensures Locked(d, trace) == None
  {
    RunKeepsInv(d, trace[..|trace| - 1]);
  }

  /** A sweep that ended without the lock: nothing was expired, or the scan raised, and over what. */
  predicate EndedUnlocked(s: State) {
    && s.swept == []
    && (s.pc == Done(Raised) <==>
          || (|s.found| < |s.stems| && ReadRaises(s.dir, s.stems[|s.found|]))
          || (|s.found| == |s.stems| && exists m | m in s.found :: HasMistypedExpiry(m)))
    && (s.pc != Done(Raised) ==>
          s.pc == Done(Swept([])) && |s.found| == |s.stems| && ExpiredNames(s.found, s.scanned) == [])
  }

  /** An unlocked read of the sidecar raises: it has vanished since the listing, or is no UTF-8. */
  predicate ReadRaises(d: Dir, stem: string) {
    stem !in d.metas || d.metas[stem] == Undecodable
  }

  /**
   * A sweep that ended after finding the directory `d` under the lock. It raises exactly when a
   * scanned snapshot's sidecar cannot be used there. Otherwise it returns, each once, exactly the
   * snapshots that the scan saw expired and that are there and expired under the lock; it has
   * deleted exactly those. When it raises it has deleted only such snapshots.
   */
  predicate EndedLocked(d: Dir, s: State) {
    var seen := ExpiredNames(s.found, s.scanned);
    && |s.found| == |s.stems| && (forall m | m in s.found :: !HasMistypedExpiry(m))
    && s.pc.Done?
    && (s.pc == Done(Raised) <==> exists name | name in seen :: Unfit(d, name))
    && s.dir == Without(d, Names(s.swept)) && Distinct(s.swept)
    && (forall name | name in s.swept :: name in seen && Doomed(d, s.now, name))
    && (s.pc != Done(Raised) ==>
          s.pc == Done(Swept(s.swept)) && forall name | name in seen && Doomed(d, s.now, name) :: name in s.swept)
  }

  predicate Ended(locked: Option<Dir>, s: State) {
    if locked.Some? then EndedLocked(locked.value, s) else EndedUnlocked(s)
  }

  /** In every interleaving the sweep ends in one of these two ways. */
  lemma SweepIsExact(d: Dir, trace: seq<Event>)
    requires Finishes(d, trace)
    ensures Ended(Locked(d, trace), Run(d, trace))
  {
    var before, e := trace[..|trace| - 1], trace[|trace| - 1];
    var s, t := Run(d, before), Run(d, trace);
    RunKeepsInv(d, before);
    StemsStay(d, before);
    if s.pc == Looking {
      var d1 := Locked(d, before).value;
      LookKeepsPass(d1, s);
      assert s.expired[..|s.expired|] == s.expired;
      if t.pc == Done(Raised) {
        assert s.expired[s.looked] in s.expired;
      }
    }
  }

  /** The sidecar names the snapshot with an instant that has come. */
  predicate Elapsed(m: Meta, name: string, now: int) {
    m.Meta? && m.name == name && m.expiry.At? && m.expiry.instant <= now
  }

  /**
   * The promise in terms of instants. What is swept had an instant that had come, both in some sidecar when it
   * was read and in its own under the lock. A snapshot whose own sidecar then has no instant, or one
   * still ahead, is left as it is. And a sweep that does not raise deletes and returns every other one.
   */
  lemma SweptHadElapsed(d: Dir, trace: seq<Event>, name: string)
    requires Finishes(d, trace) && Locked(d, trace).Some?
    ensures var s, d1 := Run(d, trace), Locked(d, trace).value;
            && (name in s.swept ==>
                  && (exists m | m in s.found :: Elapsed(m, name, s.scanned))
                  && name in d1.metas && d1.metas[name].Meta? && d1.metas[name].expiry.At?
                  && d1.metas[name].expiry.instant <= s.now)
            && (name in d1.metas && (d1.metas[name].Meta? && d1.metas[name].expiry.At? ==>
                                       d1.metas[name].expiry.instant > s.now) ==>
                  name in s.dir.metas && s.dir.metas[name] == d1.metas[name])
            && (s.pc != Done(Raised) && (exists m | m in s.found :: Elapsed(m, name, s.scanned))
                && name in d1.metas && d1.metas[name].Meta? && d1.metas[name].expiry.At?
                && d1.metas[name].expiry.instant <= s.now ==>
                  name in s.pc.outcome.names && name !in s.dir.metas && name !in s.dir.parquets)
  {
    SweepIsExact(d, trace);
    var s := Run(d, trace);
    InExpiredNames(s.found, s.scanned, name);
    assert (exists m | m in s.found :: Elapsed(m, name, s.scanned))
           <==> exists m | m in s.found :: Expired(m, s.scanned) && m.name == name by {
      assert forall m :: Elapsed(m, name, s.scanned) <==> Expired(m, s.scanned) && m.name == name;
    }
  }

  /** What a read of this sidecar under the lock raises on. */
  predicate Raises(m: Meta) {
    m == Undecodable || m == Corrupt || (m.Meta? && m.expiry == Mistyped)
  }

  /**
   * What makes a sweep raise, in terms of sidecars: under the lock, one of a snapshot seen elapsed that cannot be
   * used; before it, one that has vanished or is no UTF-8, or one read with an expiry that is no text.
   */
  lemma RaisesOver(d: Dir, trace: seq<Event>)
    requires Finishes(d, trace)
    ensures var s, locked := Run(d, trace), Locked(d, trace);
            locked.Some? ==>
              (s.pc == Done(Raised) <==>
                 exists name | name in locked.value.metas ::
                   Raises(locked.value.metas[name]) && exists m | m in s.found :: Elapsed(m, name, s.scanned))
    ensures var s, locked := Run(d, trace), Locked(d, trace);
            locked.None? ==>
              (s.pc == Done(Raised) <==>
                 || (|s.found| < |s.stems| && (s.stems[|s.found|] !in s.dir.metas
                                               || s.dir.metas[s.stems[|s.found|]] == Undecodable))
                 || (|s.found| == |s.stems| && exists m | m in s.found :: m.Meta? && m.expiry == Mistyped))
  {
    SweepIsExact(d, trace);
    var s, locked := Run(d, trace), Locked(d, trace);
    forall name
      ensures name in ExpiredNames(s.found, s.scanned) <==> exists m | m in s.found :: Elapsed(m, name, s.scanned)
    {
      InExpiredNames(s.found, s.scanned, name);
      assert forall m :: Elapsed(m, name, s.scanned) <==> Expired(m, s.scanned) && m.name == name;
    }
    if locked.Some? {
      assert forall name | name in locked.value.metas ::
          Unfit(locked.value, name) <==> Raises(locked.value.metas[name]);
    } else {
      assert (exists m | m in s.found :: HasMistypedExpiry(m))
             <==> exists m | m in s.found :: m.Meta? && m.expiry == Mistyped by {
        assert forall m :: HasMistypedExpiry(m) <==> m.Meta? && m.expiry == Mistyped;
      }
    }
  }

  /** The directory as the other processes have left it; they cannot act while the lock is held. */
  function Left(d: Dir, trace: seq<Event>): Dir {
    if trace == [] then d
    else
      var before, last := trace[..|trace| - 1], trace[|trace| - 1];
      if last.Other? && Run(d, before).pc != Looking then last.dir else Left(d, before)
  }

  lemma {:induction false} OthersLeave(d: Dir, trace: seq<Event>)
    ensures var s := Run(d, trace);
            && (s.pc in {Listing, Reading, Waiting} ==> s.dir == Left(d, trace))
            && (s.pc == Looking ==> Locked(d, trace) == Some(Left(d, trace)))
  {
    if trace != [] {
      OthersLeave(d, trace[..|trace| - 1]);
      RunKeepsInv(d, trace[..|trace| - 1]);
    }
  }

  /** When the sweep ends, the directory is as the others have left it, less exactly the snapshots swept. */
  lemma OnlySweptAreGone(d: Dir, trace: seq<Event>)
    requires Finishes(d, trace)
    ensures Run(d, trace).dir == Without(Left(d, trace), Names(Run(d, trace).swept))
  {
    var before := trace[..|trace| - 1];
    RunKeepsInv(d, before);
    OthersLeave(d, before);
    assert forall x: Dir :: Without(x, Names([])) == x;
  }

  // ---------------------------------------------------------------- left alone, and disturbed

  predicate NoOthers(trace: seq<Event>) {
    forall e | e in trace :: !e.Other?
  }

  /** The sweep sees one directory throughout. */
  ghost predicate Alone(d: Dir, s: State, locked: Option<Dir>) {
    && (!s.pc.Done? && s.pc != Looking ==> s.dir == d)
    && (s.pc != Listing ==> Lists(s.stems, d))
    && (s.pc == Listing ==> s.found == [])
    && |s.found| <= |s.stems|
    && (forall i | 0 <= i < |s.found| :: s.stems[i] in d.metas && s.found[i] == d.metas[s.stems[i]])
    && (forall m | m in s.found :: m != Undecodable)
    && (locked.Some? ==> locked.value == d)
    && (s.pc.Done? && locked.None? ==> s.dir == d)
  }

  lemma StepsAlone(d: Dir, s: State, e: Event, locked: Option<Dir>)
    requires !e.Other? && Alone(d, s, locked) && Inv(s, locked)
    ensures Alone(d, Next(s, e), if s.pc == Waiting && e.Lock? then Some(s.dir) else locked)
  {
    match e
    case Read => ReadAlone(d, s, locked);
    case _ =>
  }

  lemma ReadAlone(d: Dir, s: State, locked: Option<Dir>)
    requires Alone(d, s, locked) && Inv(s, locked)
    ensures Alone(d, Next(s, Read), locked)
  {
    FoundGrows(s, Read);
  }

  lemma {:induction false} RunsAlone(d: Dir, trace: seq<Event>)
    requires NoOthers(trace)
    ensures Alone(d, Run(d, trace), Locked(d, trace))
  {
    if trace != [] {
      var before, e := trace[..|trace| - 1], trace[|trace| - 1];
      RunsAlone(d, before);
      RunKeepsInv(d, before);
      assert e in trace;
      StepsAlone(d, Run(d, before), e, Locked(d, before));
    }
  }

  /** A complete undisturbed scan found exactly the sidecars there are. */
  lemma FoundAll(d: Dir, s: State, locked: Option<Dir>, m: Meta)
    requires Alone(d, s, locked) && s.pc != Listing && |s.found| == |s.stems|
    ensures m in s.found <==> m in d.metas.Values
  {
    if m in d.metas.Values {
      var stem :| stem in d.metas && d.metas[stem] == m;
      assert stem in Names(s.stems);
      var i :| 0 <= i < |s.stems| && s.stems[i] == stem;
      assert s.found[i] == m;
    }
  }

  /** The directory makes a sweep that scans it at this instant raise. */
  predicate Hostile(d: Dir, scanned: int) {
    exists m | m in d.metas.Values ::
      m == Undecodable || HasMistypedExpiry(m) || (Expired(m, scanned) && Unfit(d, m.name))
  }

  /** Some sidecar names the snapshot and was expired at this instant. */
  predicate NamedExpired(d: Dir, scanned: int, name: string) {
    exists m | m in d.metas.Values :: Expired(m, scanned) && m.name == name
  }

  lemma SeenAll(d: Dir, s: State, locked: Option<Dir>)
    requires Alone(d, s, locked) && s.pc != Listing && |s.found| == |s.stems|
    ensures forall m :: m in s.found <==> m in d.metas.Values
    ensures forall name :: name in ExpiredNames(s.found, s.scanned) <==> NamedExpired(d, s.scanned, name)
  {
    forall m
      ensures m in s.found <==> m in d.metas.Values
    {
      FoundAll(d, s, locked, m);
    }
    forall name
      ensures name in ExpiredNames(s.found, s.scanned) <==> NamedExpired(d, s.scanned, name)
    {
      InExpiredNames(s.found, s.scanned, name);
    }
  }

  lemma RaisedAlone(d: Dir, s: State, locked: Option<Dir>)
    requires Alone(d, s, locked) && s.pc.Done? && Ended(locked, s)
    ensures s.pc == Done(Raised) <==> Hostile(d, s.scanned)
  {
    if |s.found| < |s.stems| {
      var stem := s.stems[|s.found|];
      assert stem in Names(s.stems);
      assert d.metas[stem] == Undecodable && d.metas[stem] in d.metas.Values;
    } else {
      SeenAll(d, s, locked);
      if Hostile(d, s.scanned) {
        var m :| m in d.metas.Values
                 && (m == Undecodable || HasMistypedExpiry(m) || (Expired(m, s.scanned) && Unfit(d, m.name)));
        assert m in s.found;
        if Expired(m, s.scanned) {
          assert NamedExpired(d, s.scanned, m.name);
        }
      }
    }
  }

  /**
   * A sweep that nobody disturbs raises exactly on a hostile directory, and otherwise deletes and
   * returns exactly the snapshots that some sidecar names as expired and whose own sidecar is expired.
   */
  lemma UndisturbedSweep(d: Dir, trace: seq<Event>)
    requires Finishes(d, trace) && NoOthers(trace)
    ensures var s := Run(d, trace); s.pc == Done(Raised) <==> Hostile(d, s.scanned)
    ensures var s := Run(d, trace);
            s.pc.outcome.Swept? ==>
              && s.dir == Without(d, Names(s.pc.outcome.names))
              && forall name ::
                   name in s.pc.outcome.names <==> Doomed(d, s.now, name) && NamedExpired(d, s.scanned, name)
  {
    var s, locked := Run(d, trace), Locked(d, trace);
    SweepIsExact(d, trace);
    RunsAlone(d, trace);
    RaisedAlone(d, s, locked);
    if s.pc.outcome.Swept? {
      SeenAll(d, s, locked);
      assert Without(d, Names([])) == d;
    }
  }

  lemma RunSnoc(d: Dir, trace: seq<Event>, s: State, e: Event)
    requires Run(d, trace) == s
    ensures Run(d, trace + [e]) == Next(s, e)
  {
    assert (trace + [e])[..|trace|] == trace;
  }

  /** A snapshot dropped between the listing and its read makes the scan raise. */
  lemma VanishedSidecarRaises()
    ensures var d := Dir(map["a" := Meta("a", NoExpiry)], {"a"});
            Run(d, [] + [List(["a"])] + [Other(Dir(map[], {}))] + [Read]).pc == Done(Raised)
  {
    var d := Dir(map["a" := Meta("a", NoExpiry)], {"a"});
    var t1 := [] + [List(["a"])];
    var s1 := Next(Start(d), List(["a"]));
    assert Names(["a"]) == {"a"} == d.metas.Keys;
    RunSnoc(d, [], Start(d), List(["a"]));
    var s2 := Next(s1, Other(Dir(map[], {})));
    RunSnoc(d, t1, s1, Other(Dir(map[], {})));
    RunSnoc(d, t1 + [Other(Dir(map[], {}))], s2, Read);
  }

  /** So does, at the second look, one whose sidecar was torn since it was scanned. */
  lemma TornSidecarRaises()
    ensures var d := Dir(map["a" := Meta("a", At(0))], {"a"});
            var torn := Dir(map["a" := Corrupt], {"a"});
            Run(d, [] + [List(["a"])] + [Read] + [Judge(1)] + [Other(torn)] + [Lock(1)] + [Look]).pc == Done(Raised)
  {
    var d := Dir(map["a" := Meta("a", At(0))], {"a"});
    var torn := Dir(map["a" := Corrupt], {"a"});
    assert Names(["a"]) == {"a"} == d.metas.Keys;
    var t1 := [] + [List(["a"])];
    var s1 := Next(Start(d), List(["a"]));
    RunSnoc(d, [], Start(d), List(["a"]));
    var t2, s2 := t1 + [Read], Next(s1, Read);
    RunSnoc(d, t1, s1, Read);
    var t3, s3 := t2 + [Judge(1)], Next(s2, Judge(1));
    RunSnoc(d, t2, s2, Judge(1));
    assert s2.found == [Meta("a", At(0))];
    assert ExpiredNames(s2.found[..0], 1) == [];
    assert ExpiredNames(s2.found, 1) == ["a"];
    var t4, s4 := t3 + [Other(torn)], Next(s3, Other(torn));
    RunSnoc(d, t3, s3, Other(torn));
    var t5, s5 := t4 + [Lock(1)], Next(s4, Lock(1));
    RunSnoc(d, t4, s4, Lock(1));
    RunSnoc(d, t5, s5, Look);
  }

  // ---------------------------------------------------------------- the program

  /** The changes that other processes make in a trace. */
  function ChangesIn(trace: seq<Event>): seq<Dir> {
    if trace == [] then []
    else
      var before, last := ChangesIn(trace[..|trace| - 1]), trace[|trace| - 1];
      if last.Other? then before + [last.dir] else before
  }

  class Directory {
    var metas: map<string, Meta>
    var parquets: set<string>
    var coming: seq<Dir>         // what the other processes will do, whenever they get to it
    ghost var start: Dir
    ghost var schedule: seq<Dir> // all they do
    ghost var trace: seq<Event>

    /** The directory and the variables of the sweep are those of the machine after the trace. */
    ghost predicate At(s: State)
      reads this
    {
      && Run(start, trace) == s && s.dir == Dir(metas, parquets)
      && ChangesIn(trace) + coming == schedule
    }

    /** Record an event of the sweep; the caller then brings the fields into line with it. */
    ghost method Took(s: State, e: Event)
      requires At(s) && !e.Other?
      modifies this`trace
      ensures trace != [] && Run(start, trace[..|trace| - 1]) == s && Run(start, trace) == Next(s, e)
      ensures ChangesIn(trace) == ChangesIn(old(trace))
    {
      RunSnoc(start, trace, s, e);
      assert (trace + [e])[..|trace|] == trace;
      trace := trace + [e];
    }

    /** Other processes may make their next change, as long as the sweep does not hold the lock. */
    method Others(ghost s: State) returns (ghost t: State)
      requires At(s) && s.pc != Looking
      modifies this`metas, this`parquets, this`coming, this`trace
      ensures At(t) && t == s.(dir := t.dir)
    {
      t := s;
      var act: bool := *;
      if act && coming != [] {
        var e := Other(coming[0]);
        RunSnoc(start, trace, s, e);
        assert (trace + [e])[..|trace|] == trace;
        assert ChangesIn(trace) + [coming[0]] + coming[1..] == ChangesIn(trace) + coming;
        trace := trace + [e];
        metas, parquets, coming := coming[0].metas, coming[0].parquets, coming[1..];
        t := s.(dir := Dir(metas, parquets));
      }
    }

    method DeleteSnapshot(name: string) returns (removed: bool)
      modifies this`metas, this`parquets
      ensures metas == old(metas) - {name} && parquets == old(parquets) - {name}
      ensures removed <==> name in old(parquets) || name in old(metas)
    {
      removed := false;
      if name in parquets {
        parquets := parquets - {name};
        removed := true;
      }
      if name in metas {
        metas := metas - {name};
        removed := true;
      }
    }

    /** The unlocked scan: list the directory, read every sidecar listed. */
    method Scan(stems: seq<string>) returns (ok: bool, found: seq<Meta>, ghost t: State)
      requires At(Start(start)) && Lists(stems, Dir(metas, parquets))
      modifies this`metas, this`parquets, this`coming, this`trace
      ensures At(t) && t == Start(start).(dir := t.dir, pc := t.pc, stems := stems, found := found)
      ensures |found| <= |stems|
      ensures if ok then t.pc == Reading && |found| == |stems|
              else t.pc == Done(Raised) && EndedReading(start, trace) && |found| < |stems|
    {
      ok, found := true, [];
      Took(Start(start), List(stems));
      t := Start(start).(pc := Reading, stems := stems);
      for i := 0 to |stems|
        invariant |found| == i && t == Start(start).(dir := t.dir, pc := Reading, stems := stems, found := found)
        invariant At(t)
      {
        t := Others(t);
        Took(t, Read);
        if stems[i] !in metas || metas[stems[i]] == Undecodable {
          t := t.(pc := Done(Raised));
          return false, found, t;
        }
        found := found + [metas[stems[i]]];
        t := t.(found := found);
      }
    }

    /** The names of the sidecars found that are expired; an expiry that is no text raises. */
    method Judge(found: seq<Meta>, now: int) returns (ok: bool, expired: seq<string>)
      ensures ok <==> forall m | m in found :: !HasMistypedExpiry(m)
      ensures ok ==> expired == ExpiredNames(found, now)
    {
      expired := [];
      for i := 0 to |found|
        invariant expired == ExpiredNames(found[..i], now)
        invariant forall m | m in found[..i] :: !HasMistypedExpiry(m)
      {
        assert found[..i + 1] == found[..i] + [found[i]] && found[..i + 1][..i] == found[..i];
        if HasMistypedExpiry(found[i]) {
          return false, [];
        }
        if Expired(found[i], now) {
          expired := expired + [found[i].name];
        }
      }
      assert found[..|found|] == found;
      ok := true;
    }

    /**
     * The pass under the lock. From the directory it finds, it removes exactly the scanned snapshots
     * that are still there and still expired, and returns them; it raises exactly when a scanned
     * snapshot's sidecar is there and unusable, and then has removed only such snapshots.
     */
    method Recheck(expired: seq<string>, now: int, ghost s: State) returns (outcome: Outcome, ghost t: State)
      requires At(s) && s.pc == Looking && s.expired == expired && s.now == now && s.looked == 0 && s.swept == []
      modifies this`metas, this`parquets, this`trace
      ensures At(t) && t.pc == Done(outcome) && Finishes(start, trace)
      ensures t.stems == s.stems && t.found == s.found && t.scanned == s.scanned && t.now == now
      ensures outcome.Raised? <==> exists name | name in expired :: Unfit(s.dir, name)
      ensures t.dir == Without(s.dir, Names(t.swept)) && Distinct(t.swept)
      ensures forall name | name in t.swept :: name in expired && Doomed(s.dir, now, name)
      ensures outcome.Swept? ==>
                outcome.names == t.swept && forall name | name in expired && Doomed(s.dir, now, name) :: name in t.swept
    {
      var names: seq<string> := [];
      t := s;
      assert Without(s.dir, Names([])) == s.dir;
      for i := 0 to |expired|
        invariant At(t) && t == s.(dir := t.dir, looked := i, swept := names)
        invariant Pass(s.dir, t)
      {
        var name := expired[i];
        LookKeepsPass(s.dir, t);
        Took(t, Look);
        t := NextLook(t);
        if name !in metas {
          continue;
        }
        var m := metas[name];
        if !m.Meta? || HasMistypedExpiry(m) {
          return Raised, t;
        }
        if !Expired(m, now) {
          continue;
        }
        var removed := DeleteSnapshot(name);
        if removed {
          names := names + [name];
        }
      }
      assert expired[..|expired|] == expired;
      Took(t, Look);
      t := NextLook(t);
      outcome := Swept(names);
    }

    /** Up to the lock: the expired names of the scan, or how the sweep ended already. */
    method FirstLook(stems: seq<string>, now: int)
      returns (ended: Option<Outcome>, expired: seq<string>, ghost t: State)
      requires At(Start(start)) && Lists(stems, Dir(metas, parquets))
      modifies this`metas, this`parquets, this`coming, this`trace
      ensures At(t) && t.stems == stems && (|t.found| == |stems| ==> t.scanned == now)
      ensures ended.Some? ==> t.pc == Done(ended.value) && EndedReading(start, trace)
      ensures ended.None? ==>
                t.pc == Waiting && t.expired == expired && t.looked == 0 && t.swept == [] && |t.found| == |stems|
    {
      var ok: bool, found: seq<Meta>;
      ok, found, t := Scan(stems);
      if !ok {
        return Some(Raised), [], t;
      }
      t := Others(t);
      ok, expired := Judge(found, now);
      Took(t, Event.Judge(now));
      t := NextJudge(t, now);
      ended := if !ok then Some(Raised) else if expired == [] then Some(Swept([])) else None;
    }

    /**
     * The whole sweep over the sidecars that a listing of the directory finds, with what the clock says
     * after the scan and under the lock. Whatever the others
     * do and whenever, it is a run of the machine that ends here, so it ends as the machine does.
     */
    method Sweep(stems: seq<string>, now: int, nowUnderLock: int) returns (outcome: Outcome, ghost t: State)
      requires At(Start(start)) && Lists(stems, Dir(metas, parquets))
      modifies this`metas, this`parquets, this`coming, this`trace
      ensures At(t) && t.stems == stems && t.pc == Done(outcome)
      ensures Finishes(start, trace) && Ended(Locked(start, trace), t)
      ensures t.dir == Without(Left(start, trace), Names(t.swept))
      ensures |t.found| == |stems| ==> t.scanned == now
      ensures Locked(start, trace).Some? ==> t.now == nowUnderLock
    {
      var ended: Option<Outcome>, expired: seq<string>;
      ended, expired, t := FirstLook(stems, now);
      if ended.Some? {
        outcome := ended.value;
        UnlockedEnd(start, trace);
      } else {
        t := Others(t);
        Took(t, Lock(nowUnderLock));
        t := t.(pc := Looking, now := nowUnderLock);
        outcome, t := Recheck(expired, nowUnderLock, t);
      }
      SweepIsExact(start, trace);
      OnlySweptAreGone(start, trace);
    }
  }
}
