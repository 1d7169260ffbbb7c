/**
 * The single-stream download with resume, again as a small-step machine and as the retry loop
 * that runs it. The machine also counts the bytes reported to the progress callback and the
 * bytes thrown away.
 */
module SingleStream {
  import opened Storage
  import opened Transfer

  /** A normal return, an ordinary exception, or one that passes every handler (an interrupt). */
  datatype Result = Returned(bytes: nat) | Failed | Interrupted

  datatype Stage =
    | Trying(attempt: nat)
    | Receiving(attempt: nat, next: nat, total: nat)
    | Saving(total: nat)
    | Dropping
    | Ended(result: Result)

  datatype Move = Net(event: Event) | Replace(ok: bool) | Drop | Interrupt

  datatype State = State(stage: Stage, tmp: Option<Bytes>, target: Option<Bytes>, reported: nat, discarded: nat)

  function Again(attempt: nat, retries: nat, fault: Fault): Stage {
    if attempt == retries || fault == Permanent then Dropping else Trying(attempt + 1)
  }

  /** The state after the tmp file has been removed or truncated, its bytes counted as discarded. */
  function Discard(s: State, tmp: Option<Bytes>): State {
    s.(tmp := tmp, discarded := s.discarded + |Content(s.tmp)|)
  }

  function StepTrying(retries: nat, s: State, attempt: nat, reply: Reply): State {
    var have := |Content(s.tmp)|;
    match reply
    case Refused(fault) => s.(stage := Again(attempt, retries, fault))
    case NotSatisfiable =>
      if have > 0 then Discard(s, None).(stage := Again(attempt, retries, Transient))
      else s.(stage := Dropping) // a 416 nobody provoked is an ordinary client error
    case Whole => Discard(s, Some([])).(stage := Receiving(attempt, 0, 0))
    case Ranged =>
      if have > 0 then s.(stage := Receiving(attempt, have, have))
      else Discard(s, Some([])).(stage := Receiving(attempt, 0, 0))
  }

  function Step(src: Bytes, retries: nat, s: State, m: Move): State {
    if m.Interrupt? && !s.stage.Ended? then s.(stage := Ended(Interrupted)) else
    match s.stage
    case Trying(attempt) => if m.Net? && m.event.Ask? then StepTrying(retries, s, attempt, m.event.reply) else s
    case Receiving(attempt, next, total) => (
      match m
      case Net(Piece(n)) =>
        if next + n <= |src| then
          s.(stage := Receiving(attempt, next + n, total + n),
             tmp := Some(Content(s.tmp) + src[next..next + n]), reported := s.reported + n)
        else s
      case Net(End) => if next == |src| then s.(stage := Saving(total)) else s
      case Net(Break(fault)) => s.(stage := Again(attempt, retries, fault))
      case _ => s
    )
    case Saving(total) =>
      if !m.Replace? then s
      else if m.ok then s.(stage := Ended(Returned(total)), target := s.tmp, tmp := None)
      else s.(stage := Dropping)
    case Dropping => if m.Drop? then Discard(s, None).(stage := Ended(Failed)) else s
    case Ended(_) => s
  }

  function Run(src: Bytes, retries: nat, s: State, trace: seq<Move>): State {
    if trace == [] then s else Step(src, retries, Run(src, retries, s, trace[..|trace| - 1]), trace[|trace| - 1])
  }

  function Start(tmp: Option<Bytes>, target: Option<Bytes>): State {
    State(Trying(0), tmp, target, 0, 0)
  }

  /** The bytes published so far by this call. */
  function PublishedBytes(s: State): nat {
    if HasReturned(s) then s.stage.result.bytes else 0
  }

  /** What every stage says about the tmp file. */
  predicate Shape(src: Bytes, retries: nat, s: State) {
    && Content(s.tmp) <= src
    && (s.stage.Trying? ==> s.stage.attempt <= retries)
    && (s.stage.Receiving? ==>
          s.stage.attempt <= retries && s.tmp.Some? && s.stage.next == s.stage.total == |s.tmp.value|)
    && (s.stage.Saving? ==> s.tmp == Some(src) && s.stage.total == |src|)
    && (s.stage.Ended? && s.stage.result != Interrupted ==> s.tmp == None)
    && (s.stage.Ended? && s.stage.result.Returned? ==> s.stage.result.bytes == |src|)
  }

  predicate HasReturned(s: State) {
    s.stage.Ended? && s.stage.result.Returned?
  }

  /** What holds after every move, `first` being the state at entry. */
  predicate Inv(src: Bytes, retries: nat, first: State, s: State) {
    && Shape(src, retries, s)
    && s.target == (if HasReturned(s) then Some(src) else first.target)
    && s.reported + |Content(first.tmp)| == |Content(s.tmp)| + PublishedBytes(s) + s.discarded
  }

  lemma StepKeepsShape(src: Bytes, retries: nat, s: State, m: Move)
    requires Shape(src, retries, s)
    ensures Shape(src, retries, Step(src, retries, s, m))
    ensures var s' := Step(src, retries, s, m);
            s'.target == (if HasReturned(s') && !HasReturned(s) then Some(src) else s.target)
  {
    assert Content(s.tmp) == src[..|Content(s.tmp)|];
    assert |Content(s.tmp)| == |src| ==> Content(s.tmp) == src;
    if s.stage.Receiving? && m.Net? && m.event.Piece? && s.stage.next + m.event.n <= |src| {
      assert Content(s.tmp) + src[s.stage.next..s.stage.next + m.event.n] == src[..s.stage.next + m.event.n];
    }
  }

  lemma StepKeepsInv(src: Bytes, retries: nat, first: State, s: State, m: Move)
    requires Inv(src, retries, first, s)
    ensures Inv(src, retries, first, Step(src, retries, s, m))
  {
    StepKeepsShape(src, retries, s, m);
  }

  /**
   * Under any mix of 206, 200, 416, refusals and mid-stream failures: the tmp file is a prefix of
   * the source after every move, the target changes only by a return, a return yields the whole
   * source and its length, and the bytes reported are the published bytes, plus the bytes
   * discarded, plus what the tmp file holds, less what it held at entry.
   */
  lemma {:induction false} TmpStaysPrefix(src: Bytes, retries: nat, tmp: Option<Bytes>, target: Option<Bytes>,
                                          trace: seq<Move>)
    requires Content(tmp) <= src
    ensures Inv(src, retries, Start(tmp, target), Run(src, retries, Start(tmp, target), trace))
  {
    if trace != [] {
      TmpStaysPrefix(src, retries, tmp, target, trace[..|trace| - 1]);
      StepKeepsInv(src, retries, Start(tmp, target), Run(src, retries, Start(tmp, target), trace[..|trace| - 1]),
                   trace[|trace| - 1]);
    }
  }

  // ---------------------------------------------------------------- when the download gives up

  /** The move ends an attempt with a fault. */
  predicate Faults(s: State, m: Move) {
    || (s.stage.Trying? && (m == Net(Ask(NotSatisfiable)) || (m.Net? && m.event.Ask? && m.event.reply.Refused?)))
    || (s.stage.Receiving? && m.Net? && m.event.Break?)
    || (s.stage.Saving? && m == Replace(false))
  }

  /** Not worth retrying: permanent, a failed rename, or a 416 to a request without a range. */
  predicate Fatal(s: State, m: Move) {
    || m == Net(Ask(Refused(Permanent))) || m == Net(Break(Permanent)) || m == Replace(false)
    || (m == Net(Ask(NotSatisfiable)) && Content(s.tmp) == [])
  }

  function FaultCount(src: Bytes, retries: nat, first: State, trace: seq<Move>): nat {
    if trace == [] then 0
    else
      var before, last := trace[..|trace| - 1], trace[|trace| - 1];
      FaultCount(src, retries, first, before) + if Faults(Run(src, retries, first, before), last) then 1 else 0
  }

  predicate HadFatal(src: Bytes, retries: nat, first: State, trace: seq<Move>) {
    if trace == [] then false
    else
      var before, last := trace[..|trace| - 1], trace[|trace| - 1];
      var s := Run(src, retries, first, before);
      HadFatal(src, retries, first, before) || (Faults(s, last) && Fatal(s, last))
  }

  /** An interrupt has arrived before the call ended. */
  predicate HadInterrupt(src: Bytes, retries: nat, first: State, trace: seq<Move>) {
    if trace == [] then false
    else
      var before, last := trace[..|trace| - 1], trace[|trace| - 1];
      || HadInterrupt(src, retries, first, before)
      || (last == Interrupt && !Run(src, retries, first, before).stage.Ended?)
  }

  /**
   * The download retries exactly as long as it may: it raises exactly when `retries + 1` attempts have
   * ended with a fault or one of them with a fault not worth retrying, and it is interrupted exactly
   * when an interrupt came before it ended.
   */
  lemma {:induction false} GivesUpExactlyWhen(src: Bytes, retries: nat, tmp: Option<Bytes>, target: Option<Bytes>,
                                              trace: seq<Move>)
    ensures var first := Start(tmp, target);
            var s, faults := Run(src, retries, first, trace), FaultCount(src, retries, first, trace);
            && faults <= retries + 1
            && (s.stage.Trying? || s.stage.Receiving? ==> s.stage.attempt == faults)
            && (s.stage.Saving? ==> faults <= retries)
            && (s.stage == Ended(Interrupted) <==> HadInterrupt(src, retries, first, trace))
            && (!HadInterrupt(src, retries, first, trace) ==>
                  (s.stage == Dropping || s.stage == Ended(Failed)
                   <==> faults == retries + 1 || HadFatal(src, retries, first, trace)))
  {
    if trace != [] {
      GivesUpExactlyWhen(src, retries, tmp, target, trace[..|trace| - 1]);
    }
  }

  /** A 416 to a resumed request makes the next attempt ask for the whole file, the tmp file gone. */
  lemma RejectedOffsetStartsClean(src: Bytes, retries: nat, first: State, trace: seq<Move>, attempt: nat)
    requires var s := Run(src, retries, first, trace); s.stage == Trying(attempt) && Content(s.tmp) != []
    requires attempt < retries
    ensures var t := Run(src, retries, first, trace + [Net(Ask(NotSatisfiable))]);
            t.stage == Trying(attempt + 1) && t.tmp == None
  {
    RunSnoc(src, retries, first, trace, Run(src, retries, first, trace), Net(Ask(NotSatisfiable)));
  }

  /** A 200 restarts the file whatever was kept: nothing is appended to bytes received before. */
  lemma WholeAnswerRestarts(src: Bytes, retries: nat, first: State, trace: seq<Move>, attempt: nat)
    requires Run(src, retries, first, trace).stage == Trying(attempt)
    ensures var t := Run(src, retries, first, trace + [Net(Ask(Whole))]);
            t.stage == Receiving(attempt, 0, 0) && t.tmp == Some([])
  {
    RunSnoc(src, retries, first, trace, Run(src, retries, first, trace), Net(Ask(Whole)));
  }

  /** A tmp file survives the call exactly when an interrupt ended it while the file existed. */
  lemma OnlyInterruptLeavesTmp(src: Bytes, retries: nat, tmp: Option<Bytes>, target: Option<Bytes>,
                               trace: seq<Move>, m: Move)
    requires Content(tmp) <= src && !Run(src, retries, Start(tmp, target), trace).stage.Ended?
    requires Run(src, retries, Start(tmp, target), trace + [m]).stage.Ended?
    ensures var before := Run(src, retries, Start(tmp, target), trace);
            Run(src, retries, Start(tmp, target), trace + [m]).tmp.Some? <==> m == Interrupt && before.tmp.Some?
  {
    TmpStaysPrefix(src, retries, tmp, target, trace);
    RunSnoc(src, retries, Start(tmp, target), trace, Run(src, retries, Start(tmp, target), trace), m);
    TmpStaysPrefix(src, retries, tmp, target, trace + [m]);
  }

  /** Interrupted after the first byte, the call leaves that byte behind. */
  lemma InterruptLeavesTmp()
    ensures var src: Bytes := [1, 2];
            Run(src, 0, Start(None, None), [Net(Ask(Whole)), Net(Piece(1)), Interrupt]).tmp == Some([1])
  {
    var src: Bytes := [1, 2];
    var s0 := Start(None, None);
    var s1 := Step(src, 0, s0, Net(Ask(Whole)));
    var s2 := Step(src, 0, s1, Net(Piece(1)));
    var t3 := [Net(Ask(Whole)), Net(Piece(1)), Interrupt];
    assert t3[..2] == [Net(Ask(Whole)), Net(Piece(1))];
    assert t3[..2][..1] == [Net(Ask(Whole))];
    assert t3[..2][..1][..0] == [];
    assert Run(src, 0, s0, t3[..2][..1]) == s1;
    assert Run(src, 0, s0, t3[..2]) == s2;
    assert s2.tmp == Some([] + src[0..1]);
    assert [] + src[0..1] == [1];
    assert Run(src, 0, s0, t3) == Step(src, 0, s2, Interrupt);
  }

  lemma RunSnoc(src: Bytes, retries: nat, first: State, trace: seq<Move>, s: State, m: Move)
    requires Run(src, retries, first, trace) == s
    ensures Run(src, retries, first, trace + [m]) == Step(src, retries, s, m)
  {
    assert (trace + [m])[..|trace|] == trace;
  }

  lemma RunFour(src: Bytes, retries: nat, first: State, trace: seq<Move>, s: State, a: Move, b: Move, c: Move, d: Move)
    requires Run(src, retries, first, trace) == s
    ensures Run(src, retries, first, trace + [a] + [b] + [c] + [d])
            == Step(src, retries, Step(src, retries, Step(src, retries, Step(src, retries, s, a), b), c), d)
  {
    var s1 := Step(src, retries, s, a);
    var s2 := Step(src, retries, s1, b);
    RunSnoc(src, retries, first, trace, s, a);
    RunSnoc(src, retries, first, trace + [a], s1, b);
    RunSnoc(src, retries, first, trace + [a] + [b], s2, c);
    RunSnoc(src, retries, first, trace + [a] + [b] + [c], Step(src, retries, s2, c), d);
  }

  predicate ReturnsSource(src: Bytes, s: State) {
    HasReturned(s) ==> s.target == Some(src) && s.stage.result.bytes == |src|
  }

  /** A tmp file longer than the source is never resumed to an end: it is discarded, or the call does not return. */
  predicate Overlong(src: Bytes, s: State) {
    && |Content(s.tmp)| > |src|
    && (s.stage.Receiving? ==> s.stage.next > |src|)
    && !s.stage.Saving? && !HasReturned(s)
  }

  /** Either that, or the tmp file is a prefix of the source as in a call that started with one. */
  predicate Harmless(src: Bytes, retries: nat, s: State) {
    && (s.stage.Trying? || s.stage.Receiving? ==> s.stage.attempt <= retries)
    && (Overlong(src, s) || (Shape(src, retries, s) && ReturnsSource(src, s)))
  }

  lemma StepKeepsHarmless(src: Bytes, retries: nat, s: State, m: Move)
    requires Harmless(src, retries, s)
    ensures Harmless(src, retries, Step(src, retries, s, m))
  {
    if Shape(src, retries, s) {
      StepKeepsShape(src, retries, s, m);
    }
  }

  lemma {:induction false} RunKeepsHarmless(src: Bytes, retries: nat, first: State, trace: seq<Move>)
    requires Harmless(src, retries, first)
    ensures Harmless(src, retries, Run(src, retries, first, trace))
  {
    if trace != [] {
      RunKeepsHarmless(src, retries, first, trace[..|trace| - 1]);
      StepKeepsHarmless(src, retries, Run(src, retries, first, trace[..|trace| - 1]), trace[|trace| - 1]);
    }
  }

  /** A resumed attempt from any own tmp file no longer than the source: its bytes are published. */
  lemma StaleTmpIsPublished(src: Bytes, retries: nat, stale: Bytes, target: Option<Bytes>)
    requires 0 < |stale| <= |src|
    ensures var rest := |src| - |stale|;
            var s := Run(src, retries, Start(Some(stale), target),
                         [] + [Net(Ask(Ranged))] + [Net(Piece(rest))] + [Net(End)] + [Replace(true)]);
            s.stage == Ended(Returned(|src|)) && s.target == Some(stale + src[|stale|..])
  {
    var first := Start(Some(stale), target);
    var rest := |src| - |stale|;
    RunFour(src, retries, first, [], first, Net(Ask(Ranged)), Net(Piece(rest)), Net(End), Replace(true));
    StaleSteps(src, retries, stale, first);
  }

  lemma StaleSteps(src: Bytes, retries: nat, stale: Bytes, s: State)
    requires 0 < |stale| <= |src| && s.stage.Trying? && s.tmp == Some(stale)
    ensures var s1 := Step(src, retries, s, Net(Ask(Ranged)));
            var s2 := Step(src, retries, s1, Net(Piece(|src| - |stale|)));
            var s4 := Step(src, retries, Step(src, retries, s2, Net(End)), Replace(true));
            s4.stage == Ended(Returned(|src|)) && s4.target == Some(stale + src[|stale|..])
  {
    var s1 := Step(src, retries, s, Net(Ask(Ranged)));
    assert s1.stage == Receiving(s.stage.attempt, |stale|, |stale|) && s1.tmp == Some(stale);
    var s2 := Step(src, retries, s1, Net(Piece(|src| - |stale|)));
    assert src[|stale|..|src|] == src[|stale|..];
    assert s2.stage == Receiving(s.stage.attempt, |src|, |src|) && s2.tmp == Some(stale + src[|stale|..]);
  }

  /**
   * Why a stale tmp file of the same process matters, and when: every call that returns has published
   * the source exactly when the tmp file it found was a prefix of the source, or longer.
   */
  lemma StaleTmpMatters(src: Bytes, retries: nat, tmp: Option<Bytes>, target: Option<Bytes>)
    ensures (forall trace :: ReturnsSource(src, Run(src, retries, Start(tmp, target), trace)))
            <==> Content(tmp) <= src || |Content(tmp)| > |src|
  {
    var first, stale := Start(tmp, target), Content(tmp);
    if stale <= src || |stale| > |src| {
      forall trace
        ensures ReturnsSource(src, Run(src, retries, first, trace))
      {
        RunKeepsHarmless(src, retries, first, trace);
      }
    } else {
      var trace := [] + [Net(Ask(Ranged))] + [Net(Piece(|src| - |stale|))] + [Net(End)] + [Replace(true)];
      StaleTmpIsPublished(src, retries, stale, target);
      assert (stale + src[|stale|..])[..|stale|] == stale;
      assert !ReturnsSource(src, Run(src, retries, first, trace));
    }
  }

  /**
   * Whatever happened before, an attempt that the server resumes publishes the source and reports
   * only the bytes that were still missing.
   */
  lemma ResumeFetchesOnlyTheRest(src: Bytes, retries: nat, tmp: Option<Bytes>, target: Option<Bytes>,
                                 trace: seq<Move>, s: State)
    returns (done: State)
    requires Content(tmp) <= src && Run(src, retries, Start(tmp, target), trace) == s && s.stage.Trying?
    ensures |Content(s.tmp)| <= |src|
    ensures var rest := |src| - |Content(s.tmp)|;
            done == Run(src, retries, Start(tmp, target),
                        trace + [Net(Ask(Ranged))] + [Net(Piece(rest))] + [Net(End)] + [Replace(true)])
    ensures done.stage == Ended(Returned(|src|)) && done.target == Some(src)
    ensures done.reported == s.reported + |src| - |Content(s.tmp)|
  {
    TmpStaysPrefix(src, retries, tmp, target, trace);
    var rest := |src| - |Content(s.tmp)|;
    done := ResumedSteps(src, retries, s);
    RunFour(src, retries, Start(tmp, target), trace, s, Net(Ask(Ranged)), Net(Piece(rest)), Net(End), Replace(true));
  }

  /** The four moves of a resumed attempt that goes well. */
  lemma ResumedSteps(src: Bytes, retries: nat, s: State) returns (s4: State)
    requires Shape(src, retries, s) && s.stage.Trying?
    ensures s4 == Step(src, retries,
                       Step(src, retries,
                            Step(src, retries, Step(src, retries, s, Net(Ask(Ranged))),
                                 Net(Piece(|src| - |Content(s.tmp)|))),
                            Net(End)),
                       Replace(true))
    ensures s4.stage == Ended(Returned(|src|)) && s4.target == Some(src)
    ensures s4.reported == s.reported + |src| - |Content(s.tmp)|
  {
    var rest := |src| - |Content(s.tmp)|;
    var s1 := Step(src, retries, s, Net(Ask(Ranged)));
    StepKeepsShape(src, retries, s, Net(Ask(Ranged)));
    assert s1.stage.Receiving? && s1.stage.next == |Content(s.tmp)| && s1.reported == s.reported;
    var s2 := Step(src, retries, s1, Net(Piece(rest)));
    StepKeepsShape(src, retries, s1, Net(Piece(rest)));
    assert s2.stage.Receiving? && s2.stage.next == |src| && s2.reported == s.reported + rest;
    StepKeepsShape(src, retries, s2, Net(End));
    s4 := Step(src, retries, Step(src, retries, s2, Net(End)), Replace(true));
  }

  lemma PieceArrives(src: Bytes, retries: nat, attempt: nat, next: nat, s: State, n: nat)
    requires s.stage == Receiving(attempt, next, next) && next + n <= |src|
    ensures Step(src, retries, s, Net(Piece(n)))
            == State(Receiving(attempt, next + n, next + n), Some(Content(s.tmp) + src[next..next + n]),
                     s.target, s.reported + n, s.discarded)
  {
  }

  /** How one attempt ends for the retry loop. */
  datatype AttemptEnd = Published(total: nat) | Faulted(fault: Fault) | Stopped

  class Download {
    var tmp: Option<Bytes>
    var target: Option<Bytes>
    var reported: nat            // the sum of the sizes given to the progress callback
    ghost var discarded: nat
    ghost var trace: seq<Move>

    constructor (tmp: Option<Bytes>, target: Option<Bytes>)
      ensures this.tmp == tmp && this.target == target && reported == 0 && discarded == 0 && trace == []
    {
      this.tmp, this.target, reported, discarded, trace := tmp, target, 0, 0, [];
    }

    /** The object is at stage `stage` of the machine run described by its trace. */
    ghost predicate At(src: Bytes, retries: nat, first: State, stage: Stage)
      reads this
    {
      Run(src, retries, first, trace) == State(stage, tmp, target, reported, discarded)
    }

    /** Record a move; the caller then brings the fields into line with it. */
    ghost method Took(src: Bytes, retries: nat, first: State, stage: Stage, m: Move)
      requires At(src, retries, first, stage)
      modifies this`trace
      ensures Run(src, retries, first, trace)
              == Step(src, retries, State(stage, tmp, target, reported, discarded), m)
    {
      RunSnoc(src, retries, first, trace, State(stage, tmp, target, reported, discarded), m);
      trace := trace + [m];
    }

    /** An exception that is none of the kinds the retry loop handles. */
    method Stop(src: Bytes, retries: nat, ghost first: State, ghost stage: Stage) returns (end: AttemptEnd)
      requires At(src, retries, first, stage) && !stage.Ended?
      modifies this
      ensures end == Stopped && At(src, retries, first, Ended(Interrupted))
    {
      Took(src, retries, first, stage, Interrupt);
      end := Stopped;
    }

    /** What the end of an attempt says about the machine. */
    ghost predicate EndsAt(src: Bytes, retries: nat, first: State, attempt: nat, end: AttemptEnd)
      reads this
    {
      match end
      case Published(total) => At(src, retries, first, Ended(Returned(total)))
      case Faulted(fault) => At(src, retries, first, Again(attempt, retries, fault))
      case Stopped => At(src, retries, first, Ended(Interrupted))
    }

    /** Rename the finished tmp file onto the target; the rename itself may fail. */
    method Publish(src: Bytes, retries: nat, attempt: nat, sum: nat, ghost first: State) returns (end: AttemptEnd)
      requires At(src, retries, first, Saving(sum))
      modifies this
      ensures EndsAt(src, retries, first, attempt, end)
    {
      var renamed: bool := *;
      Took(src, retries, first, Saving(sum), Replace(renamed));
      if renamed {
        target, tmp := tmp, None;
        end := Published(sum);
      } else {
        end := Faulted(Permanent);
      }
    }

    /** Append pieces of the body to the tmp file until they stop coming. */
    method Append(src: Bytes, retries: nat, attempt: nat, offset: nat, ghost first: State) returns (next: nat)
      requires offset <= |src| && At(src, retries, first, Receiving(attempt, offset, offset))
      modifies this
      ensures next <= |src| && At(src, retries, first, Receiving(attempt, next, next))
    {
      next := offset;
      var pieces: nat := *;
      while pieces > 0
        invariant next <= |src| && At(src, retries, first, Receiving(attempt, next, next))
      {
        var n :| 0 <= n <= |src| - next;
        ghost var s := State(Receiving(attempt, next, next), tmp, target, reported, discarded);
        PieceArrives(src, retries, attempt, next, s, n);
        Took(src, retries, first, Receiving(attempt, next, next), Net(Piece(n)));
        tmp := Some(Content(tmp) + src[next..next + n]);
        next, reported := next + n, reported + n;
        pieces := pieces - 1;
      }
    }

    /** Receive the body into the tmp file, then rename it onto the target. */
    method Receive(src: Bytes, retries: nat, attempt: nat, offset: nat, ghost first: State) returns (end: AttemptEnd)
      requires offset <= |src| && At(src, retries, first, Receiving(attempt, offset, offset))
      modifies this
      ensures EndsAt(src, retries, first, attempt, end)
    {
      var sum := Append(src, retries, attempt, offset, first);
      var interrupted: bool, broken: bool := *, *;
      if interrupted {
        end := Stop(src, retries, first, Receiving(attempt, sum, sum));
      } else if broken || sum != |src| {
        var fault: Fault := *;
        Took(src, retries, first, Receiving(attempt, sum, sum), Net(Break(fault)));
        end := Faulted(fault);
      } else {
        Took(src, retries, first, Receiving(attempt, sum, sum), Net(End));
        end := Publish(src, retries, attempt, sum, first);
      }
    }

    /** One attempt: request, receive, rename. */
    method Attempt(src: Bytes, retries: nat, attempt: nat, ghost first: State) returns (end: AttemptEnd)
      requires attempt <= retries && Content(tmp) <= src && At(src, retries, first, Trying(attempt))
      modifies this
      ensures EndsAt(src, retries, first, attempt, end)
    {
      var interrupted: bool := *;
      if interrupted {
        end := Stop(src, retries, first, Trying(attempt));
        return;
      }
      var have := |Content(tmp)|;
      var resume := have > 0;
      var reply: Reply := *;
      Took(src, retries, first, Trying(attempt), Net(Ask(reply)));
      if resume && reply == NotSatisfiable {
        discarded := discarded + |Content(tmp)|;
        tmp := None;
        return Faulted(Transient);
      }
      if reply == NotSatisfiable {
        return Faulted(Permanent);
      }
      if reply.Refused? {
        return Faulted(reply.fault);
      }
      var resumed := resume && reply == Ranged;
      if !resumed {
        discarded := discarded + |Content(tmp)|;
        tmp := Some([]);
      }
      end := Receive(src, retries, attempt, if resumed then have else 0, first);
    }

    /**
     * The whole single-stream path, from an own tmp file that is absent or a prefix of the source.
     * The bytes reported, plus those found at entry, are the bytes published, discarded or left.
     */
    method Fetch(src: Bytes, retries: nat) returns (result: Result)
      requires trace == [] && reported == 0 && discarded == 0 && Content(tmp) <= src
      modifies this
      ensures At(src, retries, old(Start(tmp, target)), Ended(result))
      ensures result.Returned? ==> result.bytes == |src| && target == Some(src)
      ensures !result.Returned? ==> target == old(target)
      ensures tmp.Some? ==> result == Interrupted && tmp.value <= src
      ensures reported + |old(Content(tmp))|
              == (if result.Returned? then |src| else 0) + discarded + |Content(tmp)|
    {
      ghost var first := Start(tmp, target);
      var attempt := 0;
      var done := false;
      while !done
        invariant done ==> At(src, retries, first, Dropping)
        invariant !done ==> attempt <= retries && At(src, retries, first, Trying(attempt))
        decreases !done, retries - attempt
      {
        TmpStaysPrefix(src, retries, first.tmp, first.target, trace);
        var end := Attempt(src, retries, attempt, first);
        TmpStaysPrefix(src, retries, first.tmp, first.target, trace);
        match end {
          case Published(total) =>
            return Returned(total);
          case Stopped =>
            return Interrupted;
          case Faulted(fault) =>
            if attempt == retries || fault == Permanent {
              done := true;
            } else {
              attempt := attempt + 1;
            }
        }
      }
      Took(src, retries, first, Dropping, Drop);
      discarded := discarded + |Content(tmp)|;
      tmp := None;
      TmpStaysPrefix(src, retries, first.tmp, first.target, trace);
      result := Failed;
    }
  }
}
