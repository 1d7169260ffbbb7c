/**
 * One worker of the parallel download: the retry loop around a resumable range request.
 * The worker is given twice, as a small-step machine whose every step is one visible action
 * (so that several workers can be interleaved) and as the retry loop itself; the loop is
 * proved to be a run of the machine.
 */
module ChunkWorker {
  import opened Storage
  import opened ChunkRanges
  import opened Transfer

  datatype Outcome = Fetched | NotHonored | GaveUp

  datatype Worker =
    | Ready(attempt: nat)
    | Streaming(attempt: nat, next: nat) // `next` is the file offset the server sends next
    | Finished(outcome: Outcome)

  function Retry(attempt: nat, retries: nat, fault: Fault): Worker {
    if attempt == retries || fault == Permanent then Finished(GaveUp) else Ready(attempt + 1)
  }

  /** How many bytes of the part file a new attempt may keep. */
  function Have(r: Range, part: Option<Bytes>): nat {
    if |Content(part)| > Length(r) then 0 else |Content(part)|
  }

  function Step(src: Bytes, r: Range, retries: nat, w: Worker, part: Option<Bytes>, e: Event): (Worker, Option<Bytes>)
    requires Within(r, |src|)
  {
    match w
    case Ready(attempt) =>
      var have := Have(r, part);
      if have > 0 && have >= Length(r) then (Finished(Fetched), part)
      else (
        match e
        case Ask(Refused(fault)) => (Retry(attempt, retries, fault), part)
        case Ask(NotSatisfiable) => (Retry(attempt, retries, Transient), None)
        case Ask(Whole) => (Finished(NotHonored), part)
        case Ask(Ranged) => (Streaming(attempt, r.start + have), Some(if have > 0 then Content(part) else []))
        case _ => (w, part)
      )
    case Streaming(attempt, next) => (
      match e
      case Piece(n) =>
        if next + n <= r.end + 1 then (Streaming(attempt, next + n), Some(Content(part) + src[next..next + n]))
        else (w, part)
      case End => if next == r.end + 1 then (Finished(Fetched), part) else (w, part)
      case Break(fault) => (Retry(attempt, retries, fault), part)
      case Ask(_) => (w, part)
    )
    case Finished(_) => (w, part)
  }

  /** The machine after all the events of a trace. */
  function Run(src: Bytes, r: Range, retries: nat, part: Option<Bytes>, trace: seq<Event>): (Worker, Option<Bytes>)
    requires Within(r, |src|)
  {
    if trace == [] then (Ready(0), part)
    else
      var (w, p) := Run(src, r, retries, part, trace[..|trace| - 1]);
      Step(src, r, retries, w, p, trace[|trace| - 1])
  }

  /** The part file is a prefix of its range, and whole once the worker has fetched it. */
  predicate Inv(src: Bytes, r: Range, retries: nat, w: Worker, part: Option<Bytes>)
    requires Within(r, |src|)
  {
    && Content(part) <= Slice(src, r)
    && (w.Ready? ==> w.attempt <= retries)
    && (w.Streaming? ==> w.attempt <= retries && part.Some? && w.next == r.start + |part.value|)
    && (w == Finished(Fetched) ==> part == Some(Slice(src, r)))
  }

  lemma StepKeepsInv(src: Bytes, r: Range, retries: nat, w: Worker, part: Option<Bytes>, e: Event)
    requires Within(r, |src|) && Inv(src, r, retries, w, part)
    ensures var (w', part') := Step(src, r, retries, w, part, e); Inv(src, r, retries, w', part')
  {
    match w
    case Ready(attempt) =>
      ReadyKeepsInv(src, r, retries, attempt, part, e);
    case Streaming(attempt, next) =>
      StreamingKeepsInv(src, r, retries, attempt, next, part, e);
    case Finished(_) =>
  }

  lemma ReadyKeepsInv(src: Bytes, r: Range, retries: nat, attempt: nat, part: Option<Bytes>, e: Event)
    requires Within(r, |src|) && Inv(src, r, retries, Ready(attempt), part)
    ensures var (w', part') := Step(src, r, retries, Ready(attempt), part, e); Inv(src, r, retries, w', part')
  {
    if |Content(part)| == |Slice(src, r)| {
      assert Content(part) == Slice(src, r);
    }
  }

  lemma StreamingKeepsInv(src: Bytes, r: Range, retries: nat, attempt: nat, next: nat, part: Option<Bytes>, e: Event)
    requires Within(r, |src|) && Inv(src, r, retries, Streaming(attempt, next), part)
    ensures var (w', part') := Step(src, r, retries, Streaming(attempt, next), part, e); Inv(src, r, retries, w', part')
  {
    if e.Piece? && next + e.n <= r.end + 1 {
      PieceExtends(src, r, Content(part), e.n);
    } else if e == End && next == r.end + 1 {
      assert Content(part) == Slice(src, r);
    }
  }

  /** The next piece of the body makes a longer prefix. */
  lemma PieceExtends(src: Bytes, r: Range, content: Bytes, n: nat)
    requires Within(r, |src|) && content <= Slice(src, r) && |content| + n <= Length(r)
    ensures var next := r.start + |content|; content + src[next..next + n] <= Slice(src, r)
  {
    SliceOfSlice(src, r.start, r.end + 1, |content|, |content| + n);
    assert content == Slice(src, r)[..|content|];
    assert content + src[r.start + |content|..r.start + |content| + n] == Slice(src, r)[..|content| + n];
  }

  /**
   * Under every fault schedule the part file is a prefix of its range after every event,
   * and a worker that reports success has written exactly its range.
   */
  lemma {:induction false} PartStaysPrefix(src: Bytes, r: Range, retries: nat, part: Option<Bytes>, trace: seq<Event>)
    requires Within(r, |src|) && Content(part) <= Slice(src, r)
    ensures var (w, p) := Run(src, r, retries, part, trace); Inv(src, r, retries, w, p)
  {
    if trace != [] {
      PartStaysPrefix(src, r, retries, part, trace[..|trace| - 1]);
      var (w, p) := Run(src, r, retries, part, trace[..|trace| - 1]);
      StepKeepsInv(src, r, retries, w, p, trace[|trace| - 1]);
    }
  }

  lemma RunSnoc(src: Bytes, r: Range, retries: nat, part: Option<Bytes>, trace: seq<Event>,
                w: Worker, p: Option<Bytes>, e: Event)
    requires Within(r, |src|) && Run(src, r, retries, part, trace) == (w, p)
    ensures Run(src, r, retries, part, trace + [e]) == Step(src, r, retries, w, p, e)
  {
    assert (trace + [e])[..|trace|] == trace;
  }

  /**
   * Whatever happened before, a worker that may still try finishes with its range complete as soon as
   * the server honours one request; and that request transfers exactly the bytes still missing.
   */
  lemma HonestServerCompletes(src: Bytes, r: Range, retries: nat, part: Option<Bytes>, trace: seq<Event>,
                              w: Worker, p: Option<Bytes>)
    requires Within(r, |src|) && Content(part) <= Slice(src, r)
    requires Run(src, r, retries, part, trace) == (w, p) && w.Ready?
    ensures |Content(p)| <= Length(r)
    ensures Run(src, r, retries, part, trace + [Ask(Ranged)] + [Piece(Length(r) - |Content(p)|)] + [End])
            == (Finished(Fetched), Some(Slice(src, r)))
  {
    PartStaysPrefix(src, r, retries, part, trace);
    var n := Length(r) - |Content(p)|;
    var (w1, p1) := Step(src, r, retries, w, p, Ask(Ranged));
    var (w2, p2) := Step(src, r, retries, w1, p1, Piece(n));
    HonestSteps(src, r, retries, w, p);
    RunSnoc(src, r, retries, part, trace, w, p, Ask(Ranged));
    RunSnoc(src, r, retries, part, trace + [Ask(Ranged)], w1, p1, Piece(n));
    RunSnoc(src, r, retries, part, trace + [Ask(Ranged)] + [Piece(n)], w2, p2, End);
  }

  lemma HonestSteps(src: Bytes, r: Range, retries: nat, w: Worker, p: Option<Bytes>)
    requires Within(r, |src|) && Inv(src, r, retries, w, p) && w.Ready?
    ensures |Content(p)| <= Length(r)
    ensures var (w1, p1) := Step(src, r, retries, w, p, Ask(Ranged));
            var (w2, p2) := Step(src, r, retries, w1, p1, Piece(Length(r) - |Content(p)|));
            Step(src, r, retries, w2, p2, End) == (Finished(Fetched), Some(Slice(src, r)))
  {
    var n := Length(r) - |Content(p)|;
    var (w1, p1) := Step(src, r, retries, w, p, Ask(Ranged));
    var (w2, p2) := Step(src, r, retries, w1, p1, Piece(n));
    StepKeepsInv(src, r, retries, w, p, Ask(Ranged));
    StepKeepsInv(src, r, retries, w1, p1, Piece(n));
    StepKeepsInv(src, r, retries, w2, p2, End);
  }

  // ---------------------------------------------------------------- when a worker gives up

  /** The event ends an attempt of the worker with a fault. */
  predicate Faults(r: Range, w: Worker, part: Option<Bytes>, e: Event) {
    || (w.Ready? && !Complete(r, part) && (e == Ask(NotSatisfiable) || (e.Ask? && e.reply.Refused?)))
    || (w.Streaming? && e.Break?)
  }

  /** Not worth retrying: a refusal or a break that is permanent. */
  predicate Fatal(e: Event) {
    e == Ask(Refused(Permanent)) || e == Break(Permanent)
  }

  /** How many attempts have ended with a fault. */
  function FaultCount(src: Bytes, r: Range, retries: nat, part: Option<Bytes>, trace: seq<Event>): nat
    requires Within(r, |src|)
  {
    if trace == [] then 0
    else
      var before, last := trace[..|trace| - 1], trace[|trace| - 1];
      var (w, p) := Run(src, r, retries, part, before);
      FaultCount(src, r, retries, part, before) + if Faults(r, w, p, last) then 1 else 0
  }

  /** Some attempt has ended with a fault that is not worth retrying. */
  predicate HadFatal(src: Bytes, r: Range, retries: nat, part: Option<Bytes>, trace: seq<Event>)
    requires Within(r, |src|)
  {
    if trace == [] then false
    else
      var before, last := trace[..|trace| - 1], trace[|trace| - 1];
      var (w, p) := Run(src, r, retries, part, before);
      HadFatal(src, r, retries, part, before) || (Faults(r, w, p, last) && Fatal(last))
  }

  /** Some attempt was answered with the whole file. */
  predicate HadWhole(src: Bytes, r: Range, retries: nat, part: Option<Bytes>, trace: seq<Event>)
    requires Within(r, |src|)
  {
    if trace == [] then false
    else
      var before, last := trace[..|trace| - 1], trace[|trace| - 1];
      var (w, p) := Run(src, r, retries, part, before);
      HadWhole(src, r, retries, part, before) || (w.Ready? && !Complete(r, p) && last == Ask(Whole))
  }

  /**
   * A worker retries exactly as long as it may: it has given up exactly when `retries + 1` attempts
   * have ended with a fault or one of them with a permanent one, and it reports a refused range
   * exactly when it was answered with the whole file.
   */
  lemma {:induction false} GivesUpExactlyWhen(src: Bytes, r: Range, retries: nat, part: Option<Bytes>,
                                              trace: seq<Event>)
    requires Within(r, |src|)
    ensures var w := Run(src, r, retries, part, trace).0;
            var faults := FaultCount(src, r, retries, part, trace);
            && faults <= retries + 1
            && (w.Ready? || w.Streaming? ==> w.attempt == faults)
            && (w == Finished(GaveUp) <==> faults == retries + 1 || HadFatal(src, r, retries, part, trace))
            && (w == Finished(NotHonored) <==> HadWhole(src, r, retries, part, trace))
  {
    if trace != [] {
      GivesUpExactlyWhen(src, r, retries, part, trace[..|trace| - 1]);
    }
  }

  /** A 416 makes the next attempt ask for the whole range again, from a part file that is gone. */
  lemma RejectedOffsetStartsClean(src: Bytes, r: Range, retries: nat, part: Option<Bytes>, trace: seq<Event>,
                                  attempt: nat)
    requires Within(r, |src|) && attempt < retries
    requires var (w, p) := Run(src, r, retries, part, trace); w == Ready(attempt) && !Complete(r, p)
    ensures Run(src, r, retries, part, trace + [Ask(NotSatisfiable)]) == (Ready(attempt + 1), None)
    ensures Run(src, r, retries, part, trace + [Ask(NotSatisfiable)] + [Ask(Ranged)])
            == (Streaming(attempt + 1, r.start), Some([]))
  {
    var (w, p) := Run(src, r, retries, part, trace);
    RunSnoc(src, r, retries, part, trace, w, p, Ask(NotSatisfiable));
    RunSnoc(src, r, retries, part, trace + [Ask(NotSatisfiable)], Ready(attempt + 1), None, Ask(Ranged));
  }

  /** How one call of the range download ends for its caller. */
  datatype Signal = Completed | RangeNotHonored | RangeNotSatisfiable | Raised(fault: Fault)

  /** Where the machine stands when a call has ended this way with `part` on disk. */
  function After(attempt: nat, retries: nat, signal: Signal, part: Option<Bytes>): (Worker, Option<Bytes>) {
    match signal
    case Completed => (Finished(Fetched), part)
    case RangeNotHonored => (Finished(NotHonored), part)
    case RangeNotSatisfiable => (Retry(attempt, retries, Transient), None) // the caller unlinks the part
    case Raised(fault) => (Retry(attempt, retries, fault), part)
  }

  predicate Complete(r: Range, part: Option<Bytes>) {
    Have(r, part) > 0 && Have(r, part) >= Length(r)
  }

  /** The machine after a request, by what the server makes of it. */
  lemma Asked(src: Bytes, r: Range, retries: nat, start: Option<Bytes>, before: seq<Event>,
              attempt: nat, part: Option<Bytes>, reply: Reply)
    requires Within(r, |src|) && Run(src, r, retries, start, before) == (Ready(attempt), part) && !Complete(r, part)
    ensures Run(src, r, retries, start, before + [Ask(reply)])
            == match reply
               case Refused(fault) => After(attempt, retries, Raised(fault), part)
               case NotSatisfiable => After(attempt, retries, RangeNotSatisfiable, part)
               case Whole => After(attempt, retries, RangeNotHonored, part)
               case Ranged =>
                 (Streaming(attempt, r.start + Have(r, part)), Some(if Have(r, part) > 0 then Content(part) else []))
  {
    RunSnoc(src, r, retries, start, before, Ready(attempt), part, Ask(reply));
  }

  lemma Received(src: Bytes, r: Range, retries: nat, start: Option<Bytes>, before: seq<Event>,
                 attempt: nat, next: nat, content: Bytes, n: nat)
    requires Within(r, |src|) && next + n <= r.end + 1
    requires Run(src, r, retries, start, before) == (Streaming(attempt, next), Some(content))
    ensures Run(src, r, retries, start, before + [Piece(n)])
            == (Streaming(attempt, next + n), Some(content + src[next..next + n]))
  {
    RunSnoc(src, r, retries, start, before, Streaming(attempt, next), Some(content), Piece(n));
  }

  /** A part that is complete already needs no request. */
  lemma NothingToAsk(src: Bytes, r: Range, retries: nat, start: Option<Bytes>, before: seq<Event>,
                     attempt: nat, part: Option<Bytes>)
    requires Within(r, |src|) && Run(src, r, retries, start, before) == (Ready(attempt), part) && Complete(r, part)
    ensures Run(src, r, retries, start, before + [End]) == After(attempt, retries, Completed, part)
  {
    RunSnoc(src, r, retries, start, before, Ready(attempt), part, End);
  }

  class Files {
    var disk: Disk

    /** Append pieces of the body to the part file until they stop coming. */
    method Append(src: Bytes, r: Range, f: Path, offset: nat, ghost retries: nat, ghost attempt: nat,
                  ghost start: Option<Bytes>, ghost before: seq<Event>)
      returns (next: nat, ghost trace: seq<Event>)
      requires Within(r, |src|) && f in disk && offset <= r.end + 1
      requires Run(src, r, retries, start, before) == (Streaming(attempt, offset), Some(disk[f]))
      modifies this
      ensures f in disk && disk == old(disk)[f := disk[f]] && next <= r.end + 1
      ensures Run(src, r, retries, start, trace) == (Streaming(attempt, next), Some(disk[f]))
    {
      trace := before;
      next := offset;
      var content := disk[f];
      var pieces: nat := *;
      while pieces > 0
        invariant 0 <= next <= r.end + 1 && disk == old(disk)[f := content]
        invariant Run(src, r, retries, start, trace) == (Streaming(attempt, next), Some(content))
      {
        var n :| 0 <= n <= r.end + 1 - next;
        Received(src, r, retries, start, trace, attempt, next, content, n);
        content := content + src[next..next + n];
        disk := disk[f := content];
        next, pieces, trace := next + n, pieces - 1, trace + [Piece(n)];
      }
    }

    /** Receive the body into the part file until it ends or breaks. */
    method Receive(src: Bytes, r: Range, f: Path, offset: nat, ghost retries: nat, ghost attempt: nat,
                   ghost start: Option<Bytes>, ghost before: seq<Event>)
      returns (signal: Signal, ghost trace: seq<Event>)
      requires Within(r, |src|) && f in disk && offset <= r.end + 1
      requires Run(src, r, retries, start, before) == (Streaming(attempt, offset), Some(disk[f]))
      modifies this
      ensures forall g | g != f :: Get(disk, g) == old(Get(disk, g))
      ensures signal == Completed || signal.Raised?
      ensures Run(src, r, retries, start, trace) == After(attempt, retries, signal, Get(disk, f))
    {
      var next: nat;
      next, trace := Append(src, r, f, offset, retries, attempt, start, before);
      var broken: bool := *;
      if broken || next != r.end + 1 {
        var fault: Fault := *;
        RunSnoc(src, r, retries, start, trace, Streaming(attempt, next), Some(disk[f]), Break(fault));
        return Raised(fault), trace + [Break(fault)];
      }
      RunSnoc(src, r, retries, start, trace, Streaming(attempt, next), Some(disk[f]), End);
      return Completed, trace + [End];
    }

    /** How many bytes of the part file a request may resume after. */
    method Resumable(r: Range, f: Path) returns (have: nat)
      ensures have == Have(r, Get(disk, f))
    {
      have := 0;
      if f in disk {
        have := |disk[f]|;
        if have > Length(r) {
          have := 0;
        }
      }
    }

    /** One range request, resuming from whatever the part file already holds. */
    method DownloadChunk(src: Bytes, r: Range, f: Path, ghost retries: nat, ghost attempt: nat,
                         ghost start: Option<Bytes>, ghost before: seq<Event>)
      returns (signal: Signal, ghost trace: seq<Event>)
      requires Within(r, |src|) && Run(src, r, retries, start, before) == (Ready(attempt), Get(disk, f))
      modifies this
      ensures forall g | g != f :: Get(disk, g) == old(Get(disk, g))
      ensures Run(src, r, retries, start, trace) == After(attempt, retries, signal, Get(disk, f))
    {
      var have := Resumable(r, f);
      if have > 0 && have >= Length(r) {
        NothingToAsk(src, r, retries, start, before, attempt, Get(disk, f));
        return Completed, before + [End];
      }
      var reply: Reply := *;
      Asked(src, r, retries, start, before, attempt, Get(disk, f), reply);
      trace := before + [Ask(reply)];
      match reply {
        case Refused(fault) => return Raised(fault), trace;
        case NotSatisfiable => return RangeNotSatisfiable, trace;
        case Whole => return RangeNotHonored, trace;
        case Ranged =>
      }
      if have == 0 {
        disk := disk[f := []];
      }
      signal, trace := Receive(src, r, f, r.start + have, retries, attempt, start, trace);
    }

    /**
     * The retry loop of one worker. For every adversary it is a run of the machine that ends
     * finished; it leaves a prefix of the range in its own file, the whole range on success,
     * and touches no other file.
     */
    method AttemptChunk(src: Bytes, r: Range, f: Path, retries: nat)
      returns (outcome: Outcome, ghost trace: seq<Event>)
      requires Within(r, |src|) && Content(Get(disk, f)) <= Slice(src, r)
      modifies this
      ensures Run(src, r, retries, old(Get(disk, f)), trace) == (Finished(outcome), Get(disk, f))
      ensures Content(Get(disk, f)) <= Slice(src, r)
      ensures outcome == Fetched ==> Get(disk, f) == Some(Slice(src, r))
      ensures forall g | g != f :: Get(disk, g) == old(Get(disk, g))
    {
      ghost var start := Get(disk, f);
      trace := [];
      var attempt := 0;
      outcome := GaveUp;
      while attempt <= retries
        invariant 0 <= attempt <= retries
        invariant Run(src, r, retries, start, trace) == (Ready(attempt), Get(disk, f))
        invariant forall g | g != f :: Get(disk, g) == old(Get(disk, g))
        decreases retries - attempt
      {
        var signal: Signal;
        signal, trace := DownloadChunk(src, r, f, retries, attempt, start, trace);
        PartStaysPrefix(src, r, retries, start, trace);
        match signal {
          case Completed => return Fetched, trace;
          case RangeNotHonored => return NotHonored, trace;
          case RangeNotSatisfiable =>
            disk := disk - {f};
            if attempt == retries {
              return GaveUp, trace;
            }
          case Raised(fault) =>
            if attempt == retries || fault == Permanent {
              return GaveUp, trace;
            }
        }
        attempt := attempt + 1;
      }
    }
  }
}
