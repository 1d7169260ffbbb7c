/**
 * The cache in front of the layered configuration: built on demand, dropped after every save, and
 * backed by the last configuration that was built when the overlay stops being readable.
 */
module ConfigCache {
  import opened Storage
  import opened LayeredConfig

  /** The overlay file as a load finds it. `Malformed` is undecodable, unparsable or no dictionary. */
  datatype Overlay = Missing | Unreadable | Malformed | Readable(tree: Tree)

  /** The files and the environment at the time of a load; no static tree when it failed to load. */
  datatype World = World(base: Option<Tree>, overlay: Overlay, env: Env)

  datatype Result = Config(tree: Tree) | UnreadableError

  const NOTHING: Tree := Dict(map[])

  function Base(w: World): (t: Tree)
    ensures t.Dict?
  {
    if w.base.Some? && w.base.value.Dict? then Resolve(w.env, w.base.value) else NOTHING
  }

  /** The configuration a load builds: the overlay merged over the base where it can be used. */
  function Built(w: World): Tree {
    if w.overlay.Readable? && w.overlay.tree.Dict? then Merge(Base(w), Resolve(w.env, w.overlay.tree)) else Base(w)
  }

  // ---------------------------------------------------------------- one load, one reset

  datatype Cache = Cache(config: Option<Tree>, lastGood: Option<Tree>)

  function Load(c: Cache, w: World, strict: bool): (Cache, Result) {
    if c.config.Some? then (c, Config(c.config.value))
    else if w.overlay == Unreadable then
      if !strict && c.lastGood.Some? then (c.(config := c.lastGood), Config(c.lastGood.value))
      else (c, UnreadableError)
    else (Cache(Some(Built(w)), Some(Built(w))), Config(Built(w)))
  }

  function Reset(c: Cache): Cache {
    c.(config := None)
  }

  class Loader {
    var config: Option<Tree>
    var lastGood: Option<Tree>

    method LoadInstanceConfig(w: World, strict: bool) returns (r: Result)
      modifies this
      ensures (Cache(config, lastGood), r) == Load(old(Cache(config, lastGood)), w, strict)
    {
      if config.Some? {
        return Config(config.value);
      }
      var merged := NOTHING;
      if w.base.Some? && w.base.value.Dict? {
        merged := Resolve(w.env, w.base.value);
      }
      if w.overlay == Unreadable {
        if !strict && lastGood.Some? {
          config := lastGood;
          return Config(lastGood.value);
        }
        return UnreadableError;
      }
      if w.overlay.Readable? && w.overlay.tree.Dict? {
        merged := DeepMerge(merged, Resolve(w.env, w.overlay.tree));
      }
      config := Some(merged);
      lastGood := Some(merged);
      r := Config(merged);
    }

    method ResetCache()
      modifies this
      ensures Cache(config, lastGood) == Reset(old(Cache(config, lastGood)))
    {
      config := None;
    }
  }

  // ---------------------------------------------------------------- runs

  /** Each load sees whatever the files and the environment hold by then. */
  datatype Op = LoadOp(w: World, strict: bool) | ResetOp

  /** A load that is not served from the cache and does not hit an unreadable overlay builds. */
  predicate Builds(c: Cache, op: Op) {
    op.LoadOp? && c.config.None? && op.w.overlay != Unreadable
  }

  function Next(c: Cache, op: Op): Cache {
    match op
    case LoadOp(w, strict) => Load(c, w, strict).0
    case ResetOp => Reset(c)
  }

  function Run(ops: seq<Op>): Cache {
    if ops == [] then Cache(None, None) else Next(Run(ops[..|ops| - 1]), ops[|ops| - 1])
  }

  /** The configuration built last in a run. */
  function LastBuilt(ops: seq<Op>): Option<Tree> {
    if ops == [] then None
    else
      var before, op := ops[..|ops| - 1], ops[|ops| - 1];
      if Builds(Run(before), op) then Some(Built(op.w)) else LastBuilt(before)
  }

  /** Over every run the cache is empty or holds the configuration built last, and so does the fallback. */
  lemma {:induction false} CacheIsLastBuilt(ops: seq<Op>)
    ensures Run(ops).config == None || Run(ops).config == LastBuilt(ops)
    ensures Run(ops).lastGood == LastBuilt(ops)
  {
    if ops != [] {
      CacheIsLastBuilt(ops[..|ops| - 1]);
    }
  }

  /**
   * What a load returns in any run: never the error once something was built, unless it is strict;
   * the error exactly when the cache is empty, the overlay unreadable, and the load strict or nothing
   * built yet; and otherwise the configuration built last, by this load or by an earlier one.
   */
  lemma LoadResult(ops: seq<Op>, w: World, strict: bool)
    ensures var r := Load(Run(ops), w, strict).1;
            && (r == UnreadableError <==>
                  Run(ops).config == None && w.overlay == Unreadable && (strict || LastBuilt(ops) == None))
            && (LastBuilt(ops).Some? && !strict ==> r != UnreadableError)
            && (r.Config? ==> Some(r.tree) == LastBuilt(ops + [LoadOp(w, strict)]))
  {
    CacheIsLastBuilt(ops);
    assert (ops + [LoadOp(w, strict)])[..|ops|] == ops;
  }

  /** A load that finds the cache empty and raises, when `good` was built last. */
  predicate Refuses(op: Op, good: Option<Tree>) {
    op.LoadOp? && op.w.overlay == Unreadable && (op.strict || good == None)
  }

  predicate OnlyLoads(ops: seq<Op>) {
    forall op | op in ops :: op.LoadOp?
  }

  function SinceReset(ops: seq<Op>, loads: seq<Op>): seq<Op> {
    ops + [ResetOp] + loads
  }

  lemma RunSnoc(ops: seq<Op>, op: Op)
    ensures Run(ops + [op]) == Next(Run(ops), op)
    ensures LastBuilt(ops + [op]) == if Builds(Run(ops), op) then Some(Built(op.w)) else LastBuilt(ops)
  {
    assert (ops + [op])[..|ops|] == ops;
  }

  /** After a reset the cache stays empty exactly as long as every load refuses; nothing is built until then. */
  lemma {:induction false} EmptySinceReset(ops: seq<Op>, loads: seq<Op>)
    requires OnlyLoads(loads)
    ensures Run(SinceReset(ops, loads)).config == None <==> forall op | op in loads :: Refuses(op, LastBuilt(ops))
    ensures Run(SinceReset(ops, loads)).config == None ==> Run(SinceReset(ops, loads)).lastGood == LastBuilt(ops)
  {
    if loads == [] {
      assert SinceReset(ops, []) == ops + [ResetOp];
      RunSnoc(ops, ResetOp);
      CacheIsLastBuilt(ops);
    } else {
      var before, last := loads[..|loads| - 1], loads[|loads| - 1];
      assert loads == before + [last];
      assert last in loads;
      EmptySinceReset(ops, before);
      assert SinceReset(ops, loads) == SinceReset(ops, before) + [last];
      RunSnoc(SinceReset(ops, before), last);
    }
  }

  /**
   * The boot check, and every load after a reset: it raises exactly when all the loads since the reset
   * had to refuse and so does it. In particular a strict load right after a reset never returns
   * while the overlay is unreadable, nor after strict loads that failed on it.
   */
  lemma StrictAfterResetRefuses(ops: seq<Op>, loads: seq<Op>, w: World, strict: bool)
    requires OnlyLoads(loads)
    ensures Load(Run(SinceReset(ops, loads)), w, strict).1 == UnreadableError
            <==> forall op | op in loads + [LoadOp(w, strict)] :: Refuses(op, LastBuilt(ops))
    ensures && w.overlay == Unreadable && strict
            && (forall op | op in loads :: op.w.overlay == Unreadable && op.strict) ==>
              Load(Run(SinceReset(ops, loads)), w, strict).1 == UnreadableError
  {
    EmptySinceReset(ops, loads);
    assert forall op | op in loads :: op in loads + [LoadOp(w, strict)];
    assert LoadOp(w, strict) in loads + [LoadOp(w, strict)];
  }

  /** A strict load after a reset does return once a load that is not strict has put the fallback back. */
  lemma LenientLoadDisarmsStrict(ops: seq<Op>, w: World, w': World)
    requires LastBuilt(ops).Some? && w.overlay == Unreadable && w'.overlay == Unreadable
    ensures Load(Run(SinceReset(ops, [LoadOp(w, false)])), w', true).1 == Config(LastBuilt(ops).value)
  {
    assert SinceReset(ops, [LoadOp(w, false)]) == ops + [ResetOp] + [LoadOp(w, false)];
    CacheIsLastBuilt(ops);
    RunSnoc(ops, ResetOp);
    RunSnoc(ops + [ResetOp], LoadOp(w, false));
  }

  /** Without the reset it inspects nothing: a warm cache answers a strict load of an unreadable overlay. */
  lemma StrictNeedsReset(ops: seq<Op>, w: World)
    requires Run(ops).config.Some?
    ensures LastBuilt(ops).Some? && Load(Run(ops), w, true).1 == Config(LastBuilt(ops).value)
  {
    CacheIsLastBuilt(ops);
  }

  lemma {:induction false} CachedStays(ops: seq<Op>, later: seq<Op>)
    requires OnlyLoads(later) && Run(ops).config.Some?
    ensures Run(ops + later).config == Run(ops).config
  {
    if later == [] {
      assert ops + later == ops;
    } else {
      var before, last := later[..|later| - 1], later[|later| - 1];
      assert later == before + [last] && last in later;
      CachedStays(ops, before);
      assert ops + later == ops + before + [last];
      RunSnoc(ops + before, last);
    }
  }

  /**
   * After a reset the first load that does not refuse decides what all loads return until the next
   * reset: what it finds in the files then, or the last configuration built when they are unreadable.
   */
  lemma ResetThenLoadIsFresh(ops: seq<Op>, refused: seq<Op>, first: Op, later: seq<Op>, w: World, strict: bool)
    requires OnlyLoads(refused) && OnlyLoads(later) && first.LoadOp?
    requires (forall op | op in refused :: Refuses(op, LastBuilt(ops))) && !Refuses(first, LastBuilt(ops))
    ensures Load(Run(SinceReset(ops, refused + [first] + later)), w, strict).1
            == Config(if first.w.overlay == Unreadable then LastBuilt(ops).value else Built(first.w))
  {
    var since := SinceReset(ops, refused);
    EmptySinceReset(ops, refused);
    RunSnoc(since, first);
    CachedStays(since + [first], later);
    assert SinceReset(ops, refused + [first] + later) == since + [first] + later;
  }

  // ---------------------------------------------------------------- what a load builds

  /** A load that finds the cache empty and the overlay readable or not there. */
  predicate Fresh(c: Cache, w: World) {
    c.config.None? && w.overlay != Unreadable
  }

  predicate Usable(base: Option<Tree>) {
    base.Some? && base.value.Dict?
  }

  /**
   * Built from two dictionaries, each with its references resolved: the overlay's value where the
   * overlay decides, the base's everywhere else, and dictionaries on both sides merged.
   */
  lemma BuiltFromBoth(c: Cache, w: World, strict: bool, path: seq<string>)
    requires Fresh(c, w) && Usable(w.base) && w.overlay.Readable? && w.overlay.tree.Dict? && path != []
    ensures Load(c, w, strict).1.Config?
    ensures var base, patch := Resolve(w.env, w.base.value), Resolve(w.env, w.overlay.tree);
            Find(Load(c, w, strict).1.tree, path) ==
            if Decided(base, patch, path) then Find(patch, path)
            else if Find(patch, path).None? then Find(base, path)
            else if DictAt(base, path) && DictAt(patch, path)
              then Some(Merge(Find(base, path).value, Find(patch, path).value))
            else None
  {
    LookupMerged(Resolve(w.env, w.base.value), Resolve(w.env, w.overlay.tree), path);
  }

  /** Built from one of the two, or from none. */
  lemma BuiltFromOne(c: Cache, w: World, strict: bool)
    requires Fresh(c, w) && !(Usable(w.base) && w.overlay.Readable? && w.overlay.tree.Dict?)
    ensures Load(c, w, strict).1
            == Config(if Usable(w.base) then Resolve(w.env, w.base.value)
                      else if w.overlay.Readable? && w.overlay.tree.Dict? then Resolve(w.env, w.overlay.tree)
                      else Dict(map[]))
  {
    if w.overlay.Readable? && w.overlay.tree.Dict? {
      var patch := Resolve(w.env, w.overlay.tree);
      assert Merge(Dict(map[]), patch).at == patch.at;
    }
  }
}
