/** The instance configuration: environment references, the deep merge of overlay over base, lookups. */
module LayeredConfig {
  import opened Storage
  import opened Text

  datatype Tree =
    | Null
    | Scalar(text: string)
    | Number(value: int) // any scalar that is not a string
    | List(items: seq<Tree>)
    | Dict(at: map<string, Tree>)

  // ---------------------------------------------------------------- the merge

  predicate BothDicts(base: Tree, patch: Tree, key: string)
    requires base.Dict? && patch.Dict?
  {
    key in base.at && key in patch.at && base.at[key].Dict? && patch.at[key].Dict?
  }

  /** The patch laid over the base: dictionaries are merged, everything else is replaced. */
  function Merge(base: Tree, patch: Tree): (t: Tree)
    requires base.Dict? && patch.Dict?
    ensures t.Dict?
    decreases patch
  {
    Dict(map key | key in base.at.Keys + patch.at.Keys ::
           if BothDicts(base, patch, key) then Merge(base.at[key], patch.at[key])
           else if key in patch.at then patch.at[key]
           else base.at[key])
  }

  /** What the merge holds at a key of the patch. */
  function MergedAt(base: Tree, patch: Tree, key: string): Tree
    requires base.Dict? && patch.Dict? && key in patch.at
  {
    if BothDicts(base, patch, key) then Merge(base.at[key], patch.at[key]) else patch.at[key]
  }

  /** The patch without the keys still to come. */
  function Without(patch: Tree, todo: set<string>): (t: Tree)
    requires patch.Dict?
    ensures t.Dict?
  {
    Dict(patch.at - todo)
  }

  lemma OneMoreKey(base: Tree, patch: Tree, todo: set<string>, key: string)
    requires base.Dict? && patch.Dict? && key in todo && key in patch.at
    ensures Merge(base, Without(patch, todo - {key})).at
            == Merge(base, Without(patch, todo)).at[key := MergedAt(base, patch, key)]
    ensures var at := Merge(base, Without(patch, todo)).at;
            (key in at <==> key in base.at) && (key in at ==> at[key] == base.at[key])
  {
    var more, fewer := Without(patch, todo - {key}), Without(patch, todo);
    var left, right := Merge(base, more).at, Merge(base, fewer).at[key := MergedAt(base, patch, key)];
    assert more.at.Keys == fewer.at.Keys + {key};
    assert left.Keys == right.Keys;
    forall k | k in left
      ensures left[k] == right[k]
    {
      assert k != key ==> (BothDicts(base, more, k) <==> BothDicts(base, fewer, k));
    }
  }

  /** The merge as it is computed: a copy of the base, updated key by key. */
  method DeepMerge(base: Tree, patch: Tree) returns (out: Tree)
    requires base.Dict? && patch.Dict?
    ensures out == Merge(base, patch)
    decreases patch
  {
    var at := base.at;
    var todo := patch.at.Keys;
    assert at == Merge(base, Without(patch, todo)).at;
    while todo != {}
      invariant todo <= patch.at.Keys
      invariant at == Merge(base, Without(patch, todo)).at
      decreases |todo|
    {
      EmptyOrNot(todo);
      var key :| key in todo; // a dictionary's order of iteration is left open
      OneMoreKey(base, patch, todo, key);
      if patch.at[key].Dict? && key in at && at[key].Dict? {
        var merged := DeepMerge(at[key], patch.at[key]);
        at := at[key := merged];
      } else {
        at := at[key := patch.at[key]];
      }
      todo := todo - {key};
    }
    assert Without(patch, todo) == patch;
    out := Dict(at);
  }

  /** A dictionary merged into itself is unchanged. */
  lemma {:induction false} MergeSelf(p: Tree)
    requires p.Dict?
    ensures Merge(p, p) == p
    decreases p
  {
    forall key | key in p.at
      ensures Merge(p, p).at[key] == p.at[key]
    {
      if p.at[key].Dict? {
        MergeSelf(p.at[key]);
      }
    }
    assert Merge(p, p).at == p.at;
  }

  /** Merging the same overlay twice changes nothing. */
  lemma {:induction false} MergeTwice(base: Tree, patch: Tree)
    requires base.Dict? && patch.Dict?
    ensures Merge(Merge(base, patch), patch) == Merge(base, patch)
    decreases patch
  {
    var once := Merge(base, patch);
    forall key | key in once.at
      ensures Merge(once, patch).at[key] == once.at[key]
    {
      if BothDicts(base, patch, key) {
        MergeTwice(base.at[key], patch.at[key]);
      } else if BothDicts(once, patch, key) {
        MergeSelf(patch.at[key]);
      }
    }
    assert Merge(once, patch).at == once.at;
  }

  // ---------------------------------------------------------------- lookups

  /** The node at a path, if every step of the path exists. */
  function Find(t: Tree, path: seq<string>): Option<Tree>
    decreases |path|
  {
    if path == [] then Some(t)
    else if t.Dict? && path[0] in t.at then Find(t.at[path[0]], path[1..])
    else None
  }

  /** The lookup loop: a missing step, a step into a non-dictionary and a null all give the default. */
  method GetValue(config: Tree, path: seq<string>, default: Tree) returns (value: Tree)
    ensures var found := Find(config, path);
            value == if found.Some? && (found.value != Null || path == []) then found.value else default
  {
    var current := config;
    for i := 0 to |path|
      invariant Find(config, path) == Find(current, path[i..])
      invariant current == Null ==> i == 0
    {
      assert path[i..][1..] == path[i + 1..];
      if !current.Dict? || path[i] !in current.at {
        return default;
      }
      current := current.at[path[i]];
      if current == Null {
        assert Find(Null, path[i + 1..]) == if path[i + 1..] == [] then Some(Null) else None;
        return default;
      }
    }
    value := current;
  }

  lemma FindOne(t: Tree, path: seq<string>)
    requires path != []
    ensures Find(t, path[..1]) == if t.Dict? && path[0] in t.at then Some(t.at[path[0]]) else None
  {
    assert path[..1][0] == path[0] && path[..1][1..] == [];
  }

  predicate DictAt(t: Tree, path: seq<string>) {
    Find(t, path).Some? && Find(t, path).value.Dict?
  }

  /** The overlay sets `path` to something that is not merged with the base. */
  predicate Decides(base: Tree, patch: Tree, path: seq<string>) {
    Find(patch, path).Some? && !(DictAt(patch, path) && DictAt(base, path))
  }

  /** The overlay decides the path or one of its ancestors. */
  predicate Decided(base: Tree, patch: Tree, path: seq<string>) {
    exists i | 1 <= i <= |path| :: Decides(base, patch, path[..i])
  }

  lemma DecidedBelow(base: Tree, patch: Tree, path: seq<string>)
    requires path != [] && base.Dict? && patch.Dict? && BothDicts(base, patch, path[0])
    ensures Decided(base, patch, path) <==> Decided(base.at[path[0]], patch.at[path[0]], path[1..])
  {
    var b, p := base.at[path[0]], patch.at[path[0]];
    forall i | 2 <= i <= |path|
      ensures Decides(base, patch, path[..i]) <==> Decides(b, p, path[1..][..i - 1])
    {
      assert path[..i][0] == path[0] && path[..i][1..] == path[1..][..i - 1];
    }
    FindOne(base, path);
    FindOne(patch, path);
    if Decided(b, p, path[1..]) {
      var j :| 1 <= j <= |path[1..]| && Decides(b, p, path[1..][..j]);
      assert Decides(base, patch, path[..j + 1]);
    }
    if Decided(base, patch, path) {
      var i :| 1 <= i <= |path| && Decides(base, patch, path[..i]);
      assert Decides(b, p, path[1..][..i - 1]);
    }
  }

  /**
   * A lookup in the merged configuration reads the overlay where it sets the path or decides an
   * ancestor, merges where both sides hold dictionaries, and reads the base everywhere else.
   */
  lemma {:induction false} LookupMerged(base: Tree, patch: Tree, path: seq<string>)
    requires base.Dict? && patch.Dict? && path != []
    ensures Find(Merge(base, patch), path) ==
            if Decided(base, patch, path) then Find(patch, path)
            else if Find(patch, path).Some? then
              (if DictAt(base, path) && DictAt(patch, path)
               then Some(Merge(Find(base, path).value, Find(patch, path).value))
               else None)
            else Find(base, path)
    ensures !Decided(base, patch, path) && Find(patch, path).Some? ==> DictAt(base, path) && DictAt(patch, path)
    decreases |path|
  {
    var key, rest := path[0], path[1..];
    assert path[..|path|] == path;
    if Find(patch, path).Some? && !(DictAt(base, path) && DictAt(patch, path)) {
      assert Decides(base, patch, path[..|path|]);
    }
    if BothDicts(base, patch, key) {
      DecidedBelow(base, patch, path);
      if rest != [] {
        LookupMerged(base.at[key], patch.at[key], rest);
      }
    } else if key in patch.at {
      FindOne(base, path);
      FindOne(patch, path);
      assert Decides(base, patch, path[..1]);
    } else {
      forall i | 1 <= i <= |path|
        ensures Find(patch, path[..i]).None?
      {
        assert path[..i][0] == key;
      }
    }
  }

  // ---------------------------------------------------------------- environment references

  type Env = map<string, string>

  /** Replace `${NAME}` by the variable, or by nothing when it is unset; one pass, left to right. */
  function ResolveText(env: Env, s: string): string
    decreases |s|
  {
    if s == "" then ""
    else if StartsWith(s, "${") && 0 < IndexOf(s[2..], '}') < |s| - 2 then
      var name := s[2..][..IndexOf(s[2..], '}')];
      (if name in env then env[name] else "") + ResolveText(env, s[2 + |name| + 1..])
    else [s[0]] + ResolveText(env, s[1..])
  }

  function Resolve(env: Env, t: Tree): (r: Tree)
    ensures r.Dict? == t.Dict?
    ensures t.Dict? ==> r.at.Keys == t.at.Keys
  {
    match t
    case Scalar(s) => Scalar(ResolveText(env, s))
    case List(items) => List(seq(|items|, i requires 0 <= i < |items| => Resolve(env, items[i])))
    case Dict(at) => Dict(map key | key in at :: Resolve(env, at[key]))
    case _ => t
  }

  /** Resolving both layers and merging is the same as merging and resolving the result. */
  lemma {:induction false} ResolveCommutesWithMerge(env: Env, base: Tree, patch: Tree)
    requires base.Dict? && patch.Dict?
    ensures Resolve(env, Merge(base, patch)) == Merge(Resolve(env, base), Resolve(env, patch))
    decreases patch
  {
    var left, right := Resolve(env, Merge(base, patch)), Merge(Resolve(env, base), Resolve(env, patch));
    forall key | key in left.at
      ensures left.at[key] == right.at[key]
    {
      if BothDicts(base, patch, key) {
        ResolveCommutesWithMerge(env, base.at[key], patch.at[key]);
      }
    }
    assert left.at.Keys == right.at.Keys;
    assert left.at == right.at;
  }

  /** Text without a dollar sign is left alone. */
  lemma {:induction false} ResolveLeavesPlainText(env: Env, s: string)
    requires '$' !in s
    ensures ResolveText(env, s) == s
  {
    if s != "" {
      assert s[0] in s;
      ResolveLeavesPlainText(env, s[1..]);
    }
  }

  /** A reference becomes its variable, whatever follows it; what the variable holds is not scanned again. */
  lemma ReferenceResolves(env: Env, name: string, rest: string)
    requires name != "" && '}' !in name
    ensures ResolveText(env, "${" + name + "}" + rest)
            == (if name in env then env[name] else "") + ResolveText(env, rest)
  {
    var s := "${" + name + "}" + rest;
    assert s[2..] == name + "}" + rest;
    assert s[2..][|name|] == '}' && s[2..][..|name|] == name;
    IndexOfAt(s[2..], '}', |name|);
    assert s[2 + |name| + 1..] == rest;
  }

  // ---------------------------------------------------------------- what resolving does to a tree

  datatype Step = Key(key: string) | Item(index: nat)

  /** The node at a path through dictionaries and lists, if there is one. */
  function Node(t: Tree, path: seq<Step>): Option<Tree>
    decreases |path|
  {
    if path == [] then Some(t)
    else
      match path[0]
      case Key(key) => if t.Dict? && key in t.at then Node(t.at[key], path[1..]) else None
      case Item(i) => if t.List? && i < |t.items| then Node(t.items[i], path[1..]) else None
  }

  /** A node after resolving: a text is substituted, keys and list lengths stay, all else is the same. */
  predicate ResolvedNode(env: Env, was: Tree, now: Tree) {
    match was
    case Scalar(text) => now == Scalar(ResolveText(env, text))
    case List(items) => now.List? && |now.items| == |items|
    case Dict(at) => now.Dict? && now.at.Keys == at.Keys
    case _ => now == was
  }

  /** Resolving reaches every node of a tree, through dictionaries and lists alike, and adds or loses none. */
  lemma {:induction false} ResolvesEveryNode(env: Env, t: Tree, path: seq<Step>)
    ensures Node(Resolve(env, t), path).Some? <==> Node(t, path).Some?
    ensures Node(t, path).Some? ==> ResolvedNode(env, Node(t, path).value, Node(Resolve(env, t), path).value)
    decreases |path|
  {
    if path != [] {
      match path[0]
      case Key(key) =>
        if t.Dict? && key in t.at {
          ResolvesEveryNode(env, t.at[key], path[1..]);
        }
      case Item(i) =>
        if t.List? && i < |t.items| {
          ResolvesEveryNode(env, t.items[i], path[1..]);
        }
    }
  }

  /** A text that is one reference, anywhere in the tree, becomes the variable, or the empty text when it is unset. */
  lemma ReferenceInTree(env: Env, t: Tree, path: seq<Step>, name: string)
    requires Node(t, path) == Some(Scalar("${" + name + "}")) && name != "" && '}' !in name
    ensures Node(Resolve(env, t), path) == Some(Scalar(if name in env then env[name] else ""))
  {
    ResolvesEveryNode(env, t, path);
    ReferenceResolves(env, name, "");
    assert "${" + name + "}" + "" == "${" + name + "}";
    var value := if name in env then env[name] else "";
    assert ResolveText(env, "") == "" && value + "" == value;
  }

  // ---------------------------------------------------------------- what resolving does to a text

  /** A character at which no reference begins is kept. */
  lemma PlainCharacterStays(env: Env, c: char, rest: string)
    requires c != '$' || rest == "" || rest[0] != '{'
    ensures ResolveText(env, [c] + rest) == [c] + ResolveText(env, rest)
  {
    var s := [c] + rest;
    assert s[0] == c && s[1..] == rest;
    assert rest != "" ==> s[1] == rest[0];
  }

  /** An empty reference is kept: nothing but its dollar sign is passed over. */
  lemma EmptyReferenceStays(env: Env, rest: string)
    ensures ResolveText(env, "${}" + rest) == "$" + ResolveText(env, "{}" + rest)
  {
    var s := "${}" + rest;
    assert s[2..] == "}" + rest && s[2..][0] == '}';
    IndexOfAt(s[2..], '}', 0);
    assert s[1..] == "{}" + rest;
  }

  /** A text without a closing brace has no reference. */
  lemma {:induction false} UnclosedStays(env: Env, s: string)
    requires '}' !in s
    ensures ResolveText(env, s) == s
  {
    if s != "" {
      assert forall c | c in s[1..] :: c in s;
      UnclosedStays(env, s[1..]);
      if StartsWith(s, "${") {
        assert forall c | c in s[2..] :: c in s;
      }
    }
  }

  /** What stands before is kept, as long as no reference begins in it. */
  lemma {:induction false} PlainTextBeforeStays(env: Env, before: string, tail: string)
    requires '$' !in before
    ensures ResolveText(env, before + tail) == before + ResolveText(env, tail)
  {
    if before == "" {
      assert before + tail == tail;
    } else {
      var c, rest := before[0], before[1..];
      assert c in before && before == [c] + rest;
      PlainTextBeforeStays(env, rest, tail);
      PlainCharacterStays(env, c, rest + tail);
      Regroup(c, rest, tail, ResolveText(env, tail));
    }
  }

  lemma Regroup(c: char, rest: string, tail: string, resolved: string)
    ensures [c] + rest + tail == [c] + (rest + tail) && [c] + rest + resolved == [c] + (rest + resolved)
  {
  }

  /** A reference is resolved wherever it stands: the text before it is kept, what follows is resolved on its own. */
  lemma ReferenceResolvesInside(env: Env, before: string, name: string, rest: string)
    requires '$' !in before && name != "" && '}' !in name
    ensures ResolveText(env, before + ("${" + name + "}" + rest))
            == before + ((if name in env then env[name] else "") + ResolveText(env, rest))
  {
    PlainTextBeforeStays(env, before, "${" + name + "}" + rest);
    ReferenceResolves(env, name, rest);
  }
}
