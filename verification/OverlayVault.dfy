/**
 * Overlay tokens replicated from a shared vault into the environments of many processes. A save is
 * two steps, first the vault and then the own environment, under a lock that only serializes the
 * saves of one process. Change events may be lost, duplicated and reordered, so a process may
 * re-read any key at any time; a sweep is a series of re-reads of the keys the vault lists.
 */
module OverlayVault {
  import opened Storage

  type Env = map<string, string>

  function Lookup(env: Env, name: string): Option<string> {
    if name in env then Some(env[name]) else None
  }

  /** Set the variable, or remove it when the value is missing or empty. */
  function Assign(env: Env, name: string, value: Option<string>): Env {
    if value.Some? && value.value != "" then env[name := value.value] else env - {name}
  }

  /** What is left of a value that is set: an empty one removes. */
  function Kept(value: Option<string>): Option<string> {
    if value == Some("") then None else value
  }

  // ---------------------------------------------------------------- the sweep of one process

  /** What the vault answers to one re-read during a sweep. */
  datatype Answer = ReadFailed | Got(value: Option<string>)

  function Swept(env: Env, listed: seq<string>, answers: seq<Answer>): Env
    requires |listed| == |answers|
    decreases |listed|
  {
    if listed == [] then env
    else
      var n := |listed| - 1;
      var before := Swept(env, listed[..n], answers[..n]);
      if answers[n].Got? then Assign(before, listed[n], answers[n].value) else before
  }

  class Process {
    var environ: Env

    method Reapply(name: string, value: Option<string>)
      modifies this
      ensures environ == Assign(old(environ), name, value)
      ensures forall x :: Lookup(environ, x) == if x == name then Kept(value) else Lookup(old(environ), x)
    {
      if value.Some? && value.value != "" {
        environ := environ[name := value.value];
      } else {
        environ := environ - {name};
      }
    }

    /** Every listed key is re-read on its own; a failed read is skipped. */
    method Sweep(listed: seq<string>, answers: seq<Answer>)
      requires |listed| == |answers|
      modifies this
      ensures environ == Swept(old(environ), listed, answers)
    {
      ghost var before := environ;
      for i := 0 to |listed|
        invariant environ == Swept(before, listed[..i], answers[..i])
      {
        assert listed[..i + 1][..i] == listed[..i] && answers[..i + 1][..i] == answers[..i];
        if answers[i].Got? {
          Reapply(listed[i], answers[i].value);
        }
      }
      assert listed[..|listed|] == listed && answers[..|answers|] == answers;
    }
  }

  /** `listed` names every row of the vault; the values stored are never empty. */
  predicate Complete(vault: Env, listed: seq<string>) {
    && (forall name | name in vault :: name in listed && vault[name] != "")
    && (forall name | name in listed :: name in vault)
  }

  lemma {:induction false} SweptPrefix(env: Env, vault: Env, listed: seq<string>, answers: seq<Answer>, name: string)
    requires |listed| == |answers|
    requires forall n | n in vault :: vault[n] != ""
    requires forall i | 0 <= i < |listed| :: listed[i] in vault && answers[i] == Got(Lookup(vault, listed[i]))
    ensures Lookup(Swept(env, listed, answers), name)
            == if name in listed then Lookup(vault, name) else Lookup(env, name)
    decreases |listed|
  {
    if listed != [] {
      var n := |listed| - 1;
      SweptPrefix(env, vault, listed[..n], answers[..n], name);
      assert listed == listed[..n] + [listed[n]];
    }
  }

  /**
   * A complete sweep without read failures lays the vault over the environment. So the process
   * then agrees with the vault on every stored key, and on everything exactly when it held no
   * token that the vault has lost.
   */
  lemma SweepLaysVaultOver(env: Env, vault: Env, listed: seq<string>, answers: seq<Answer>)
    requires |listed| == |answers| && Complete(vault, listed)
    requires forall i | 0 <= i < |listed| :: answers[i] == Got(Lookup(vault, listed[i]))
    ensures Swept(env, listed, answers) == env + vault
    ensures Swept(env, listed, answers) == vault <==> env.Keys <= vault.Keys
  {
    var now := Swept(env, listed, answers);
    forall name
      ensures Lookup(now, name) == Lookup(env + vault, name)
    {
      SweptPrefix(env, vault, listed, answers, name);
    }
    assert forall name :: name in now <==> Lookup(now, name).Some?;
    assert now == env + vault;
    if env.Keys <= vault.Keys {
      assert env + vault == vault;
    } else {
      assert (env + vault).Keys != vault.Keys;
    }
  }

  /** The last answer that a sweep got for a key, if it got any. */
  function LastAnswer(listed: seq<string>, answers: seq<Answer>, name: string): Option<Answer>
    requires |listed| == |answers|
    decreases |listed|
  {
    if listed == [] then None
    else
      var n := |listed| - 1;
      if listed[n] == name && answers[n].Got? then Some(answers[n]) else LastAnswer(listed[..n], answers[..n], name)
  }

  /** A sweep sets exactly the listed keys that it could read, each to what the vault answered. */
  lemma {:induction false} SweepSetsWhatItReads(env: Env, listed: seq<string>, answers: seq<Answer>, name: string)
    requires |listed| == |answers|
    ensures var answer := LastAnswer(listed, answers, name);
            Lookup(Swept(env, listed, answers), name)
            == if answer.Some? && answer.value.Got? then Kept(answer.value.value) else Lookup(env, name)
    decreases |listed|
  {
    if listed != [] {
      var n := |listed| - 1;
      SweepSetsWhatItReads(env, listed[..n], answers[..n], name);
    }
  }

  // ---------------------------------------------------------------- many processes

  datatype Proc = Proc(env: Env, saving: Option<(string, Option<string>)>)

  datatype Sys = Sys(vault: Env, procs: map<nat, Proc>)

  datatype Event =
    | Write(pid: nat, name: string, value: Option<string>) // the vault half of a save
    | Apply(pid: nat)                                      // its environment half
    | Reread(pid: nat, name: string)                       // an event or a sweep step

  function Next(s: Sys, e: Event): Sys {
    if e.pid !in s.procs then s
    else
      var p := s.procs[e.pid];
      match e
      case Write(pid, name, value) =>
        if p.saving.Some? then s
        else Sys(Assign(s.vault, name, value), s.procs[pid := p.(saving := Some((name, value)))])
      case Apply(pid) =>
        if p.saving.None? then s
        else s.(procs := s.procs[pid := Proc(Assign(p.env, p.saving.value.0, p.saving.value.1), None)])
      case Reread(pid, name) =>
        s.(procs := s.procs[pid := p.(env := Assign(p.env, name, Lookup(s.vault, name)))])
  }

  function Run(s: Sys, trace: seq<Event>): Sys {
    if trace == [] then s else Next(Run(s, trace[..|trace| - 1]), trace[|trace| - 1])
  }

  predicate Agrees(s: Sys, pid: nat, name: string) {
    pid in s.procs && Lookup(s.procs[pid].env, name) == Lookup(s.vault, name)
  }

  // ---------------------------------------------------------------- what a run leaves where

  /** The event is a save of the key that the process can begin. */
  predicate Writes(s: Sys, e: Event, name: string) {
    e.Write? && e.name == name && e.pid in s.procs && s.procs[e.pid].saving.None?
  }

  /** The vault's value for a key: that of the last save of that key, or the one it had at first. */
  function LastSaved(s: Sys, trace: seq<Event>, name: string): Option<string> {
    if trace == [] then Lookup(s.vault, name)
    else
      var before, last := trace[..|trace| - 1], trace[|trace| - 1];
      if Writes(Run(s, before), last, name) then Kept(last.value) else LastSaved(s, before, name)
  }

  /** A save of one key sets that key and leaves every other as it was. */
  lemma {:induction false} LastSaveWins(s: Sys, trace: seq<Event>, name: string)
    ensures Lookup(Run(s, trace).vault, name) == LastSaved(s, trace, name)
  {
    if trace != [] {
      LastSaveWins(s, trace[..|trace| - 1], name);
    }
  }

  /** The event gives the process's variable a new value, and which. */
  predicate Gives(s: Sys, e: Event, pid: nat, name: string) {
    && e.pid == pid && pid in s.procs
    && ((e.Apply? && Saving(s, pid, name)) || (e.Reread? && e.name == name))
  }

  function Given(s: Sys, e: Event, pid: nat, name: string): Option<string>
    requires Gives(s, e, pid, name)
  {
    if e.Apply? then Kept(s.procs[pid].saving.value.1) else Kept(Lookup(s.vault, name))
  }

  /** A process's value for a key: that of the last save it finished or re-read it made of that key. */
  function LastGiven(s: Sys, trace: seq<Event>, pid: nat, name: string): Option<string>
    requires pid in s.procs
  {
    if trace == [] then Lookup(s.procs[pid].env, name)
    else
      var before, last := trace[..|trace| - 1], trace[|trace| - 1];
      if Gives(Run(s, before), last, pid, name) then Given(Run(s, before), last, pid, name)
      else LastGiven(s, before, pid, name)
  }

  /** Nothing else changes a process's environment: no other key's event, and no other process's. */
  lemma {:induction false} LastGivenCounts(s: Sys, trace: seq<Event>, pid: nat, name: string)
    requires pid in s.procs
    ensures var t := Run(s, trace);
            pid in t.procs && Lookup(t.procs[pid].env, name) == LastGiven(s, trace, pid, name)
  {
    if trace != [] {
      LastGivenCounts(s, trace[..|trace| - 1], pid, name);
    }
  }

  /** The process has a half-done save of the key: in the vault, not yet in its own environment. */
  predicate Saving(s: Sys, pid: nat, name: string) {
    pid in s.procs && s.procs[pid].saving.Some? && s.procs[pid].saving.value.0 == name
  }

  /** A save is half done from its write to the vault until the process applies it. */
  lemma SavingFromWriteToApply(s: Sys, e: Event, pid: nat, name: string)
    ensures Saving(Next(s, e), pid, name)
            <==> (Saving(s, pid, name) && e != Apply(pid)) || (Writes(s, e, name) && e.pid == pid)
    ensures Saving(Next(s, e), pid, name) ==>
              Next(s, e).procs[pid].saving.value.1
              == if Saving(s, pid, name) then s.procs[pid].saving.value.1 else e.value
  {
  }

  predicate NoEmptyValues(s: Sys) {
    forall name | name in s.vault :: s.vault[name] != ""
  }

  /** The vault's writes have stopped; saves begun before may still reach their own environments. */
  predicate NoWrites(trace: seq<Event>) {
    forall e | e in trace :: !e.Write?
  }

  lemma {:induction false} NeverEmpty(s: Sys, trace: seq<Event>)
    requires NoEmptyValues(s)
    ensures NoEmptyValues(Run(s, trace))
  {
    if trace != [] {
      NeverEmpty(s, trace[..|trace| - 1]);
    }
  }

  /** What that save will put into the environment. */
  function SavedValue(s: Sys, pid: nat, name: string): Option<string>
    requires Saving(s, pid, name)
  {
    Kept(s.procs[pid].saving.value.1)
  }

  lemma {:induction false} VaultStays(s: Sys, trace: seq<Event>, pid: nat)
    requires NoWrites(trace) && pid in s.procs
    ensures var t := Run(s, trace);
            && t.vault == s.vault && pid in t.procs
            && t.procs[pid].saving == if Apply(pid) in trace then None else s.procs[pid].saving
  {
    if trace != [] {
      var before, last := trace[..|trace| - 1], trace[|trace| - 1];
      assert trace == before + [last];
      assert last in trace;
      VaultStays(s, before, pid);
    }
  }

  /** The process re-reads the key after it has finished its save. */
  predicate RereadAfterApply(trace: seq<Event>, pid: nat, name: string) {
    exists j | 0 <= j < |trace| :: trace[j] == Reread(pid, name) && Apply(pid) in trace[..j]
  }

  lemma RereadAfterApplySnoc(before: seq<Event>, last: Event, pid: nat, name: string)
    ensures RereadAfterApply(before + [last], pid, name)
            <==> RereadAfterApply(before, pid, name) || (last == Reread(pid, name) && Apply(pid) in before)
  {
    var trace := before + [last];
    assert forall j | 0 <= j <= |before| :: trace[..j] == before[..j];
    assert before[..|before|] == before;
    if RereadAfterApply(before, pid, name) {
      var j :| 0 <= j < |before| && before[j] == Reread(pid, name) && Apply(pid) in before[..j];
      assert trace[j] == Reread(pid, name) && Apply(pid) in trace[..j];
    }
    if last == Reread(pid, name) && Apply(pid) in before {
      assert trace[|before|] == Reread(pid, name) && Apply(pid) in trace[..|before|];
    }
  }

  /**
   * Exactly when a process ends up agreeing with the vault on a key. If it finishes a save of that key
   * meanwhile: when what it saved is what the vault holds, or it re-reads the key afterwards.
   * Otherwise: when it re-reads the key at all, or agreed already.
   */
  predicate EndsAgreeing(s: Sys, trace: seq<Event>, pid: nat, name: string) {
    if Saving(s, pid, name) && Apply(pid) in trace then
      SavedValue(s, pid, name) == Lookup(s.vault, name) || RereadAfterApply(trace, pid, name)
    else
      Reread(pid, name) in trace || Agrees(s, pid, name)
  }

  /**
   * Once the vault's writes have stopped, whatever events are lost, repeated or reordered and whatever
   * saves are still half done: a process agrees with the vault on a key, deletions included, exactly
   * as `EndsAgreeing` says.
   */
  lemma {:induction false} AgreesAfterReread(s: Sys, trace: seq<Event>, pid: nat, name: string)
    requires NoEmptyValues(s) && NoWrites(trace) && pid in s.procs
    ensures Agrees(Run(s, trace), pid, name) <==> EndsAgreeing(s, trace, pid, name)
  {
    if trace != [] {
      var before, last := trace[..|trace| - 1], trace[|trace| - 1];
      assert trace == before + [last];
      assert last in trace;
      VaultStays(s, before, pid);
      AgreesAfterReread(s, before, pid, name);
      RereadAfterApplySnoc(before, last, pid, name);
      StepAgrees(s, Run(s, before), last, pid, name);
    }
  }

  /** One event, from a state reached without writes. */
  lemma StepAgrees(s: Sys, t: Sys, e: Event, pid: nat, name: string)
    requires NoEmptyValues(s) && !e.Write? && pid in t.procs && t.vault == s.vault
    ensures var applies := e == Apply(pid) && Saving(t, pid, name);
            Agrees(Next(t, e), pid, name) <==>
              if applies then SavedValue(t, pid, name) == Lookup(s.vault, name)
              else e == Reread(pid, name) || Agrees(t, pid, name)
  {
  }

  /** No save is half done. */
  predicate Quiet(s: Sys) {
    forall pid | pid in s.procs :: s.procs[pid].saving.None?
  }

  /** With no save half done, re-reading the key is what counts. */
  lemma QuietAgreesAfterReread(s: Sys, trace: seq<Event>, pid: nat, name: string)
    requires Quiet(s) && NoEmptyValues(s) && NoWrites(trace) && pid in s.procs
    ensures Agrees(Run(s, trace), pid, name) <==> Reread(pid, name) in trace || Agrees(s, pid, name)
  {
    AgreesAfterReread(s, trace, pid, name);
  }

  /**
   * A deletion whose event is lost is never repaired by sweeps, since they re-read only the keys that
   * the vault still lists: the token goes only if the process finishes a removal of its own.
   */
  lemma LostDeletionStays(s: Sys, sweeps: seq<Event>, pid: nat, name: string)
    requires NoEmptyValues(s) && NoWrites(sweeps) && pid in s.procs
    requires forall e | e in sweeps :: e.Reread? ==> e.name in s.vault
    requires name in s.procs[pid].env && name !in s.vault
    ensures Agrees(Run(s, sweeps), pid, name) <==>
              Saving(s, pid, name) && SavedValue(s, pid, name) == None && Apply(pid) in sweeps
  {
    AgreesAfterReread(s, sweeps, pid, name);
    assert Reread(pid, name) !in sweeps;
  }

  lemma RunSnoc(s: Sys, trace: seq<Event>, t: Sys, e: Event)
    requires Run(s, trace) == t
    ensures Run(s, trace + [e]) == Next(t, e)
  {
    assert (trace + [e])[..|trace|] == trace;
  }

  /** Such a state is reached: 1 saves, 2 re-reads, 1 removes, and the event of the removal is lost. */
  lemma DeletionCanBeLost()
    ensures var s := Sys(map[], map[1 := Proc(map[], None), 2 := Proc(map[], None)]);
            var t := Run(s, [] + [Write(1, "K", Some("a"))] + [Apply(1)] + [Reread(2, "K")]
                            + [Write(1, "K", None)] + [Apply(1)]);
            Quiet(t) && 2 in t.procs && "K" in t.procs[2].env && "K" !in t.vault
  {
    var s := Sys(map[], map[1 := Proc(map[], None), 2 := Proc(map[], None)]);
    var t1 := [] + [Write(1, "K", Some("a"))];
    var s1 := Next(s, Write(1, "K", Some("a")));
    RunSnoc(s, [], s, Write(1, "K", Some("a")));
    var t2, s2 := t1 + [Apply(1)], Next(s1, Apply(1));
    RunSnoc(s, t1, s1, Apply(1));
    var t3, s3 := t2 + [Reread(2, "K")], Next(s2, Reread(2, "K"));
    RunSnoc(s, t2, s2, Reread(2, "K"));
    var t4, s4 := t3 + [Write(1, "K", None)], Next(s3, Write(1, "K", None));
    RunSnoc(s, t3, s3, Write(1, "K", None));
    RunSnoc(s, t4, s4, Apply(1));
    assert s3.procs[2].env == map["K" := "a"];
  }

  /**
   * The writer itself can end up stale: another process overwrites the key between the two halves
   * of its save, and it handles that change before finishing its own.
   */
  lemma WriterCanBeStale()
    ensures var s := Sys(map[], map[1 := Proc(map[], None), 2 := Proc(map[], None)]);
            var t := Run(s, [Write(1, "K", Some("a")), Write(2, "K", Some("b")), Apply(2), Reread(1, "K"), Apply(1)]);
            Quiet(t) && !Agrees(t, 1, "K") && Agrees(t, 2, "K")
  {
    var s := Sys(map[], map[1 := Proc(map[], None), 2 := Proc(map[], None)]);
    var trace := [Write(1, "K", Some("a")), Write(2, "K", Some("b")), Apply(2), Reread(1, "K"), Apply(1)];
    assert trace[..4] == [Write(1, "K", Some("a")), Write(2, "K", Some("b")), Apply(2), Reread(1, "K")];
    assert trace[..4][..3] == [Write(1, "K", Some("a")), Write(2, "K", Some("b")), Apply(2)];
    assert trace[..4][..3][..2] == [Write(1, "K", Some("a")), Write(2, "K", Some("b"))];
    assert trace[..4][..3][..2][..1] == [Write(1, "K", Some("a"))];
    assert trace[..4][..3][..2][..1][..0] == [];
    var s1 := Next(s, Write(1, "K", Some("a")));
    var s2 := Next(s1, Write(2, "K", Some("b")));
    var s3 := Next(s2, Apply(2));
    var s4 := Next(s3, Reread(1, "K"));
    assert Run(s, trace[..4][..3][..2][..1]) == s1;
    assert Run(s, trace[..4][..3][..2]) == s2;
    assert Run(s, trace[..4][..3]) == s3;
    assert Run(s, trace[..4]) == s4;
    var t := Run(s, trace);
    assert t == Next(s4, Apply(1));
    assert s4.procs[1].saving == Some(("K", Some("a")));
    assert t.procs[1].env["K"] == "a" && t.vault["K"] == "b";
  }
}
