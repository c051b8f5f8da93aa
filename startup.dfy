/**
 * The forge initialisation pass of `Engine::init`, as a value: each forge of
 * the registry as it stood when the pass began is initialised once, in
 * insertion order; an \Exception it throws is caught and recorded, and the
 * pass goes on; an \Error is not caught and ends the pass.
 */
module Startup {
  import opened Php
  import opened Forges
  import opened ForgeRegistry

  /** A forge whose `init` threw an \Exception, with the exception's message. */
  datatype Failure = Failure(id: string, message: string)

  /** The state after (part of) a pass: the registry, the ids whose forge was
      initialised, the caught failures, and the \Error that ended the pass, if any. */
  datatype Pass = Pass(registry: Registry, visited: seq<string>, failures: seq<Failure>, fatal: Option<Throwable>)

  /** The text `init` logs for a caught failure. */
  const FailurePrefix := "Error al inicializar Forge "

  function FailureText(f: Failure): (s: string)
    ensures |FailurePrefix| + |f.id| <= |s|
    ensures s[..|FailurePrefix|] == FailurePrefix && s[|FailurePrefix|..|FailurePrefix| + |f.id|] == f.id
  {
    FailurePrefix + f.id + ": " + f.message
  }

  /** The texts logged for a run of failures, in order. */
  function FailureTexts(fs: seq<Failure>): (ts: seq<string>)
    ensures |ts| == |fs|
    decreases |fs|
  {
    if fs == [] then [] else FailureTexts(fs[..|fs| - 1]) + [FailureText(fs[|fs| - 1])]
  }

  lemma {:induction false} FailureTextsAt(fs: seq<Failure>, k: nat)
    requires k < |fs|
    ensures FailureTexts(fs)[k] == FailureText(fs[k])
    decreases |fs|
  {
    if k < |fs| - 1 {
      FailureTextsAt(fs[..|fs| - 1], k);
    }
  }

  lemma FailureTextsAppend(fs: seq<Failure>, f: Failure)
    ensures FailureTexts(fs + [f]) == FailureTexts(fs) + [FailureText(f)]
  {
    assert (fs + [f])[..|fs|] == fs;
  }

  /** `$forge->init($this)`: the registrations the forge makes through the engine,
      then its own ending; a rejected registration throws out of the forge's `init`. */
  function RunForge(r: Registry, f: Forge): (res: (Registry, Ending))
    ensures |r.order| <= |res.0.order| && res.0.order[..|r.order|] == r.order
    ensures res.1.Throws? && res.1.thrown.Error? ==> f.script.ends == res.1
  {
    var (r', t) := RegisterAll(r, f.script.registers);
    if t.Some? then (r', Throws(t.value)) else (r', f.script.ends)
  }

  /** The pass over `ids`, each looked up in `snapshot`, starting from registry `r`. */
  function InitFrom(snapshot: Registry, ids: seq<string>, r: Registry): Pass
    requires forall i :: 0 <= i < |ids| ==> ids[i] in snapshot.entries
    decreases |ids|
  {
    if ids == [] then Pass(r, [], [], None)
    else
      var id := ids[0];
      var (r1, e) := RunForge(r, snapshot.entries[id]);
      if e.Throws? && e.thrown.Error? then Pass(r1, [id], [], Some(e.thrown))
      else
        var rest := InitFrom(snapshot, ids[1..], r1);
        Pass(rest.registry, [id] + rest.visited,
             (if e.Throws? then [Failure(id, e.thrown.message)] else []) + rest.failures,
             rest.fatal)
  }

  /** Every recorded failure belongs to a forge the pass initialised. */
  lemma {:induction false} FailuresWereVisited(snapshot: Registry, ids: seq<string>, r: Registry)
    requires forall i :: 0 <= i < |ids| ==> ids[i] in snapshot.entries
    ensures forall k :: 0 <= k < |InitFrom(snapshot, ids, r).failures| ==>
              InitFrom(snapshot, ids, r).failures[k].id in InitFrom(snapshot, ids, r).visited
    decreases |ids|
  {
    if ids != [] {
      var (r1, e) := RunForge(r, snapshot.entries[ids[0]]);
      if !(e.Throws? && e.thrown.Error?) {
        assert forall i :: 1 <= i < |ids| ==> ids[i] == ids[1..][i - 1];
        FailuresWereVisited(snapshot, ids[1..], r1);
        var rest := InitFrom(snapshot, ids[1..], r1);
        var first: seq<Failure> := if e.Throws? then [Failure(ids[0], e.thrown.message)] else [];
        var p := InitFrom(snapshot, ids, r);
        assert p.failures == first + rest.failures && p.visited == [ids[0]] + rest.visited;
        forall k | 0 <= k < |p.failures| ensures p.failures[k].id in p.visited {
          if k >= |first| {
            assert p.failures[k] == rest.failures[k - |first|];
            assert rest.failures[k - |first|].id in rest.visited;
          } else {
            assert p.failures[k].id == ids[0] == p.visited[0];
          }
        }
      }
    }
  }

  /** Registrations made during the pass never remove or move a forge already registered. */
  lemma {:induction false} PassKeepsRegistered(snapshot: Registry, ids: seq<string>, r: Registry)
    requires forall i :: 0 <= i < |ids| ==> ids[i] in snapshot.entries
    ensures var p := InitFrom(snapshot, ids, r);
            |r.order| <= |p.registry.order| && p.registry.order[..|r.order|] == r.order
    decreases |ids|
  {
    if ids != [] {
      var (r1, e) := RunForge(r, snapshot.entries[ids[0]]);
      if !(e.Throws? && e.thrown.Error?) {
        assert forall i :: 1 <= i < |ids| ==> ids[i] == ids[1..][i - 1];
        PassKeepsRegistered(snapshot, ids[1..], r1);
        var q := InitFrom(snapshot, ids[1..], r1).registry.order;
        assert q[..|r1.order|] == r1.order;
        assert q[..|r.order|] == r1.order[..|r.order|];
      }
    }
  }

  /** The failures of a pass after the forge `id` ended as `e`. */
  function Caught(failures: seq<Failure>, id: string, e: Ending): seq<Failure> {
    failures + (if e.Throws? then [Failure(id, e.thrown.message)] else [])
  }

  /** The pass `rest`, after `visited` were initialised and `failures` caught. */
  function Then(visited: seq<string>, failures: seq<Failure>, rest: Pass): Pass {
    Pass(rest.registry, visited + rest.visited, failures + rest.failures, rest.fatal)
  }

  lemma ThenThen(v1: seq<string>, f1: seq<Failure>, v2: seq<string>, f2: seq<Failure>, p: Pass)
    ensures Then(v1, f1, Then(v2, f2, p)) == Then(v1 + v2, f1 + f2, p)
  {
    assert v1 + (v2 + p.visited) == (v1 + v2) + p.visited;
    assert f1 + (f2 + p.failures) == (f1 + f2) + p.failures;
  }

  lemma ThenStop(visited: seq<string>, failures: seq<Failure>, id: string, r: Registry, t: Throwable)
    ensures Then(visited, failures, Pass(r, [id], [], Some(t))) == Pass(r, visited + [id], failures, Some(t))
  {
    assert failures + [] == failures;
  }

  /** One turn of a pass that goes on: the forge at `ids[0]` ended without an \Error. */
  lemma InitFromContinues(snapshot: Registry, ids: seq<string>, r: Registry, r1: Registry, e: Ending)
    requires |ids| > 0
    requires forall i :: 0 <= i < |ids| ==> ids[i] in snapshot.entries
    requires (r1, e) == RunForge(r, snapshot.entries[ids[0]]) && !(e.Throws? && e.thrown.Error?)
    ensures InitFrom(snapshot, ids, r) == Then([ids[0]], Caught([], ids[0], e), InitFrom(snapshot, ids[1..], r1))
  {
    var first: seq<Failure> := if e.Throws? then [Failure(ids[0], e.thrown.message)] else [];
    var rest := InitFrom(snapshot, ids[1..], r1);
    assert InitFrom(snapshot, ids, r) == Pass(rest.registry, [ids[0]] + rest.visited, first + rest.failures, rest.fatal);
    assert Caught([], ids[0], e) == first;
  }

  /** One turn of a pass that stops: the forge at `ids[0]` threw an \Error. */
  lemma InitFromStops(snapshot: Registry, ids: seq<string>, r: Registry, r1: Registry, e: Ending)
    requires |ids| > 0
    requires forall i :: 0 <= i < |ids| ==> ids[i] in snapshot.entries
    requires (r1, e) == RunForge(r, snapshot.entries[ids[0]]) && e.Throws? && e.thrown.Error?
    ensures InitFrom(snapshot, ids, r) == Pass(r1, [ids[0]], [], Some(e.thrown))
  {
  }

  /** The pass initialises a prefix of `ids`, all of it unless an \Error stopped
      it, and only an \Error stops it. */
  lemma {:induction false} InitFromVisitsPrefix(snapshot: Registry, ids: seq<string>, r: Registry)
    requires forall i :: 0 <= i < |ids| ==> ids[i] in snapshot.entries
    ensures var p := InitFrom(snapshot, ids, r);
            |p.visited| <= |ids| && p.visited == ids[..|p.visited|] &&
            (p.fatal.None? ==> p.visited == ids) &&
            (p.fatal.Some? ==> p.fatal.value.Error? && |p.visited| > 0)
    decreases |ids|
  {
    if ids != [] {
      var (r1, e) := RunForge(r, snapshot.entries[ids[0]]);
      if !(e.Throws? && e.thrown.Error?) {
        assert forall i :: 1 <= i < |ids| ==> ids[i] == ids[1..][i - 1];
        InitFromVisitsPrefix(snapshot, ids[1..], r1);
        InitFromContinues(snapshot, ids, r, r1, e);
        var rest := InitFrom(snapshot, ids[1..], r1);
        assert [ids[0]] + ids[1..] == ids;
        assert [ids[0]] + rest.visited == ([ids[0]] + ids[1..])[..1 + |rest.visited|];
      } else {
        InitFromStops(snapshot, ids, r, r1, e);
      }
    }
  }

  /** The pass keeps the registry well formed. */
  lemma {:induction false} InitFromValid(snapshot: Registry, ids: seq<string>, r: Registry)
    requires Valid(r)
    requires forall i :: 0 <= i < |ids| ==> ids[i] in snapshot.entries
    ensures Valid(InitFrom(snapshot, ids, r).registry)
    decreases |ids|
  {
    if ids != [] {
      var f := snapshot.entries[ids[0]];
      RegisterAllValid(r, f.script.registers);
      var (r1, e) := RunForge(r, f);
      if !(e.Throws? && e.thrown.Error?) {
        assert forall i :: 1 <= i < |ids| ==> ids[i] == ids[1..][i - 1];
        InitFromValid(snapshot, ids[1..], r1);
        InitFromContinues(snapshot, ids, r, r1, e);
      } else {
        InitFromStops(snapshot, ids, r, r1, e);
      }
    }
  }

  /** The whole pass `foreach ($this->forges as $id => $forge)` over registry `r`. */
  function InitPass(r: Registry): Pass
    requires Valid(r)
  {
    InitFrom(r, r.order, r)
  }

  /** The full pass over `snapshot` is what remains of it from position `i`,
      starting from registry `r`, after `visited` and `failures`. */
  ghost predicate Resumes(snapshot: Registry, i: nat, r: Registry, visited: seq<string>, failures: seq<Failure>)
    requires Valid(snapshot) && i <= |snapshot.order|
  {
    InitPass(snapshot) == Then(visited, failures, InitFrom(snapshot, snapshot.order[i..], r))
  }

  lemma ResumesAtStart(snapshot: Registry)
    requires Valid(snapshot)
    ensures Resumes(snapshot, 0, snapshot, [], [])
  {
    assert snapshot.order[0..] == snapshot.order;
  }

  /** The loop of `init` advances by one forge that did not throw an \Error. */
  lemma ResumesStep(snapshot: Registry, i: nat, r: Registry, visited: seq<string>, failures: seq<Failure>,
                    r1: Registry, e: Ending)
    requires Valid(snapshot) && i < |snapshot.order|
    requires Resumes(snapshot, i, r, visited, failures)
    requires (r1, e) == RunForge(r, snapshot.entries[snapshot.order[i]]) && !(e.Throws? && e.thrown.Error?)
    ensures Resumes(snapshot, i + 1, r1, visited + [snapshot.order[i]], Caught(failures, snapshot.order[i], e))
  {
    var ids := snapshot.order[i..];
    assert ids[0] == snapshot.order[i] && ids[1..] == snapshot.order[i + 1..];
    InitFromContinues(snapshot, ids, r, r1, e);
    ThenThen(visited, failures, [ids[0]], Caught([], ids[0], e), InitFrom(snapshot, ids[1..], r1));
    assert failures + Caught([], ids[0], e) == Caught(failures, ids[0], e);
    assert snapshot.order[i + 1..] == ids[1..];
  }

  /** The loop of `init` stops at a forge that threw an \Error. */
  lemma ResumesStop(snapshot: Registry, i: nat, r: Registry, visited: seq<string>, failures: seq<Failure>,
                    r1: Registry, e: Ending)
    requires Valid(snapshot) && i < |snapshot.order|
    requires Resumes(snapshot, i, r, visited, failures)
    requires (r1, e) == RunForge(r, snapshot.entries[snapshot.order[i]]) && e.Throws? && e.thrown.Error?
    ensures InitPass(snapshot) == Pass(r1, visited + [snapshot.order[i]], failures, Some(e.thrown))
  {
    var ids := snapshot.order[i..];
    assert ids[0] == snapshot.order[i];
    InitFromStops(snapshot, ids, r, r1, e);
    ThenStop(visited, failures, ids[0], r1, e.thrown);
  }

  /** The loop of `init` has gone through the whole snapshot. */
  lemma ResumesEnd(snapshot: Registry, r: Registry, visited: seq<string>, failures: seq<Failure>)
    requires Valid(snapshot)
    requires Resumes(snapshot, |snapshot.order|, r, visited, failures)
    ensures InitPass(snapshot) == Pass(r, visited, failures, None)
  {
    assert snapshot.order[|snapshot.order|..] == [];
    assert visited + [] == visited && failures + [] == failures;
  }

  /** The forge a pass over `snapshot` calls for `ids[i]` ends with an \Error. */
  predicate EndsWithError(snapshot: Registry, ids: seq<string>, i: nat)
    requires i < |ids| && ids[i] in snapshot.entries
  {
    snapshot.entries[ids[i]].script.ends.Throws? && snapshot.entries[ids[i]].script.ends.thrown.Error?
  }

  /** Failure isolation: when no forge ends with an \Error, the pass reaches the
      end and initialises every forge of `ids`, in order, whatever the others threw. */
  lemma {:induction false} NoErrorVisitsAll(snapshot: Registry, ids: seq<string>, r: Registry)
    requires forall i :: 0 <= i < |ids| ==> ids[i] in snapshot.entries
    requires forall i :: 0 <= i < |ids| ==> !EndsWithError(snapshot, ids, i)
    ensures InitFrom(snapshot, ids, r).fatal.None?
    ensures InitFrom(snapshot, ids, r).visited == ids
    decreases |ids|
  {
    if ids != [] {
      var (r1, e) := RunForge(r, snapshot.entries[ids[0]]);
      assert !EndsWithError(snapshot, ids, 0);
      assert forall i :: 1 <= i < |ids| ==> ids[i] == ids[1..][i - 1];
      assert forall i :: 0 <= i < |ids[1..]| ==> !EndsWithError(snapshot, ids[1..], i) by {
        forall i | 0 <= i < |ids[1..]| ensures !EndsWithError(snapshot, ids[1..], i) {
          assert ids[1..][i] == ids[i + 1];
          assert !EndsWithError(snapshot, ids, i + 1);
        }
      }
      NoErrorVisitsAll(snapshot, ids[1..], r1);
      InitFromContinues(snapshot, ids, r, r1, e);
      assert [ids[0]] + ids[1..] == ids;
    }
  }

  /** The full pass visits each registered forge exactly once, in insertion order. */
  lemma {:induction false} InitPassOnceEach(r: Registry)
    requires Valid(r)
    requires forall i :: 0 <= i < |r.order| ==> !EndsWithError(r, r.order, i)
    ensures InitPass(r).visited == r.order
    ensures Distinct(InitPass(r).visited)
  {
    NoErrorVisitsAll(r, r.order, r);
  }

  /** Whatever the forges throw, the pass initialises no forge twice, and what it
      initialises is a prefix of the registry's insertion order. */
  lemma InitPassAtMostOnce(r: Registry)
    requires Valid(r)
    ensures var v := InitPass(r).visited;
            |v| <= |r.order| && v == r.order[..|v|] && Distinct(v)
  {
    InitFromVisitsPrefix(r, r.order, r);
  }

  /** The pass initialises only forges that were registered when it began: one
      registered during the pass is not initialised in it. */
  lemma LateNotInitialised(r: Registry, id: string)
    requires Valid(r) && id !in r.entries
    ensures id !in InitPass(r).visited
  {
    InitPassAtMostOnce(r);
  }

  /** A registration made, and let through, by the `j`-th forge the pass initialises
      is stored: its id is in the registry the pass leaves. */
  lemma {:induction false} PassStoresRegistrations(snapshot: Registry, ids: seq<string>, r: Registry, j: nat, k: nat)
    requires Valid(r)
    requires forall i :: 0 <= i < |ids| ==> ids[i] in snapshot.entries
    requires j < |ids| && j < |InitFrom(snapshot, ids, r).visited|
    requires var regs := snapshot.entries[ids[j]].script.registers;
             k < |regs| && forall i :: 0 <= i <= k ==> !Empty(regs[i].id)
    ensures snapshot.entries[ids[j]].script.registers[k].id in InitFrom(snapshot, ids, r).registry.order
    decreases |ids|
  {
    var f := snapshot.entries[ids[0]];
    var (r1, e) := RunForge(r, f);
    assert forall i :: 1 <= i < |ids| ==> ids[i] == ids[1..][i - 1];
    if e.Throws? && e.thrown.Error? {
      InitFromStops(snapshot, ids, r, r1, e);
      RegisterAllStores(r, f.script.registers, k);
    } else {
      InitFromContinues(snapshot, ids, r, r1, e);
      RegisterAllValid(r, f.script.registers);
      if j == 0 {
        RegisterAllStores(r, f.script.registers, k);
        var id := f.script.registers[k].id;
        PassKeepsRegistered(snapshot, ids[1..], r1);
        var p :| 0 <= p < |r1.order| && r1.order[p] == id;
        var q := InitFrom(snapshot, ids[1..], r1).registry.order;
        assert q[..|r1.order|] == r1.order;
        assert q[p] == id;
      } else {
        PassStoresRegistrations(snapshot, ids[1..], r1, j - 1, k);
      }
    }
  }

  /** Late registration: what the `j`-th forge registers during the pass is stored
      in the registry, and, if its id was new, that forge is not initialised in
      this pass. */
  lemma LateRegistration(r: Registry, j: nat, k: nat)
    requires Valid(r) && j < |r.order| && j < |InitPass(r).visited|
    requires var regs := r.entries[r.order[j]].script.registers;
             k < |regs| && forall i :: 0 <= i <= k ==> !Empty(regs[i].id)
    ensures var id := r.entries[r.order[j]].script.registers[k].id;
            id in InitPass(r).registry.entries && (id !in r.entries ==> id !in InitPass(r).visited)
  {
    var id := r.entries[r.order[j]].script.registers[k].id;
    PassStoresRegistrations(r, r.order, r, j, k);
    InitFromValid(r, r.order, r);
    if id !in r.entries {
      LateNotInitialised(r, id);
    }
  }

  /** Three forges A (returns), B (throws an \Exception), C (returns), registered
      as "a", "b", "c": all three are initialised, in that order, B's failure is
      recorded with its id, and the pass completes. */
  lemma IsolationExample()
    ensures var a := Forge("A", "1.0.0", "", InitScript([], Returns));
            var b := Forge("B", "1.0.0", "", InitScript([], Throws(Exception("boom"))));
            var c := Forge("C", "1.0.0", "", InitScript([], Returns));
            var r := Put(Put(Put(NoForges, "a", a), "b", b), "c", c);
            InitPass(r) == Pass(r, ["a", "b", "c"], [Failure("b", "boom")], None)
  {
    var a := Forge("A", "1.0.0", "", InitScript([], Returns));
    var b := Forge("B", "1.0.0", "", InitScript([], Throws(Exception("boom"))));
    var c := Forge("C", "1.0.0", "", InitScript([], Returns));
    var r := Put(Put(Put(NoForges, "a", a), "b", b), "c", c);
    assert r.order == ["a", "b", "c"];
    assert r.order[1..] == ["b", "c"] && r.order[2..] == ["c"] && r.order[3..] == [];
    assert InitFrom(r, [], r) == Pass(r, [], [], None);
    assert InitFrom(r, ["c"], r) == Pass(r, ["c"], [], None);
    assert InitFrom(r, ["b", "c"], r) == Pass(r, ["b", "c"], [Failure("b", "boom")], None);
  }

  /** A forge registered while the pass runs enters the registry but is not
      initialised in that pass. */
  lemma LateRegistrationExample()
    ensures var late := Forge("Late", "1.0.0", "", InitScript([], Returns));
            var a := Forge("A", "1.0.0", "", InitScript([Registration("late", late)], Returns));
            var r := Put(NoForges, "a", a);
            InitPass(r).visited == ["a"] && InitPass(r).registry.order == ["a", "late"]
  {
    var late := Forge("Late", "1.0.0", "", InitScript([], Returns));
    var a := Forge("A", "1.0.0", "", InitScript([Registration("late", late)], Returns));
    var r := Put(NoForges, "a", a);
    assert r.order == ["a"] && r.order[1..] == [];
    var r1 := Put(r, "late", late);
    assert RegisterAll(r, [Registration("late", late)]) == (r1, None);
    assert InitFrom(r, [], r1) == Pass(r1, [], [], None);
  }
}
