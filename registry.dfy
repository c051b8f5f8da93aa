/**
 * The engine's forge registry: a PHP array from string id to forge. PHP
 * arrays keep insertion order, and assigning to a key that is already present
 * replaces the value in place, without moving the key.
 */
module ForgeRegistry {
  import opened Php
  import opened Forges

  /** `order` lists the ids in insertion order; `entries` maps each to its forge. */
  datatype Registry = Registry(order: seq<string>, entries: map<string, Forge>)

  const NoForges := Registry([], map[])

  /** Message of the InvalidArgumentException thrown for an empty id. */
  const EmptyIdMessage := "El ID del módulo no puede estar vacío"

  ghost predicate Distinct(s: seq<string>) {
    forall i, j :: 0 <= i < j < |s| ==> s[i] != s[j]
  }

  /** Every id appears once in `order`, and `order` lists exactly the keys of `entries`. */
  ghost predicate Valid(r: Registry) {
    Distinct(r.order) && forall id :: id in r.entries <==> id in r.order
  }

  lemma NoForgesValid()
    ensures Valid(NoForges) && |NoForges.order| == 0
  {
  }

  /** PHP `count()` of the array. */
  function Count(r: Registry): nat {
    |r.order|
  }

  /** `$forges[$id] = $forge`. */
  function Put(r: Registry, id: string, f: Forge): Registry {
    Registry(if id in r.entries then r.order else r.order + [id], r.entries[id := f])
  }

  /** The assignment keeps the registry well formed. */
  lemma PutValid(r: Registry, id: string, f: Forge)
    requires Valid(r)
    ensures Valid(Put(r, id, f))
  {
  }

  /** The assignment stores `f` under `id` and leaves every other entry as it was. */
  lemma PutStores(r: Registry, id: string, f: Forge)
    ensures id in Put(r, id, f).entries && Put(r, id, f).entries[id] == f
    ensures forall k :: k != id ==> (k in Put(r, id, f).entries <==> k in r.entries)
    ensures forall k :: k != id && k in r.entries ==> Put(r, id, f).entries[k] == r.entries[k]
  {
  }

  /** Existing ids keep their positions; a new id goes last; an overwrite keeps the size. */
  lemma PutKeepsOrder(r: Registry, id: string, f: Forge)
    ensures |r.order| <= |Put(r, id, f).order| && Put(r, id, f).order[..|r.order|] == r.order
    ensures id in r.entries ==> Put(r, id, f).order == r.order && Count(Put(r, id, f)) == Count(r)
    ensures id !in r.entries ==> Put(r, id, f).order == r.order + [id] && Count(Put(r, id, f)) == Count(r) + 1
  {
  }

  /** Registering `x` twice keeps one entry, holding the second forge, at the first position. */
  lemma {:induction false} PutTwice(r: Registry, id: string, f1: Forge, f2: Forge)
    ensures Put(Put(r, id, f1), id, f2).entries[id] == f2
    ensures Put(Put(r, id, f1), id, f2).order == Put(r, id, f1).order
    ensures Count(Put(Put(r, id, f1), id, f2)) == Count(Put(r, id, f1))
  {
    PutStores(r, id, f1);
  }

  lemma {:induction false} DistinctCardinality(s: seq<string>)
    requires Distinct(s)
    ensures |set x | x in s| == |s|
    decreases |s|
  {
    if s != [] {
      var t := s[..|s| - 1];
      assert Distinct(t);
      DistinctCardinality(t);
      assert (set x | x in s) == (set x | x in t) + {s[|s| - 1]};
      assert s[|s| - 1] !in t;
    }
  }

  /** `count($forges)` is the number of registered ids. */
  lemma {:induction false} CountIsNumberOfEntries(r: Registry)
    requires Valid(r)
    ensures Count(r) == |r.entries|
  {
    DistinctCardinality(r.order);
    assert r.entries.Keys == set x | x in r.order;
  }

  /** `registrar_forge($id, $forge)` as a value: an InvalidArgumentException when
      `empty($id)`, the updated registry otherwise. */
  function Register(r: Registry, id: string, f: Forge): Result<Registry> {
    if Empty(id) then Throw(Exception(EmptyIdMessage)) else Ok(Put(r, id, f))
  }

  /** Rejected ids are exactly "" and "0", and a rejection throws an \Exception. */
  lemma RegisterRejectsEmpty(r: Registry, id: string, f: Forge)
    ensures Register(r, id, f).Throw? <==> (id == "" || id == "0")
    ensures Register(r, id, f).Throw? ==> Register(r, id, f).thrown.Exception?
    ensures Register(r, id, f).Ok? ==> Register(r, id, f).value.entries[id] == f
  {
  }

  /** Calls `registrar_forge` for each registration in order, stopping at the
      first that throws; returns the registry as it then stands and what was thrown. */
  function RegisterAll(r: Registry, regs: seq<Registration>): (res: (Registry, Option<Throwable>))
    ensures res.1.Some? ==> res.1.value == Exception(EmptyIdMessage)
    ensures |r.order| <= |res.0.order| && res.0.order[..|r.order|] == r.order
    decreases |regs|
  {
    if regs == [] then (r, None)
    else
      match Register(r, regs[0].id, regs[0].forge)
      case Throw(t) => (r, Some(t))
      case Ok(r') =>
        var res := RegisterAll(r', regs[1..]);
        assert forall i :: 1 <= i < |regs| ==> regs[i] == regs[1..][i - 1];
        res
  }

  /** A run of registrations throws exactly when one of its ids is empty. */
  lemma {:induction false} RegisterAllThrows(r: Registry, regs: seq<Registration>)
    ensures RegisterAll(r, regs).1.None? <==> forall i :: 0 <= i < |regs| ==> !Empty(regs[i].id)
    decreases |regs|
  {
    if regs != [] && !Empty(regs[0].id) {
      assert forall i :: 1 <= i < |regs| ==> regs[i] == regs[1..][i - 1];
      RegisterAllThrows(Put(r, regs[0].id, regs[0].forge), regs[1..]);
    }
  }

  /** After a run of registrations with no empty id, the last forge given for
      each id is the one registered. */
  lemma {:induction false} RegisterAllLastWins(r: Registry, regs: seq<Registration>, k: nat)
    requires forall i :: 0 <= i < |regs| ==> !Empty(regs[i].id)
    requires k < |regs| && forall j :: k < j < |regs| ==> regs[j].id != regs[k].id
    ensures regs[k].id in RegisterAll(r, regs).0.entries
    ensures RegisterAll(r, regs).0.entries[regs[k].id] == regs[k].forge
    decreases |regs|
  {
    var r' := Put(r, regs[0].id, regs[0].forge);
    assert forall i :: 1 <= i < |regs| ==> regs[i] == regs[1..][i - 1];
    if k == 0 {
      assert RegisterAll(r, regs) == RegisterAll(r', regs[1..]);
      KeptUnlessRegistered(r', regs[1..], regs[0].id);
    } else {
      RegisterAllLastWins(r', regs[1..], k - 1);
    }
  }

  /** A registration that no earlier one in the run stopped is stored: its id
      is in the registry the run leaves. */
  lemma {:induction false} RegisterAllStores(r: Registry, regs: seq<Registration>, k: nat)
    requires Valid(r)
    requires k < |regs| && forall i :: 0 <= i <= k ==> !Empty(regs[i].id)
    ensures regs[k].id in RegisterAll(r, regs).0.order
    decreases |regs|
  {
    var r' := Put(r, regs[0].id, regs[0].forge);
    assert forall i :: 1 <= i < |regs| ==> regs[i] == regs[1..][i - 1];
    assert RegisterAll(r, regs) == RegisterAll(r', regs[1..]);
    if k == 0 {
      PutValid(r, regs[0].id, regs[0].forge);
      var p :| 0 <= p < |r'.order| && r'.order[p] == regs[0].id;
      var q := RegisterAll(r', regs[1..]).0.order;
      assert q[..|r'.order|] == r'.order;
      assert q[p] == regs[0].id;
    } else {
      PutValid(r, regs[0].id, regs[0].forge);
      RegisterAllStores(r', regs[1..], k - 1);
    }
  }

  /** An id none of `regs` mentions keeps whatever forge it had. */
  lemma {:induction false} KeptUnlessRegistered(r: Registry, regs: seq<Registration>, id: string)
    requires id in r.entries
    requires forall i :: 0 <= i < |regs| ==> regs[i].id != id
    ensures id in RegisterAll(r, regs).0.entries
    ensures RegisterAll(r, regs).0.entries[id] == r.entries[id]
    decreases |regs|
  {
    if regs != [] && !Empty(regs[0].id) {
      var r' := Put(r, regs[0].id, regs[0].forge);
      assert forall i :: 1 <= i < |regs| ==> regs[i] == regs[1..][i - 1];
      KeptUnlessRegistered(r', regs[1..], id);
    }
  }

  /** Registrations keep the registry well formed. */
  lemma {:induction false} RegisterAllValid(r: Registry, regs: seq<Registration>)
    requires Valid(r)
    ensures Valid(RegisterAll(r, regs).0)
    decreases |regs|
  {
    if regs != [] && !Empty(regs[0].id) {
      PutValid(r, regs[0].id, regs[0].forge);
      RegisterAllValid(Put(r, regs[0].id, regs[0].forge), regs[1..]);
    }
  }
}
