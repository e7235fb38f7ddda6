/** The four indices of the signature store and the monotonic id counter, as a
    value, with the declarative meaning of applying and purging one crate. */
module Catalog {
  import opened Signatures

  /** A type-string index (`param` or `ret` tree): type string to function ids. */
  type Index = map<string, set<nat>>

  /** The whole persisted state: the `param`, `ret`, `fn` and `crate` trees and
      the `next_fn_id` counter. */
  datatype Db = Db(param: Index, ret: Index, fns: map<nat, FnDetail>,
                   crates: map<string, seq<nat>>, next: nat)

  /** The store as `open_db` leaves a fresh database. */
  const EmptyDb: Db := Db(map[], map[], map[], map[], 0)

  /** Reading an index entry; an absent key reads as the empty set. */
  function Lookup(idx: Index, key: string): set<nat>
  {
    if key in idx then idx[key] else {}
  }

  /** Read-modify-write of one entry, adding `id`. */
  function Insert(idx: Index, key: string, id: nat): Index
  {
    idx[key := Lookup(idx, key) + {id}]
  }

  /** Read-modify-write of one entry, dropping `id`; the entry stays bound. */
  function Remove(idx: Index, key: string, id: nat): Index
  {
    idx[key := Lookup(idx, key) - {id}]
  }

  /** Adding `id` under each of `keys`, first key first. */
  function InsertAll(idx: Index, keys: seq<string>, id: nat): Index
    decreases |keys|
  {
    if keys == [] then idx else Insert(InsertAll(idx, keys[..|keys| - 1], id), Last(keys), id)
  }

  /** Dropping `id` under each of `keys`, first key first. */
  function RemoveAll(idx: Index, keys: seq<string>, id: nat): Index
    decreases |keys|
  {
    if keys == [] then idx else Remove(RemoveAll(idx, keys[..|keys| - 1], id), Last(keys), id)
  }

  lemma {:induction false} InsertAllLookup(idx: Index, keys: seq<string>, id: nat, k: string)
    ensures Lookup(InsertAll(idx, keys, id), k) == Lookup(idx, k) + (if k in keys then {id} else {})
    ensures k in InsertAll(idx, keys, id) <==> k in idx || k in keys
    decreases |keys|
  {
    if keys != [] {
      var init := keys[..|keys| - 1];
      assert keys == init + [Last(keys)];
      InsertAllLookup(idx, init, id, k);
    }
  }

  lemma {:induction false} RemoveAllLookup(idx: Index, keys: seq<string>, id: nat, k: string)
    ensures Lookup(RemoveAll(idx, keys, id), k) == Lookup(idx, k) - (if k in keys then {id} else {})
    ensures k in RemoveAll(idx, keys, id) <==> k in idx || k in keys
    decreases |keys|
  {
    if keys != [] {
      var init := keys[..|keys| - 1];
      assert keys == init + [Last(keys)];
      RemoveAllLookup(idx, init, id, k);
    }
  }

  // ---------------------------------------------------------------------------
  // Applying a crate (`add_crate`)

  /** The ids `first, first + 1, ..., first + n - 1`, in order. */
  function IdRange(first: nat, n: nat): (ids: seq<nat>)
  {
    seq(n, i requires 0 <= i < n => first + i)
  }

  /** The `param` tree after filing the batch `ds` with ids from `first`. */
  function AddedParam(param: Index, ds: seq<FnDetail>, first: nat): Index
    decreases |ds|
  {
    if ds == [] then param
    else InsertAll(AddedParam(param, ds[..|ds| - 1], first), ParamKeys(Last(ds)), first + |ds| - 1)
  }

  /** The `ret` tree after filing the batch `ds` with ids from `first`. */
  function AddedRet(ret: Index, ds: seq<FnDetail>, first: nat): Index
    decreases |ds|
  {
    if ds == [] then ret
    else Insert(AddedRet(ret, ds[..|ds| - 1], first), Last(ds).ret, first + |ds| - 1)
  }

  /** The `fn` tree after storing the batch `ds` with ids from `first`. */
  function AddedFns(fns: map<nat, FnDetail>, ds: seq<FnDetail>, first: nat): map<nat, FnDetail>
    decreases |ds|
  {
    if ds == [] then fns
    else AddedFns(fns, ds[..|ds| - 1], first)[first + |ds| - 1 := Last(ds)]
  }

  /** Filing the batch one record further: record `i` is filed under id
      `first + i` on top of the first `i` records. */
  lemma AddedStep(param: Index, ret: Index, fns: map<nat, FnDetail>, ds: seq<FnDetail>, first: nat, i: nat)
    requires i < |ds|
    ensures AddedParam(param, ds[..i + 1], first) == InsertAll(AddedParam(param, ds[..i], first), ParamKeys(ds[i]), first + i)
    ensures AddedRet(ret, ds[..i + 1], first) == Insert(AddedRet(ret, ds[..i], first), ds[i].ret, first + i)
    ensures AddedFns(fns, ds[..i + 1], first) == AddedFns(fns, ds[..i], first)[first + i := ds[i]]
  {
    assert ds[..i + 1][..i] == ds[..i];
  }

  /** The store after `add_crate(name, ds)`. */
  function Added(db: Db, name: string, ds: seq<FnDetail>): Db
  {
    Db(AddedParam(db.param, ds, db.next), AddedRet(db.ret, ds, db.next),
       AddedFns(db.fns, ds, db.next), db.crates[name := IdRange(db.next, |ds|)],
       db.next + |ds|)
  }

  /** The ids of the batch `ds` (numbered from `first`) that have `k` among their
      parameter keys. */
  function FiledUnderParam(ds: seq<FnDetail>, first: nat, k: string): set<nat>
  {
    set i | 0 <= i < |ds| && k in ParamKeys(ds[i]) :: first + i
  }

  lemma FiledUnderParamSnoc(ds: seq<FnDetail>, first: nat, k: string)
    requires |ds| > 0
    ensures FiledUnderParam(ds, first, k)
         == FiledUnderParam(ds[..|ds| - 1], first, k)
            + (if k in ParamKeys(Last(ds)) then {first + |ds| - 1} else {})
  {
    var n := |ds|;
    var init := ds[..n - 1];
    var whole := FiledUnderParam(ds, first, k);
    var part := FiledUnderParam(init, first, k);
    var last: set<nat> := if k in ParamKeys(ds[n - 1]) then {first + n - 1} else {};
    forall x | x in whole ensures x in part + last {
      var i :| 0 <= i < n && k in ParamKeys(ds[i]) && x == first + i;
      if i < n - 1 { assert init[i] == ds[i]; }
    }
    forall x | x in part ensures x in whole {
      var i :| 0 <= i < n - 1 && k in ParamKeys(init[i]) && x == first + i;
      assert init[i] == ds[i];
    }
  }

  lemma {:induction false} AddedParamLookup(param: Index, ds: seq<FnDetail>, first: nat, k: string)
    ensures Lookup(AddedParam(param, ds, first), k) == Lookup(param, k) + FiledUnderParam(ds, first, k)
    decreases |ds|
  {
    if ds != [] {
      var n := |ds|;
      var init := ds[..n - 1];
      AddedParamLookup(param, init, first, k);
      AddedParamLookupSnoc(param, init, Last(ds), first, k);
      assert ds == init + [Last(ds)];
    }
  }

  /** Filing one more record adds its id under its own keys. */
  lemma AddedParamLast(param: Index, init: seq<FnDetail>, d: FnDetail, first: nat, k: string)
    ensures var id: nat := first + |init|;
            Lookup(AddedParam(param, init + [d], first), k)
            == Lookup(AddedParam(param, init, first), k) + (if k in ParamKeys(d) then {id} else {})
  {
    var id: nat := first + |init|;
    assert (init + [d])[..|init|] == init;
    InsertAllLookup(AddedParam(param, init, first), ParamKeys(d), id, k);
  }

  /** The inductive step of `AddedParamLookup`, for one more record `d`. */
  lemma AddedParamLookupSnoc(param: Index, init: seq<FnDetail>, d: FnDetail, first: nat, k: string)
    requires Lookup(AddedParam(param, init, first), k) == Lookup(param, k) + FiledUnderParam(init, first, k)
    ensures Lookup(AddedParam(param, init + [d], first), k) == Lookup(param, k) + FiledUnderParam(init + [d], first, k)
  {
    var ds := init + [d];
    var last: set<nat> := if k in ParamKeys(d) then {first + |init|} else {};
    assert ds[..|ds| - 1] == init;
    AddedParamLast(param, init, d, first, k);
    FiledUnderParamSnoc(ds, first, k);
    UnionStep(Lookup(AddedParam(param, ds, first), k), Lookup(AddedParam(param, init, first), k), Lookup(param, k),
              FiledUnderParam(init, first, k), FiledUnderParam(ds, first, k), last);
  }

  /** Set algebra for one filing step, kept apart from the index terms. */
  lemma UnionStep(now: set<nat>, before: set<nat>, base: set<nat>, filed: set<nat>, filed': set<nat>, last: set<nat>)
    requires now == before + last && before == base + filed && filed' == filed + last
    ensures now == base + filed'
  {
  }

  lemma {:induction false} AddedParamKeys(param: Index, ds: seq<FnDetail>, first: nat, k: string)
    ensures k in AddedParam(param, ds, first) <==> k in param || FiledUnderParam(ds, first, k) != {}
    decreases |ds|
  {
    if ds != [] {
      var n := |ds|;
      var init := ds[..n - 1];
      AddedParamKeys(param, init, first, k);
      InsertAllLookup(AddedParam(param, init, first), ParamKeys(ds[n - 1]), first + n - 1, k);
      FiledUnderParamSnoc(ds, first, k);
    }
  }

  /** The ids of the batch `ds` (numbered from `first`) whose return type is `k`. */
  function FiledUnderRet(ds: seq<FnDetail>, first: nat, k: string): set<nat>
  {
    set i | 0 <= i < |ds| && ds[i].ret == k :: first + i
  }

  lemma FiledUnderRetSnoc(ds: seq<FnDetail>, first: nat, k: string)
    requires |ds| > 0
    ensures FiledUnderRet(ds, first, k)
         == FiledUnderRet(ds[..|ds| - 1], first, k)
            + (if Last(ds).ret == k then {first + |ds| - 1} else {})
  {
    var n := |ds|;
    var init := ds[..n - 1];
    var whole := FiledUnderRet(ds, first, k);
    var part := FiledUnderRet(init, first, k);
    var last: set<nat> := if ds[n - 1].ret == k then {first + n - 1} else {};
    forall x | x in whole ensures x in part + last {
      var i :| 0 <= i < n && ds[i].ret == k && x == first + i;
      if i < n - 1 { assert init[i] == ds[i]; }
    }
    forall x | x in part ensures x in whole {
      var i :| 0 <= i < n - 1 && init[i].ret == k && x == first + i;
      assert init[i] == ds[i];
    }
  }

  lemma FiledMember(ds: seq<FnDetail>, first: nat, k: string, x: nat)
    ensures x in FiledUnderParam(ds, first, k) <==> first <= x < first + |ds| && k in ParamKeys(ds[x - first])
    ensures x in FiledUnderRet(ds, first, k) <==> first <= x < first + |ds| && ds[x - first].ret == k
  {
    if first <= x < first + |ds| {
      var i := x - first;
      if k in ParamKeys(ds[i]) { assert first + i in FiledUnderParam(ds, first, k); }
      if ds[i].ret == k { assert first + i in FiledUnderRet(ds, first, k); }
    }
  }

  lemma {:induction false} AddedRetLookup(ret: Index, ds: seq<FnDetail>, first: nat, k: string)
    ensures Lookup(AddedRet(ret, ds, first), k) == Lookup(ret, k) + FiledUnderRet(ds, first, k)
    ensures k in AddedRet(ret, ds, first) <==> k in ret || FiledUnderRet(ds, first, k) != {}
    decreases |ds|
  {
    if ds != [] {
      AddedRetLookup(ret, ds[..|ds| - 1], first, k);
      FiledUnderRetSnoc(ds, first, k);
    }
  }

  lemma {:induction false} AddedFnsLookup(fns: map<nat, FnDetail>, ds: seq<FnDetail>, first: nat, id: nat)
    ensures id in AddedFns(fns, ds, first) <==> id in fns || first <= id < first + |ds|
    ensures first <= id < first + |ds| ==> AddedFns(fns, ds, first)[id] == ds[id - first]
    ensures id in fns && !(first <= id < first + |ds|) ==> AddedFns(fns, ds, first)[id] == fns[id]
    decreases |ds|
  {
    if ds != [] {
      AddedFnsLookup(fns, ds[..|ds| - 1], first, id);
    }
  }

  /** The `assert!(isnew)` of `add_crate` cannot fire: when every id already in
      the `ret` tree is below `first`, the id given to the next record of the
      batch is in no `ret` set yet. */
  lemma AddedRetFresh(ret: Index, ds: seq<FnDetail>, first: nat, k: string)
    requires forall key, id :: id in Lookup(ret, key) ==> id < first
    ensures first + |ds| !in Lookup(AddedRet(ret, ds, first), k)
  {
    AddedRetLookup(ret, ds, first, k);
    FiledMember(ds, first, k, first + |ds|);
  }

  // ---------------------------------------------------------------------------
  // Purging a crate (`purge_crate`)

  /** What `purge_crate(name)` needs in order not to panic: the listed ids are
      distinct (each `fn` removal finds its entry), each has an `fn` entry, and
      each is present in the `ret` set of its return type (`assert!(didremove)`). */
  ghost predicate PurgeSafe(db: Db, name: string)
  {
    name in db.crates ==>
      && NoDup(db.crates[name])
      && (forall id :: id in db.crates[name] ==> id in db.fns && id in Lookup(db.ret, db.fns[id].ret))
  }

  /** The `param` tree after dropping each of `ids` from the keys of its record. */
  function PurgedParam(param: Index, fns: map<nat, FnDetail>, ids: seq<nat>): Index
    requires forall id :: id in ids ==> id in fns
    decreases |ids|
  {
    if ids == [] then param
    else
      assert forall id :: id in ids[..|ids| - 1] ==> id in ids;
      RemoveAll(PurgedParam(param, fns, ids[..|ids| - 1]), ParamKeys(fns[Last(ids)]), Last(ids))
  }

  /** The `ret` tree after dropping each of `ids` from the entry of its return type. */
  function PurgedRet(ret: Index, fns: map<nat, FnDetail>, ids: seq<nat>): Index
    requires forall id :: id in ids ==> id in fns
    decreases |ids|
  {
    if ids == [] then ret
    else
      assert forall id :: id in ids[..|ids| - 1] ==> id in ids;
      Remove(PurgedRet(ret, fns, ids[..|ids| - 1]), fns[Last(ids)].ret, Last(ids))
  }

  /** The store after `purge_crate(name)`: unchanged for an unknown crate. */
  function Purged(db: Db, name: string): Db
    requires PurgeSafe(db, name)
  {
    if name !in db.crates then db
    else
      var ids := db.crates[name];
      Db(PurgedParam(db.param, db.fns, ids), PurgedRet(db.ret, db.fns, ids),
         db.fns - Elems(ids), db.crates - {name}, db.next)
  }

  /** The ids among `ids` whose record has `k` among its parameter keys. */
  function ListedUnderParam(fns: map<nat, FnDetail>, ids: seq<nat>, k: string): set<nat>
    requires forall id :: id in ids ==> id in fns
  {
    set id | id in ids && k in ParamKeys(fns[id])
  }

  /** The ids among `ids` whose record returns `k`. */
  function ListedUnderRet(fns: map<nat, FnDetail>, ids: seq<nat>, k: string): set<nat>
    requires forall id :: id in ids ==> id in fns
  {
    set id | id in ids && fns[id].ret == k
  }

  lemma ListedSnoc(fns: map<nat, FnDetail>, ids: seq<nat>, k: string)
    requires |ids| > 0
    requires forall id :: id in ids ==> id in fns
    ensures forall id :: id in ids[..|ids| - 1] ==> id in fns
    ensures ListedUnderParam(fns, ids, k)
         == ListedUnderParam(fns, ids[..|ids| - 1], k)
            + (if k in ParamKeys(fns[Last(ids)]) then {Last(ids)} else {})
    ensures ListedUnderRet(fns, ids, k)
         == ListedUnderRet(fns, ids[..|ids| - 1], k)
            + (if fns[Last(ids)].ret == k then {Last(ids)} else {})
  {
    var init := ids[..|ids| - 1];
    assert ids == init + [Last(ids)];
  }

  lemma {:induction false} PurgedParamLookup(param: Index, fns: map<nat, FnDetail>, ids: seq<nat>, k: string)
    requires forall id :: id in ids ==> id in fns
    ensures Lookup(PurgedParam(param, fns, ids), k) == Lookup(param, k) - ListedUnderParam(fns, ids, k)
    ensures k in PurgedParam(param, fns, ids) <==> k in param || ListedUnderParam(fns, ids, k) != {}
    decreases |ids|
  {
    if ids != [] {
      var init := ids[..|ids| - 1];
      ListedSnoc(fns, ids, k);
      PurgedParamLookup(param, fns, init, k);
      RemoveAllLookup(PurgedParam(param, fns, init), ParamKeys(fns[Last(ids)]), Last(ids), k);
    }
  }

  lemma {:induction false} PurgedRetLookup(ret: Index, fns: map<nat, FnDetail>, ids: seq<nat>, k: string)
    requires forall id :: id in ids ==> id in fns
    ensures Lookup(PurgedRet(ret, fns, ids), k) == Lookup(ret, k) - ListedUnderRet(fns, ids, k)
    ensures k in PurgedRet(ret, fns, ids) <==> k in ret || ListedUnderRet(fns, ids, k) != {}
    decreases |ids|
  {
    if ids != [] {
      ListedSnoc(fns, ids, k);
      PurgedRetLookup(ret, fns, ids[..|ids| - 1], k);
    }
  }

  /** The `assert!(didremove)` of `purge_crate` cannot fire: the `i`-th listed id
      is still in the `ret` set of its return type when its turn comes. */
  lemma PurgeRetFinds(db: Db, name: string, i: nat)
    requires PurgeSafe(db, name) && name in db.crates && i < |db.crates[name]|
    ensures forall id :: id in db.crates[name][..i] ==> id in db.fns
    ensures var ids := db.crates[name];
            ids[i] in Lookup(PurgedRet(db.ret, db.fns, ids[..i]), db.fns[ids[i]].ret)
  {
    var ids := db.crates[name];
    assert forall id :: id in ids[..i] ==> id in ids;
    PurgedRetLookup(db.ret, db.fns, ids[..i], db.fns[ids[i]].ret);
    assert ids[i] in ids;
    assert ids[i] !in ids[..i];
  }
}
