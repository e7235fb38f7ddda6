/** Cross-index invariants of the signature store and their preservation by
    applying and purging crates. */
module Consistency {
  import opened Signatures
  import opened Catalog

  /** Every id stored anywhere is below the counter, and no id is in two `ret`
      sets. This is what `add_crate` needs for its freshness assertion. */
  ghost predicate Valid(db: Db)
  {
    && (forall k, id :: id in Lookup(db.param, k) ==> id < db.next)
    && (forall k, id :: id in Lookup(db.ret, k) ==> id < db.next)
    && (forall id :: id in db.fns ==> id < db.next)
    && (forall n, id :: n in db.crates && id in db.crates[n] ==> id < db.next)
    && (forall k1, k2, id :: id in Lookup(db.ret, k1) && id in Lookup(db.ret, k2) ==> k1 == k2)
  }

  /** The crate lists partition the `fn` table: every listed id is stored, no
      list repeats an id, no id is listed by two crates, and every stored id is
      listed by some crate. */
  ghost predicate CratesPartitionFns(db: Db)
  {
    && (forall n, id :: n in db.crates && id in db.crates[n] ==> id in db.fns)
    && (forall n :: n in db.crates ==> NoDup(db.crates[n]))
    && (forall n1, n2, id :: n1 in db.crates && n2 in db.crates && id in db.crates[n1] && id in db.crates[n2] ==> n1 == n2)
    && (forall id :: id in db.fns ==> exists n :: n in db.crates && id in db.crates[n])
  }

  /** An id is in the `ret` set of `k` exactly when its record returns `k`. */
  ghost predicate RetAgrees(db: Db)
  {
    forall k, id :: id in Lookup(db.ret, k) <==> id in db.fns && db.fns[id].ret == k
  }

  /** An id is in the `param` set of `k` exactly when its record has `k` among
      its parameter keys. */
  ghost predicate ParamAgrees(db: Db)
  {
    forall k, id :: id in Lookup(db.param, k) <==> id in db.fns && k in ParamKeys(db.fns[id])
  }

  /** The four trees agree with each other. */
  ghost predicate Consistent(db: Db)
  {
    Valid(db) && CratesPartitionFns(db) && RetAgrees(db) && ParamAgrees(db)
  }

  /** The freshly opened store is consistent. */
  lemma EmptyConsistent()
    ensures Consistent(EmptyDb)
  {
  }

  /** A stored function is in exactly one `ret` set (that of its return type)
      and in at least one `param` set (the sentinel's when it has no parameters). */
  lemma StoredFunctionIndexed(db: Db, id: nat)
    requires Consistent(db) && id in db.fns
    ensures id in Lookup(db.ret, db.fns[id].ret)
    ensures forall k :: id in Lookup(db.ret, k) ==> k == db.fns[id].ret
    ensures id in Lookup(db.param, ParamKeys(db.fns[id])[0])
    ensures db.fns[id].params == [] ==> forall k :: id in Lookup(db.param, k) <==> k == NOARGS
  {
  }

  /** A consistent store can purge any crate without panicking. */
  lemma ConsistentPurgeSafe(db: Db, name: string)
    requires Consistent(db)
    ensures PurgeSafe(db, name)
  {
  }

  // ---------------------------------------------------------------------------
  // add_crate

  /** `add_crate` keeps every id below the counter and in at most one `ret`
      set. */
  lemma {:induction false} AddedValid(db: Db, name: string, ds: seq<FnDetail>)
    requires Valid(db)
    ensures Valid(Added(db, name, ds))
  {
    var c := db.next;
    var a := Added(db, name, ds);
    forall k, id | id in Lookup(a.param, k) ensures id < a.next {
      AddedParamLookup(db.param, ds, c, k);
      FiledMember(ds, c, k, id);
    }
    forall k, id | id in Lookup(a.ret, k) ensures id < a.next {
      AddedRetLookup(db.ret, ds, c, k);
      FiledMember(ds, c, k, id);
    }
    forall id | id in a.fns ensures id < a.next {
      AddedFnsLookup(db.fns, ds, c, id);
    }
    forall k1, k2, id | id in Lookup(a.ret, k1) && id in Lookup(a.ret, k2) ensures k1 == k2 {
      AddedRetLookup(db.ret, ds, c, k1);
      AddedRetLookup(db.ret, ds, c, k2);
      FiledMember(ds, c, k1, id);
      FiledMember(ds, c, k2, id);
    }
  }

  /** Ids at or above the counter are in no tree of a valid store: no
      `param` set, no `ret` set, not in `fn` and in no crate's id list. */
  lemma UnstoredAtOrAboveCounter(db: Db, id: nat)
    requires Valid(db) && id >= db.next
    ensures forall k :: id !in Lookup(db.param, k) && id !in Lookup(db.ret, k)
    ensures id !in db.fns
    ensures forall n :: n in db.crates ==> id !in db.crates[n]
  {
  }

  /** After `add_crate`, every listed id is stored. */
  lemma AddedListedStored(db: Db, name: string, ds: seq<FnDetail>)
    requires Valid(db) && CratesPartitionFns(db)
    ensures var a := Added(db, name, ds);
            forall m, id :: m in a.crates && id in a.crates[m] ==> id in a.fns
  {
    var a := Added(db, name, ds);
    forall m, id | m in a.crates && id in a.crates[m] ensures id in a.fns {
      AddedFnsLookup(db.fns, ds, db.next, id);
    }
  }

  /** After `add_crate` of a crate that was not listed, every stored id is
      listed by some crate. */
  lemma AddedStoredListed(db: Db, name: string, ds: seq<FnDetail>)
    requires Valid(db) && CratesPartitionFns(db) && name !in db.crates
    ensures var a := Added(db, name, ds);
            forall id :: id in a.fns ==> exists m :: m in a.crates && id in a.crates[m]
  {
    var c := db.next;
    var a := Added(db, name, ds);
    forall id | id in a.fns ensures exists m :: m in a.crates && id in a.crates[m] {
      AddedFnsLookup(db.fns, ds, c, id);
      if id >= c {
        assert a.crates[name][id - c] == id;
        assert name in a.crates && id in a.crates[name];
      } else {
        var m :| m in db.crates && id in db.crates[m];
        assert m != name && a.crates[m] == db.crates[m];
        assert m in a.crates && id in a.crates[m];
      }
    }
  }

  lemma AddedCrates(db: Db, name: string, ds: seq<FnDetail>)
    requires Valid(db) && CratesPartitionFns(db) && name !in db.crates
    ensures CratesPartitionFns(Added(db, name, ds))
  {
    AddedListedStored(db, name, ds);
    AddedStoredListed(db, name, ds);
  }

  lemma AddedRetAgrees(db: Db, name: string, ds: seq<FnDetail>)
    requires Valid(db) && RetAgrees(db)
    ensures RetAgrees(Added(db, name, ds))
  {
    var c := db.next;
    var a := Added(db, name, ds);
    forall k, id ensures id in Lookup(a.ret, k) <==> id in a.fns && a.fns[id].ret == k {
      AddedRetLookup(db.ret, ds, c, k);
      AddedFnsLookup(db.fns, ds, c, id);
      FiledMember(ds, c, k, id);
    }
  }

  lemma AddedParamAgrees(db: Db, name: string, ds: seq<FnDetail>)
    requires Valid(db) && ParamAgrees(db)
    ensures ParamAgrees(Added(db, name, ds))
  {
    var c := db.next;
    var a := Added(db, name, ds);
    forall k, id ensures id in Lookup(a.param, k) <==> id in a.fns && k in ParamKeys(a.fns[id]) {
      AddedParamLookup(db.param, ds, c, k);
      AddedFnsLookup(db.fns, ds, c, id);
      FiledMember(ds, c, k, id);
    }
  }

  /** After `add_crate` of a crate that was not listed, the trees still agree. */
  lemma AddedConsistent(db: Db, name: string, ds: seq<FnDetail>)
    requires Consistent(db) && name !in db.crates
    ensures Consistent(Added(db, name, ds))
  {
    AddedValid(db, name, ds);
    AddedCrates(db, name, ds);
    AddedRetAgrees(db, name, ds);
    AddedParamAgrees(db, name, ds);
  }

  /** The `i`-th new id is filed under exactly the parameter keys of the
      `i`-th record. */
  lemma AddedAssignsParam(db: Db, name: string, ds: seq<FnDetail>, i: nat)
    requires Valid(db) && i < |ds|
    ensures var a := Added(db, name, ds);
            forall k :: db.next + i in Lookup(a.param, k) <==> k in ParamKeys(ds[i])
  {
    var c := db.next;
    var a := Added(db, name, ds);
    forall k ensures c + i in Lookup(a.param, k) <==> k in ParamKeys(ds[i]) {
      AddedParamLookup(db.param, ds, c, k);
      FiledMember(ds, c, k, c + i);
    }
  }

  /** The `i`-th new id is filed under exactly the return type of the
      `i`-th record. */
  lemma AddedAssignsRet(db: Db, name: string, ds: seq<FnDetail>, i: nat)
    requires Valid(db) && i < |ds|
    ensures var a := Added(db, name, ds);
            forall k :: db.next + i in Lookup(a.ret, k) <==> k == ds[i].ret
  {
    var c := db.next;
    var a := Added(db, name, ds);
    forall k ensures c + i in Lookup(a.ret, k) <==> k == ds[i].ret {
      AddedRetLookup(db.ret, ds, c, k);
      FiledMember(ds, c, k, c + i);
    }
  }

  /** What `add_crate` promises about each new record: the batch gets the ids
      `c, c + 1, ..., c + n - 1` in input order from the stored counter `c`,
      the crate is listed with exactly those ids, the counter moves to `c + n`,
      and the `i`-th id is stored with the `i`-th record, filed under exactly its
      parameter keys (only the sentinel when it has no parameters) and under
      exactly its return type; none of these ids was stored before. */
  lemma {:induction false} AddedAssignsIds(db: Db, name: string, ds: seq<FnDetail>, i: nat)
    requires Valid(db) && i < |ds|
    ensures var a := Added(db, name, ds);
      && a.next == db.next + |ds|
      && a.crates[name] == IdRange(db.next, |ds|) && a.crates[name][i] == db.next + i
      && db.next + i !in db.fns && db.next + i in a.fns && a.fns[db.next + i] == ds[i]
      && (forall k :: db.next + i in Lookup(a.param, k) <==> k in ParamKeys(ds[i]))
      && (forall k :: db.next + i in Lookup(a.ret, k) <==> k == ds[i].ret)
  {
    AddedFnsLookup(db.fns, ds, db.next, db.next + i);
    AddedAssignsParam(db, name, ds, i);
    AddedAssignsRet(db, name, ds, i);
  }

  // ---------------------------------------------------------------------------
  // purge_crate

  /** `purge_crate` keeps every id below the counter and in at most one
      `ret` set. */
  lemma {:induction false} PurgedValid(db: Db, name: string)
    requires Valid(db) && PurgeSafe(db, name)
    ensures Valid(Purged(db, name))
  {
    if name in db.crates {
      var ids := db.crates[name];
      var p := Purged(db, name);
      forall k, id | id in Lookup(p.param, k) ensures id < p.next {
        PurgedParamLookup(db.param, db.fns, ids, k);
      }
      forall k, id | id in Lookup(p.ret, k) ensures id < p.next {
        PurgedRetLookup(db.ret, db.fns, ids, k);
      }
      forall k1, k2, id | id in Lookup(p.ret, k1) && id in Lookup(p.ret, k2) ensures k1 == k2 {
        PurgedRetLookup(db.ret, db.fns, ids, k1);
        PurgedRetLookup(db.ret, db.fns, ids, k2);
      }
    }
  }

  lemma PurgedCrates(db: Db, name: string)
    requires CratesPartitionFns(db) && PurgeSafe(db, name)
    ensures CratesPartitionFns(Purged(db, name))
  {
    if name in db.crates {
      var ids := db.crates[name];
      var p := Purged(db, name);
      forall m, id | m in p.crates && id in p.crates[m] ensures id in p.fns {
        assert id !in Elems(ids);
      }
      forall id | id in p.fns ensures exists m :: m in p.crates && id in p.crates[m] {
        var m :| m in db.crates && id in db.crates[m];
        assert m != name;
        assert m in p.crates && id in p.crates[m];
      }
    }
  }

  lemma PurgedRetAgrees(db: Db, name: string)
    requires RetAgrees(db) && PurgeSafe(db, name)
    ensures RetAgrees(Purged(db, name))
  {
    if name in db.crates {
      var ids := db.crates[name];
      var p := Purged(db, name);
      forall k, id ensures id in Lookup(p.ret, k) <==> id in p.fns && p.fns[id].ret == k {
        PurgedRetLookup(db.ret, db.fns, ids, k);
      }
    }
  }

  lemma PurgedParamAgrees(db: Db, name: string)
    requires ParamAgrees(db) && PurgeSafe(db, name)
    ensures ParamAgrees(Purged(db, name))
  {
    if name in db.crates {
      var ids := db.crates[name];
      var p := Purged(db, name);
      forall k, id ensures id in Lookup(p.param, k) <==> id in p.fns && k in ParamKeys(p.fns[id]) {
        PurgedParamLookup(db.param, db.fns, ids, k);
      }
    }
  }

  /** Purging keeps the trees in agreement. */
  lemma PurgedConsistent(db: Db, name: string)
    requires Consistent(db)
    ensures PurgeSafe(db, name)
    ensures Consistent(Purged(db, name))
  {
    ConsistentPurgeSafe(db, name);
    PurgedValid(db, name);
    PurgedCrates(db, name);
    PurgedRetAgrees(db, name);
    PurgedParamAgrees(db, name);
  }

  // ---------------------------------------------------------------------------
  // Sequences of operations

  lemma AddedPurgeSafe(db: Db, name: string, ds: seq<FnDetail>)
    requires Valid(db)
    ensures PurgeSafe(Added(db, name, ds), name)
  {
    var c := db.next;
    var a := Added(db, name, ds);
    forall id | id in a.crates[name]
      ensures id in a.fns && id in Lookup(a.ret, a.fns[id].ret)
    {
      AddedFnsLookup(db.fns, ds, c, id);
      AddedRetLookup(db.ret, ds, c, a.fns[id].ret);
      FiledMember(ds, c, a.fns[id].ret, id);
    }
  }

  lemma IdRangeElems(c: nat, n: nat, id: nat)
    ensures id in Elems(IdRange(c, n)) <==> c <= id < c + n
  {
    if c <= id < c + n {
      assert IdRange(c, n)[id - c] == id;
    }
  }

  lemma AddThenPurgeFns(db: Db, name: string, ds: seq<FnDetail>)
    requires Valid(db)
    ensures AddedFns(db.fns, ds, db.next) - Elems(IdRange(db.next, |ds|)) == db.fns
  {
    var c := db.next;
    var m := AddedFns(db.fns, ds, c) - Elems(IdRange(c, |ds|));
    forall id ensures id in m <==> id in db.fns {
      AddedFnsLookup(db.fns, ds, c, id);
      IdRangeElems(c, |ds|, id);
    }
    forall id | id in m ensures m[id] == db.fns[id] {
      AddedFnsLookup(db.fns, ds, c, id);
      IdRangeElems(c, |ds|, id);
    }
  }

  lemma AddThenPurgeParam(db: Db, name: string, ds: seq<FnDetail>, k: string)
    requires Valid(db)
    ensures var c := db.next;
      var ids := IdRange(c, |ds|);
      var fns := AddedFns(db.fns, ds, c);
      (forall id :: id in ids ==> id in fns)
      && Lookup(PurgedParam(AddedParam(db.param, ds, c), fns, ids), k) == Lookup(db.param, k)
  {
    var c := db.next;
    var ids := IdRange(c, |ds|);
    var fns := AddedFns(db.fns, ds, c);
    forall id | id in ids ensures id in fns {
      IdRangeElems(c, |ds|, id);
      AddedFnsLookup(db.fns, ds, c, id);
    }
    PurgedParamLookup(AddedParam(db.param, ds, c), fns, ids, k);
    AddedParamLookup(db.param, ds, c, k);
    forall id ensures id in ListedUnderParam(fns, ids, k) <==> id in FiledUnderParam(ds, c, k) {
      IdRangeElems(c, |ds|, id);
      AddedFnsLookup(db.fns, ds, c, id);
      FiledMember(ds, c, k, id);
    }
  }

  lemma AddThenPurgeRet(db: Db, name: string, ds: seq<FnDetail>, k: string)
    requires Valid(db)
    ensures var c := db.next;
      var ids := IdRange(c, |ds|);
      var fns := AddedFns(db.fns, ds, c);
      (forall id :: id in ids ==> id in fns)
      && Lookup(PurgedRet(AddedRet(db.ret, ds, c), fns, ids), k) == Lookup(db.ret, k)
  {
    var c := db.next;
    var ids := IdRange(c, |ds|);
    var fns := AddedFns(db.fns, ds, c);
    forall id | id in ids ensures id in fns {
      IdRangeElems(c, |ds|, id);
      AddedFnsLookup(db.fns, ds, c, id);
    }
    PurgedRetLookup(AddedRet(db.ret, ds, c), fns, ids, k);
    AddedRetLookup(db.ret, ds, c, k);
    forall id ensures id in ListedUnderRet(fns, ids, k) <==> id in FiledUnderRet(ds, c, k) {
      IdRangeElems(c, |ds|, id);
      AddedFnsLookup(db.fns, ds, c, id);
      FiledMember(ds, c, k, id);
    }
  }

  /** `add_crate` of a crate that is not listed, then `purge_crate` of it,
      restores the `fn` and `crate` trees exactly and the contents of every
      `param` and `ret` set (a key may stay bound to an empty set), while the
      counter keeps its advanced value, so the purged ids are never reused. */
  lemma AddThenPurge(db: Db, name: string, ds: seq<FnDetail>)
    requires Valid(db) && name !in db.crates
    ensures PurgeSafe(Added(db, name, ds), name)
    ensures var p := Purged(Added(db, name, ds), name);
      && p.fns == db.fns
      && p.crates == db.crates
      && p.next == db.next + |ds|
      && (forall k :: Lookup(p.param, k) == Lookup(db.param, k))
      && (forall k :: Lookup(p.ret, k) == Lookup(db.ret, k))
  {
    AddedPurgeSafe(db, name, ds);
    AddThenPurgeFns(db, name, ds);
    var a := Added(db, name, ds);
    var p := Purged(a, name);
    assert a.crates[name] == IdRange(db.next, |ds|);
    forall k ensures Lookup(p.param, k) == Lookup(db.param, k) && Lookup(p.ret, k) == Lookup(db.ret, k) {
      AddThenPurgeParam(db, name, ds, k);
      AddThenPurgeRet(db, name, ds, k);
    }
    assert a.crates - {name} == db.crates;
  }

  /** Re-ingesting a crate (purge, then apply) of a consistent store leaves it
      consistent, lists the crate with fresh ids only, and advances the counter. */
  lemma Reingest(db: Db, name: string, ds: seq<FnDetail>)
    requires Consistent(db)
    ensures PurgeSafe(db, name)
    ensures var r := Added(Purged(db, name), name, ds);
      && Consistent(r)
      && r.next == db.next + |ds|
      && (forall id :: id in r.crates[name] ==> id >= db.next)
  {
    PurgedConsistent(db, name);
    var p := Purged(db, name);
    AddedConsistent(p, name, ds);
  }
}
