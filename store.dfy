/** The signature store as one object: the `param`, `ret`, `fn` and `crate`
    trees and the `next_fn_id` counter are fields that `add_crate` and
    `purge_crate` update in place, one transaction each. */
module Store {
  import opened Signatures
  import opened Catalog
  import opened Consistency

  class SignatureStore {
    var paramTree: Index
    var retTree: Index
    var fnTree: map<nat, FnDetail>
    var crateTree: map<string, seq<nat>>
    var nextFnId: nat

    /** The persisted state as a value. */
    function Snapshot(): Db
      reads this
    {
      Db(paramTree, retTree, fnTree, crateTree, nextFnId)
    }

    /** `open_db` on a fresh database: empty trees, counter 0. */
    constructor ()
      ensures Snapshot() == EmptyDb
      ensures Consistent(Snapshot())
    {
      paramTree, retTree, fnTree, crateTree, nextFnId := map[], map[], map[], map[], 0;
      EmptyConsistent();
    }

    /** `add_crate`: files each record under a fresh id taken from the counter,
        lists the crate with the new ids and stores the advanced counter, which
        it also returns. */
    method AddCrate(name: string, fndetails: seq<FnDetail>) returns (r: nat)
      requires forall key, id :: id in Lookup(retTree, key) ==> id < nextFnId
      modifies this
      ensures Snapshot() == Added(old(Snapshot()), name, fndetails)
      ensures r == nextFnId
    {
      ghost var param0, ret0, fns0, crates0 := paramTree, retTree, fnTree, crateTree;
      var first := nextFnId;
      var fnId := nextFnId;
      var fnIds: seq<nat> := [];
      var nilParams: seq<string> := [NOARGS];
      for i := 0 to |fndetails|
        invariant fnId == first + i
        invariant |fnIds| == i && forall k :: 0 <= k < i ==> fnIds[k] == first + k
        invariant paramTree == AddedParam(param0, fndetails[..i], first)
        invariant retTree == AddedRet(ret0, fndetails[..i], first)
        invariant fnTree == AddedFns(fns0, fndetails[..i], first)
        invariant crateTree == crates0 && nextFnId == first
      {
        AddFn(fndetails, i, fnId, nilParams, param0, ret0, fns0, first);
        fnIds := fnIds + [fnId];
        fnId := fnId + 1;
      }
      crateTree := crateTree[name := fnIds];
      nextFnId := fnId;
      r := fnId;
      assert fndetails[..|fndetails|] == fndetails;
      assert fnIds == IdRange(first, |fndetails|);
    }

    /** The body of the loop of `add_crate` for record `i`: files `fnId`
        under each parameter key and under the return type, and stores the
        record, taking the trees from the first `i` records filed to the
        first `i + 1`. The id is new to its `ret` set, as `add_crate`
        asserts, because every id filed before the batch is below `first`. */
    method AddFn(fndetails: seq<FnDetail>, i: nat, fnId: nat, nilParams: seq<string>,
                 ghost param0: Index, ghost ret0: Index, ghost fns0: map<nat, FnDetail>, ghost first: nat)
      requires i < |fndetails| && fnId == first + i && nilParams == [NOARGS]
      requires forall key, id :: id in Lookup(ret0, key) ==> id < first
      requires paramTree == AddedParam(param0, fndetails[..i], first)
      requires retTree == AddedRet(ret0, fndetails[..i], first)
      requires fnTree == AddedFns(fns0, fndetails[..i], first)
      modifies this`paramTree, this`retTree, this`fnTree
      ensures paramTree == AddedParam(param0, fndetails[..i + 1], first)
      ensures retTree == AddedRet(ret0, fndetails[..i + 1], first)
      ensures fnTree == AddedFns(fns0, fndetails[..i + 1], first)
    {
      AddedStep(param0, ret0, fns0, fndetails, first, i);
      AddedRetFresh(ret0, fndetails[..i], first, fndetails[i].ret);
      var fndetail := fndetails[i];
      var params := fndetail.params;
      if params == [] {
        params := nilParams;
      }
      InsertParams(params, fnId);
      var retSet := Lookup(retTree, fndetail.ret);
      assert fnId !in retSet;
      retSet := retSet + {fnId};
      retTree := retTree[fndetail.ret := retSet];
      fnTree := fnTree[fnId := fndetail];
    }

    /** The inner loop of `add_crate`: adds `fnId` to the `param` set of each
        key in turn, creating missing entries. */
    method InsertParams(params: seq<string>, fnId: nat)
      modifies this`paramTree
      ensures paramTree == InsertAll(old(paramTree), params, fnId)
    {
      for j := 0 to |params|
        invariant paramTree == InsertAll(old(paramTree), params[..j], fnId)
      {
        assert params[..j + 1][..j] == params[..j];
        var param := params[j];
        var paramSet := Lookup(paramTree, param);
        // already present when two parameters share a type
        paramSet := paramSet + {fnId};
        paramTree := paramTree[param := paramSet];
      }
      assert params[..|params|] == params;
    }

    /** The inner loop of `purge_crate`: drops `fnId` from the `param` set of
        each key in turn; a missing entry is written back empty. */
    method RemoveParams(params: seq<string>, fnId: nat)
      modifies this`paramTree
      ensures paramTree == RemoveAll(old(paramTree), params, fnId)
    {
      for j := 0 to |params|
        invariant paramTree == RemoveAll(old(paramTree), params[..j], fnId)
      {
        assert params[..j + 1][..j] == params[..j];
        var param := params[j];
        var paramSet := Lookup(paramTree, param);
        // already gone when two parameters share a type
        paramSet := paramSet - {fnId};
        paramTree := paramTree[param := paramSet];
      }
      assert params[..|params|] == params;
    }

    /** `purge_crate`: a crate with no list changes nothing; otherwise its list
        is removed, each listed `fn` entry is removed (it must be there), and
        each id is dropped from the `param` sets of its record (absence
        tolerated) and from the `ret` set of its return type (it must be there).
        The counter is left alone. */
    method PurgeCrate(name: string)
      requires PurgeSafe(Snapshot(), name)
      modifies this
      ensures Snapshot() == Purged(old(Snapshot()), name)
    {
      ghost var db := Snapshot();
      if name !in crateTree {
        return;
      }
      var fnIds := crateTree[name];
      crateTree := crateTree - {name};
      var fndetails: seq<FnDetail> := [];
      for i := 0 to |fnIds|
        invariant paramTree == db.param && retTree == db.ret && nextFnId == db.next
        invariant fnTree == db.fns - Elems(fnIds[..i]) && crateTree == db.crates - {name}
        invariant |fndetails| == i
        invariant forall k :: 0 <= k < i ==> fnIds[k] in db.fns && fndetails[k] == db.fns[fnIds[k]]
      {
        var fnId := fnIds[i];
        assert fnIds[..i + 1] == fnIds[..i] + [fnId];
        assert fnId !in fnIds[..i];
        var fndetail := fnTree[fnId];
        fnTree := fnTree - {fnId};
        fndetails := fndetails + [fndetail];
      }
      assert fnIds[..|fnIds|] == fnIds;
      for i := 0 to |fnIds|
        invariant forall id :: id in fnIds[..i] ==> id in db.fns
        invariant paramTree == PurgedParam(db.param, db.fns, fnIds[..i])
        invariant retTree == PurgedRet(db.ret, db.fns, fnIds[..i])
        invariant fnTree == db.fns - Elems(fnIds) && crateTree == db.crates - {name} && nextFnId == db.next
      {
        PurgeFn(fnIds, i, fndetails[i], db, name);
      }
    }

    /** The body of the second loop of `purge_crate` for the `i`-th listed
        id: drops it from the `param` set of each key of its record and from
        the `ret` set of its return type, where it must be, taking the trees
        from the first `i` ids purged to the first `i + 1`. */
    method PurgeFn(fnIds: seq<nat>, i: nat, fndetail: FnDetail, ghost db: Db, ghost name: string)
      requires PurgeSafe(db, name) && name in db.crates && fnIds == db.crates[name] && i < |fnIds|
      requires fnIds[i] in db.fns && fndetail == db.fns[fnIds[i]]
      requires forall id :: id in fnIds[..i] ==> id in db.fns
      requires paramTree == PurgedParam(db.param, db.fns, fnIds[..i])
      requires retTree == PurgedRet(db.ret, db.fns, fnIds[..i])
      modifies this`paramTree, this`retTree
      ensures forall id :: id in fnIds[..i + 1] ==> id in db.fns
      ensures paramTree == PurgedParam(db.param, db.fns, fnIds[..i + 1])
      ensures retTree == PurgedRet(db.ret, db.fns, fnIds[..i + 1])
    {
      var fnId := fnIds[i];
      assert fnIds[..i + 1] == fnIds[..i] + [fnId];
      var params := fndetail.params;
      if params == [] {
        params := [NOARGS];
      }
      RemoveParams(params, fnId);
      var retSet := Lookup(retTree, fndetail.ret);
      PurgeRetFinds(db, name, i);
      assert fnId in retSet;
      retSet := retSet - {fnId};
      retTree := retTree[fndetail.ret := retSet];
    }

    /** The store side of `analyze_and_save`: re-ingesting a crate is a purge
        followed by an apply of the freshly extracted records. */
    method AnalyzeAndSave(name: string, fndetails: seq<FnDetail>)
      requires Valid(Snapshot()) && PurgeSafe(Snapshot(), name)
      modifies this
      ensures Snapshot() == Added(Purged(old(Snapshot()), name), name, fndetails)
      ensures Valid(Snapshot())
      ensures old(Consistent(Snapshot())) ==> Consistent(Snapshot())
    {
      ghost var db := Snapshot();
      PurgedValid(db, name);
      if Consistent(db) {
        PurgedConsistent(db, name);
      }
      PurgeCrate(name);
      ghost var p := Snapshot();
      var _ := AddCrate(name, fndetails);
      AddedValid(p, name, fndetails);
      if Consistent(db) {
        assert name !in p.crates;
        AddedConsistent(p, name, fndetails);
      }
    }
  }
}
