/** `search`: builds one candidate column per query term from the fuzzy
    matcher's hits, joins the columns over the signature store, resolves the
    ids to their records and sorts each depth band by crate and rendering. */
module Query {
  import opened Signatures
  import opened Catalog
  import opened Consistency
  import opened Store
  import opened Ordering
  import opened Join

  /** How many hits are asked of the fuzzy matcher per query term. */
  const FUZZY_SEARCH_LIMIT: nat := 100

  /** The first `n` elements of `s`, or all of them when there are fewer. */
  function Take<T>(s: seq<T>, n: nat): (r: seq<T>)
    ensures |r| == Min(n, |s|) && r == s[..|r|]
  {
    s[..Min(n, |s|)]
  }

  /** The candidate columns of a query: the return-type column first when a
      return type is asked for, then one column per parameter term, each
      holding the matcher's best hits for its term. */
  function QueryColumns(db: Db, paramsSearch: Option<seq<string>>, retSearch: Option<string>,
                        paramHits: string -> seq<string>, retHits: string -> seq<string>): seq<Column>
  {
    var retCols := if retSearch.Some? then [Column(db.ret, Take(retHits(retSearch.value), FUZZY_SEARCH_LIMIT))] else [];
    var paramCols :=
      if paramsSearch.Some? then
        var terms := ParamTerms(paramsSearch.value);
        seq(|terms|, k requires 0 <= k < |terms| => Column(db.param, Take(paramHits(terms[k]), FUZZY_SEARCH_LIMIT)))
      else [];
    retCols + paramCols
  }

  /** The columns of a query, term by term: the return type heads the list,
      an empty parameter list stands for the `<NOARGS>` key, every column
      reads its own index and holds at most 100 candidates. */
  lemma QueryColumnsShape(db: Db, paramsSearch: Option<seq<string>>, retSearch: Option<string>,
                          paramHits: string -> seq<string>, retHits: string -> seq<string>)
    ensures var cols := QueryColumns(db, paramsSearch, retSearch, paramHits, retHits);
            var r := if retSearch.Some? then 1 else 0;
            && |cols| == r + (if paramsSearch.Some? then |ParamTerms(paramsSearch.value)| else 0)
            && (retSearch.Some? ==> cols[0] == Column(db.ret, Take(retHits(retSearch.value), FUZZY_SEARCH_LIMIT)))
            && (paramsSearch.Some? ==>
                  forall k :: r <= k < |cols| ==>
                    cols[k] == Column(db.param, Take(paramHits(ParamTerms(paramsSearch.value)[k - r]), FUZZY_SEARCH_LIMIT)))
            && (paramsSearch == Some([]) ==> cols[r].candidates == Take(paramHits(NOARGS), FUZZY_SEARCH_LIMIT))
            && (forall k :: 0 <= k < |cols| ==> |cols[k].candidates| <= FUZZY_SEARCH_LIMIT)
            && (forall k :: 0 <= k < |cols| ==> cols[k].index == db.ret || cols[k].index == db.param)
            && (paramsSearch.None? && retSearch.None? ==> cols == [])
  {
  }

  /** A query term for which the fuzzy matcher finds nothing gives its
      column no candidates, and so, by `Search`, an empty result. */
  lemma NoHitsEmptyColumn(db: Db, paramsSearch: Option<seq<string>>, retSearch: Option<string>,
                          paramHits: string -> seq<string>, retHits: string -> seq<string>, t: string)
    requires || (retSearch == Some(t) && retHits(t) == [])
             || (paramsSearch.Some? && t in ParamTerms(paramsSearch.value) && paramHits(t) == [])
    ensures var cols := QueryColumns(db, paramsSearch, retSearch, paramHits, retHits);
            exists e :: 0 <= e < |cols| && cols[e].candidates == []
  {
    var cols := QueryColumns(db, paramsSearch, retSearch, paramHits, retHits);
    if retSearch == Some(t) && retHits(t) == [] {
      assert cols[0].candidates == [];
    } else {
      var terms := ParamTerms(paramsSearch.value);
      var r := if retSearch.Some? then 1 else 0;
      var j :| 0 <= j < |terms| && terms[j] == t;
      assert cols[r + j].candidates == [];
    }
  }

  /** The column-building part of `search`: push the return-type column,
      then one column per parameter term. */
  method BuildColumns(store: SignatureStore, paramsSearch: Option<seq<string>>, retSearch: Option<string>,
                      paramHits: string -> seq<string>, retHits: string -> seq<string>)
    returns (cols: seq<Column>)
    ensures cols == QueryColumns(store.Snapshot(), paramsSearch, retSearch, paramHits, retHits)
  {
    cols := [];
    if retSearch.Some? {
      var retCandidates := Take(retHits(retSearch.value), FUZZY_SEARCH_LIMIT);
      cols := cols + [Column(store.retTree, retCandidates)];
    }
    ghost var retCols := cols;
    if paramsSearch.Some? {
      var params := paramsSearch.value;
      if params == [] {
        params := [NOARGS];
      }
      for k := 0 to |params|
        invariant |cols| == |retCols| + k
        invariant cols[..|retCols|] == retCols
        invariant forall t :: 0 <= t < k ==>
                    cols[|retCols| + t] == Column(store.paramTree, Take(paramHits(params[t]), FUZZY_SEARCH_LIMIT))
      {
        var paramCandidates := Take(paramHits(params[k]), FUZZY_SEARCH_LIMIT);
        cols := cols + [Column(store.paramTree, paramCandidates)];
      }
    }
  }

  /** Keeping the first `n` hits loses nothing but the hits after them, and
      nothing at all when there are at most `n`. */
  lemma TakeRest<T>(s: seq<T>, n: nat)
    ensures |Take(s, n)| <= n
    ensures Take(s, n) + s[|Take(s, n)|..] == s
    ensures |s| <= n <==> Take(s, n) == s
  {
  }

  /** The records of `ids`, in order. */
  function Details(ids: seq<nat>, fns: map<nat, FnDetail>): (ds: seq<FnDetail>)
    requires forall id :: id in ids ==> id in fns
    ensures |ds| == |ids| && forall k :: 0 <= k < |ids| ==> ds[k] == fns[ids[k]]
  {
    seq(|ids|, k requires 0 <= k < |ids| => fns[ids[k]])
  }

  /** Resolving a concatenation resolves each part. */
  lemma DetailsConcat(a: seq<nat>, b: seq<nat>, fns: map<nat, FnDetail>)
    requires forall id :: id in a + b ==> id in fns
    ensures Details(a + b, fns) == Details(a, fns) + Details(b, fns)
  {
    assert forall id :: id in a ==> id in a + b;
    assert forall id :: id in b ==> id in a + b;
  }

  /** The resolving loop of `search`: looks every id up in the `fn` tree. */
  method Resolve(ids: seq<nat>, fns: map<nat, FnDetail>) returns (ret: seq<FnDetail>)
    requires forall id :: id in ids ==> id in fns
    ensures ret == Details(ids, fns)
  {
    ret := [];
    for k := 0 to |ids|
      invariant ret == Details(ids[..k], fns)
    {
      ret := ret + [fns[ids[k]]];
    }
    assert ids[..|ids|] == ids;
  }

  /** An id that qualifies at some depth is filed under a candidate key of
      the first column, so in a consistent store it names a stored
      function. */
  lemma QualifiedStored(db: Db, cols: seq<Column>, d: nat, id: nat)
    requires Consistent(db)
    requires forall k :: 0 <= k < |cols| ==> cols[k].index == db.ret || cols[k].index == db.param
    requires id in DepthIds(cols, d)
    ensures id in db.fns
  {
    DepthIdsFiled(cols, d, id);
    var j :| 0 <= j < |cols[0].candidates| && id in Lookup(cols[0].index, cols[0].candidates[j]);
    assert cols[0].index == db.ret || cols[0].index == db.param;
  }

  /** Every id the join returns names a stored function. */
  lemma RankedIdsStored(db: Db, cols: seq<Column>, ids: seq<nat>, bands: seq<Band>)
    requires Consistent(db)
    requires forall k :: 0 <= k < |cols| ==> cols[k].index == db.ret || cols[k].index == db.param
    requires Ranked(cols, ids, bands)
    ensures forall id :: id in ids ==> id in db.fns
  {
    forall p | 0 <= p < |ids|
      ensures ids[p] in db.fns
    {
      var d := RankedIdQualifies(cols, ids, bands, p);
      QualifiedStored(db, cols, d, ids[p]);
    }
  }

  /** The first `k` bands of `s` hold the stably sorted bands of `orig`. */
  ghost predicate BandsSorted(s: seq<FnDetail>, orig: seq<FnDetail>, bands: seq<Band>, k: nat)
  {
    && |s| == |orig|
    && k <= |bands|
    && forall t :: 0 <= t < k ==>
         bands[t].start <= bands[t].end <= |s| &&
         Slice(s, bands[t]) == StableSort(Slice(orig, bands[t]))
  }

  /** Where band `k` starts; the length once every band is done. */
  function BandStart(bands: seq<Band>, k: nat, n: nat): nat
  {
    if k < |bands| then bands[k].start else n
  }

  /** Changing nothing before band `k` keeps the sorted bands before it. */
  lemma EarlierBandsKept(before: seq<FnDetail>, after: seq<FnDetail>, orig: seq<FnDetail>, bands: seq<Band>, k: nat)
    requires Tiles(bands, |orig|) && k < |bands|
    requires BandsSorted(before, orig, bands, k) && |after| == |before|
    requires forall p :: 0 <= p < |after| && p < bands[k].start ==> after[p] == before[p]
    ensures forall t :: 0 <= t < k ==> Slice(after, bands[t]) == StableSort(Slice(orig, bands[t]))
  {
    TilesOrder(bands, |orig|);
    forall t | 0 <= t < k
      ensures Slice(after, bands[t]) == StableSort(Slice(orig, bands[t]))
    {
      assert Slice(after, bands[t]) == Slice(before, bands[t]);
    }
  }

  /** Sorting band `k` in place keeps the bands before it sorted, sorts it,
      and leaves the later bands as they were. */
  lemma SortBandStep(before: seq<FnDetail>, after: seq<FnDetail>, orig: seq<FnDetail>, bands: seq<Band>, k: nat)
    requires Tiles(bands, |orig|) && k < |bands|
    requires BandsSorted(before, orig, bands, k)
    requires forall p :: BandStart(bands, k, |orig|) <= p < |orig| ==> before[p] == orig[p]
    requires |after| == |before| && bands[k].end <= |orig|
    requires after[bands[k].start..bands[k].end] == StableSort(before[bands[k].start..bands[k].end])
    requires forall p :: 0 <= p < |after| && (p < bands[k].start || bands[k].end <= p) ==> after[p] == before[p]
    ensures BandsSorted(after, orig, bands, k + 1)
    ensures forall p :: BandStart(bands, k + 1, |orig|) <= p < |orig| ==> after[p] == orig[p]
  {
    TilesOrder(bands, |orig|);
    var b := bands[k];
    EarlierBandsKept(before, after, orig, bands, k);
    assert before[b.start..b.end] == orig[b.start..b.end];
    if k + 1 == |bands| {
      assert b.end == |orig|;
    }
  }

  /** The band-sorting loop of `search`: each band of `a` is stably sorted
      in place by crate and rendering; nothing moves between bands. */
  method SortBands(a: array<FnDetail>, bands: seq<Band>)
    requires Tiles(bands, a.Length)
    modifies a
    ensures BandsSorted(a[..], old(a[..]), bands, |bands|)
  {
    ghost var orig := a[..];
    TilesOrder(bands, a.Length);
    for k := 0 to |bands|
      invariant BandsSorted(a[..], orig, bands, k)
      invariant forall p :: BandStart(bands, k, a.Length) <= p < a.Length ==> a[p] == orig[p]
    {
      ghost var before := a[..];
      SortRange(a, bands[k].start, bands[k].end);
      SortBandStep(before, a[..], orig, bands, k);
    }
  }

  /** Sorting the bands of the resolved records sorts the records of each
      band of ids. */
  lemma ResolvedBands(result: seq<FnDetail>, ids: seq<nat>, fns: map<nat, FnDetail>, bands: seq<Band>)
    requires forall id :: id in ids ==> id in fns
    requires BandsSorted(result, Details(ids, fns), bands, |bands|)
    ensures forall k :: 0 <= k < |bands| ==>
              bands[k].start <= bands[k].end <= |ids| &&
              Slice(result, bands[k]) == StableSort(Details(Slice(ids, bands[k]), fns))
  {
    var resolved := Details(ids, fns);
    forall k | 0 <= k < |bands|
      ensures bands[k].start <= bands[k].end <= |ids|
      ensures Slice(result, bands[k]) == StableSort(Details(Slice(ids, bands[k]), fns))
    {
      assert Slice(resolved, bands[k]) == Details(Slice(ids, bands[k]), fns);
    }
  }

  /** The part of `QueryColumnsShape` that `Search` relies on: every column
      of a query reads the `param` or the `ret` tree, and no query means no
      columns. */
  lemma QueryColumnsIndexed(db: Db, paramsSearch: Option<seq<string>>, retSearch: Option<string>,
                            paramHits: string -> seq<string>, retHits: string -> seq<string>)
    ensures var cols := QueryColumns(db, paramsSearch, retSearch, paramHits, retHits);
            && (forall k :: 0 <= k < |cols| ==> cols[k].index == db.ret || cols[k].index == db.param)
            && (paramsSearch.None? && retSearch.None? ==> cols == [])
  {
    QueryColumnsShape(db, paramsSearch, retSearch, paramHits, retHits);
  }

  /** The resolving and band-sorting half of `search`: the records of the
      ids, each band stably sorted in place. */
  method SortedRecords(ids: seq<nat>, bands: seq<Band>, fns: map<nat, FnDetail>) returns (result: seq<FnDetail>)
    requires forall id :: id in ids ==> id in fns
    requires Tiles(bands, |ids|)
    ensures |result| == |ids|
    ensures forall k :: 0 <= k < |bands| ==>
              bands[k].start <= bands[k].end <= |ids| &&
              Slice(result, bands[k]) == StableSort(Details(Slice(ids, bands[k]), fns))
  {
    var resolved := Resolve(ids, fns);
    var a := new FnDetail[|resolved|](k requires 0 <= k < |resolved| => resolved[k]);
    assert a[..] == resolved;
    SortBands(a, bands);
    result := a[..];
    ResolvedBands(result, ids, fns, bands);
  }

  /** `search`: the ranked, truncated and band-sorted records for a query.
      The fuzzy matcher is given as the two hit functions. */
  method Search(store: SignatureStore, paramsSearch: Option<seq<string>>, retSearch: Option<string>,
                 paramHits: string -> seq<string>, retHits: string -> seq<string>)
    returns (result: seq<FnDetail>, ghost ids: seq<nat>, ghost bands: seq<Band>)
    requires Consistent(store.Snapshot())
    requires Present(QueryColumns(store.Snapshot(), paramsSearch, retSearch, paramHits, retHits))
    ensures |result| <= MAX_RESULTS
    ensures paramsSearch.None? && retSearch.None? ==> result == []
    ensures var cols := QueryColumns(store.Snapshot(), paramsSearch, retSearch, paramHits, retHits);
            forall e :: 0 <= e < |cols| && cols[e].candidates == [] ==> result == []
    ensures Ranked(QueryColumns(store.Snapshot(), paramsSearch, retSearch, paramHits, retHits), ids, bands)
    ensures |result| == |ids| && forall id :: id in ids ==> id in store.fnTree
    ensures forall k :: 0 <= k < |bands| ==>
              bands[k].start <= bands[k].end <= |ids| &&
              Slice(result, bands[k]) == StableSort(Details(Slice(ids, bands[k]), store.fnTree))
  {
    ghost var db := store.Snapshot();
    var cols := BuildColumns(store, paramsSearch, retSearch, paramHits, retHits);
    QueryColumnsIndexed(db, paramsSearch, retSearch, paramHits, retHits);
    var fnIds, ranges := Join.Join(cols);
    ids, bands := fnIds, ranges;
    RankedIdsStored(db, cols, fnIds, ranges);
    result := SortedRecords(fnIds, ranges, store.fnTree);
    forall e | 0 <= e < |cols| && cols[e].candidates == []
      ensures result == []
    {
      EmptyColumnNothing(cols, fnIds, ranges, e);
    }
  }

  /** A band of `search`'s result, as `Search` states it, is ordered by
      crate and rendering, holds exactly the records of its ids, and keeps
      records with equal keys in the order of their ids. */
  lemma SearchBandOrdered(result: seq<FnDetail>, ids: seq<nat>, fns: map<nat, FnDetail>, b: Band)
    requires forall id :: id in ids ==> id in fns
    requires b.start <= b.end <= |ids| && |result| == |ids|
    requires Slice(result, b) == StableSort(Details(Slice(ids, b), fns))
    ensures Sorted(Slice(result, b))
    ensures multiset(Slice(result, b)) == multiset(Details(Slice(ids, b), fns))
    ensures forall k :: WithKey(Slice(result, b), k) == WithKey(Details(Slice(ids, b), fns), k)
  {
    StableSortCorrect(Details(Slice(ids, b), fns));
  }
}
