/** The ranking join of `search`: each query term contributes a column of
    candidate index keys, best fuzzy match first.  At depth `i` a function
    qualifies when, in every column, it is filed under one of the first `i`
    candidates; the depths are walked in increasing order, each contributing
    the functions that newly qualify as one band of the result, until 500
    ids are collected. */
module Join {
  import opened Signatures
  import opened Catalog

  /** Cap on the number of ids `search` returns. */
  const MAX_RESULTS: nat := 500

  /** One query term: the index its candidates are keys of (`param` or
      `ret`) and the candidate keys, best match first. */
  datatype Column = Column(index: Index, candidates: seq<string>)

  /** A band of the result: the half-open position range `[start, end)`. */
  datatype Band = Band(start: nat, end: nat)

  /** The length of the longest candidate list, 0 without columns. */
  function MaxDepth(cols: seq<Column>): (m: nat)
    ensures forall k :: 0 <= k < |cols| ==> |cols[k].candidates| <= m
    ensures cols == [] ==> m == 0
    ensures cols != [] ==> exists k :: 0 <= k < |cols| && |cols[k].candidates| == m
  {
    if cols == [] then 0
    else if |cols| == 1 then |cols[0].candidates|
    else
      var pre := cols[..|cols| - 1];
      var m := MaxDepth(pre);
      var l := |Last(cols).candidates|;
      assert forall k :: 0 <= k < |pre| ==> pre[k] == cols[k];
      if l <= m then m else l
  }

  /** Every candidate the depth loop can reach is a key of its index: the
      loop reads the first `min(i, len)` candidates of each column for `i`
      below the longest list's length, and a missing key is fatal. */
  predicate Present(cols: seq<Column>)
  {
    forall k, j :: 0 <= k < |cols| && 0 <= j < |cols[k].candidates| && j < MaxDepth(cols) - 1 ==>
      cols[k].candidates[j] in cols[k].index
  }

  /** The union of the index sets of the given candidate keys. */
  function UnionOf(index: Index, cands: seq<string>): set<nat>
  {
    if cands == [] then {}
    else UnionOf(index, cands[..|cands| - 1]) + Lookup(index, Last(cands))
  }

  /** The ids one column admits at depth `i`. */
  function ColumnIds(col: Column, i: nat): set<nat>
  {
    UnionOf(col.index, col.candidates[..Min(i, |col.candidates|)])
  }

  /** The ids every column admits at depth `i`; no columns admit nothing. */
  function DepthIds(cols: seq<Column>, i: nat): set<nat>
  {
    if cols == [] then {}
    else if |cols| == 1 then ColumnIds(cols[0], i)
    else DepthIds(cols[..|cols| - 1], i) * ColumnIds(Last(cols), i)
  }

  /** One column admits `id` at depth `i`: it is filed under one of the
      column's first `i` candidates. */
  ghost predicate InColumn(col: Column, id: nat, i: nat)
  {
    exists j :: 0 <= j < Min(i, |col.candidates|) && id in Lookup(col.index, col.candidates[j])
  }

  /** The declarative reading of depth `i`: every column admits `id`. */
  ghost predicate Qualifies(cols: seq<Column>, id: nat, i: nat)
  {
    cols != [] && forall k :: 0 <= k < |cols| ==> InColumn(cols[k], id, i)
  }

  lemma {:induction false} UnionOfMember(index: Index, cands: seq<string>, id: nat)
    ensures id in UnionOf(index, cands) <==> exists j :: 0 <= j < |cands| && id in Lookup(index, cands[j])
  {
    if cands != [] {
      var pre := cands[..|cands| - 1];
      UnionOfMember(index, pre, id);
      if id in UnionOf(index, pre) {
        var j :| 0 <= j < |pre| && id in Lookup(index, pre[j]);
        assert cands[j] == pre[j];
      }
      if exists j :: 0 <= j < |cands| && id in Lookup(index, cands[j]) {
        var j :| 0 <= j < |cands| && id in Lookup(index, cands[j]);
        if j < |pre| {
          assert pre[j] == cands[j];
        }
      }
    }
  }

  lemma ColumnIdsMember(col: Column, i: nat, id: nat)
    ensures id in ColumnIds(col, i) <==> InColumn(col, id, i)
  {
    var pre := col.candidates[..Min(i, |col.candidates|)];
    UnionOfMember(col.index, pre, id);
    if id in ColumnIds(col, i) {
      var j :| 0 <= j < |pre| && id in Lookup(col.index, pre[j]);
      assert col.candidates[j] == pre[j];
    }
    if InColumn(col, id, i) {
      var j :| 0 <= j < Min(i, |col.candidates|) && id in Lookup(col.index, col.candidates[j]);
      assert pre[j] == col.candidates[j];
    }
  }

  /** The intersection computes the declarative reading. */
  lemma {:induction false} DepthIdsMember(cols: seq<Column>, i: nat, id: nat)
    ensures id in DepthIds(cols, i) <==> Qualifies(cols, id, i)
  {
    if |cols| == 1 {
      ColumnIdsMember(cols[0], i, id);
    } else if |cols| > 1 {
      var pre := cols[..|cols| - 1];
      DepthIdsMember(pre, i, id);
      ColumnIdsMember(Last(cols), i, id);
      assert forall k :: 0 <= k < |pre| ==> pre[k] == cols[k];
      if Qualifies(cols, id, i) {
        assert InColumn(Last(cols), id, i);
        assert forall k :: 0 <= k < |pre| ==> InColumn(pre[k], id, i);
      }
    }
  }

  /** Deeper means more candidates per column, so more ids qualify. */
  lemma DepthIdsMono(cols: seq<Column>, i: nat, i': nat, id: nat)
    requires i <= i' && id in DepthIds(cols, i)
    ensures id in DepthIds(cols, i')
  {
    DepthIdsMember(cols, i, id);
    DepthIdsMember(cols, i', id);
    forall k | 0 <= k < |cols|
      ensures InColumn(cols[k], id, i')
    {
      assert InColumn(cols[k], id, i);
      var j :| 0 <= j < Min(i, |cols[k].candidates|) && id in Lookup(cols[k].index, cols[k].candidates[j]);
      assert 0 <= j < Min(i', |cols[k].candidates|);
    }
  }

  lemma DepthIdsGrow(cols: seq<Column>, i: nat)
    ensures DepthIds(cols, i) <= DepthIds(cols, i + 1)
  {
    forall id | id in DepthIds(cols, i)
      ensures id in DepthIds(cols, i + 1)
    {
      DepthIdsMono(cols, i, i + 1, id);
    }
  }

  lemma DepthIdsZero(cols: seq<Column>)
    ensures DepthIds(cols, 0) == {}
  {
    forall id
      ensures id !in DepthIds(cols, 0)
    {
      DepthIdsMember(cols, 0, id);
      if cols != [] {
        assert !InColumn(cols[0], id, 0);
      }
    }
  }

  /** A depth-`i` id is filed under a candidate of the first column. */
  lemma DepthIdsFiled(cols: seq<Column>, i: nat, id: nat)
    requires id in DepthIds(cols, i)
    ensures cols != []
    ensures exists j :: 0 <= j < |cols[0].candidates| && id in Lookup(cols[0].index, cols[0].candidates[j])
  {
    DepthIdsMember(cols, i, id);
    assert InColumn(cols[0], id, i);
  }

  /** The slice of `ids` a band covers. */
  function Slice<T>(ids: seq<T>, b: Band): seq<T>
    requires b.start <= b.end <= |ids|
  {
    ids[b.start..b.end]
  }

  /** The bands are contiguous, in increasing order, and cover `[0, n)`. */
  predicate Tiles(bands: seq<Band>, n: nat)
  {
    && (bands == [] ==> n == 0)
    && (bands != [] ==> bands[0].start == 0 && Last(bands).end == n)
    && (forall k :: 0 <= k < |bands| ==> bands[k].start <= bands[k].end)
    && (forall k :: 0 <= k < |bands| - 1 ==> bands[k].end == bands[k + 1].start)
  }

  /** Tiling bands are ordered: an earlier band ends before a later one
      starts, and all end within `[0, n)`. */
  lemma {:induction false} TilesOrder(bands: seq<Band>, n: nat)
    requires Tiles(bands, n)
    ensures forall p, q :: 0 <= p < q < |bands| ==> bands[p].end <= bands[q].start
    ensures forall p :: 0 <= p < |bands| ==> bands[p].end <= n
    decreases |bands|
  {
    if |bands| > 1 {
      var pre := bands[..|bands| - 1];
      assert Tiles(pre, Last(pre).end);
      TilesOrder(pre, Last(pre).end);
      forall p, q | 0 <= p < q < |bands|
        ensures bands[p].end <= bands[q].start
      {
        if q < |pre| {
          assert bands[p] == pre[p] && bands[q] == pre[q];
        } else if p < |pre| - 1 {
          assert bands[p] == pre[p];
        }
      }
    }
  }

  /** Every position of a tiling lies in some band. */
  lemma {:induction false} TilesCover(bands: seq<Band>, n: nat, p: nat)
    requires Tiles(bands, n) && p < n
    ensures exists k :: 0 <= k < |bands| && bands[k].start <= p < bands[k].end
    decreases |bands|
  {
    var last := |bands| - 1;
    if p < bands[last].start {
      var pre := bands[..last];
      assert Tiles(pre, bands[last].start);
      TilesCover(pre, bands[last].start, p);
      var k :| 0 <= k < |pre| && pre[k].start <= p < pre[k].end;
      assert bands[k] == pre[k];
    } else {
      assert bands[last].start <= p < bands[last].end;
    }
  }

  /** The sets of ids qualifying at depths `0 .. n - 1`. */
  function Depths(cols: seq<Column>, n: nat): (ds: seq<set<nat>>)
    ensures |ds| == n && forall k :: 0 <= k < n ==> ds[k] == DepthIds(cols, k)
  {
    seq(n, k requires 0 <= k < n => DepthIds(cols, k))
  }

  lemma DepthsSnoc(cols: seq<Column>, n: nat)
    ensures Depths(cols, n) + [DepthIds(cols, n)] == Depths(cols, n + 1)
  {
  }

  /** `ids` is laid out in bands, band `k` holding exactly the ids of
      `layers[k + 1]` not already in `layers[k]`, the last layer being all
      of `ids`, and no id twice. */
  ghost predicate Layered(ids: seq<nat>, bands: seq<Band>, layers: seq<set<nat>>)
  {
    && |layers| == |bands| + 1
    && layers[0] == {}
    && NoDup(ids)
    && Tiles(bands, |ids|)
    && Elems(ids) == Last(layers)
    && (forall k :: 0 <= k < |bands| ==>
          bands[k].end <= |ids| && Elems(Slice(ids, bands[k])) == layers[k + 1] - layers[k])
  }

  lemma ElemsConcat(a: seq<nat>, b: seq<nat>)
    ensures Elems(a + b) == Elems(a) + Elems(b)
  {
    forall x
      ensures x in Elems(a + b) <==> x in Elems(a) || x in Elems(b)
    {
      if x in a + b {
        var p :| 0 <= p < |a + b| && (a + b)[p] == x;
        if p < |a| { assert a[p] == x; } else { assert b[p - |a|] == x; }
      }
      if x in a { var p :| 0 <= p < |a| && a[p] == x; assert (a + b)[p] == x; }
      if x in b { var p :| 0 <= p < |b| && b[p] == x; assert (a + b)[|a| + p] == x; }
    }
  }

  /** One iteration of the depth loop: the ids of the next, larger layer that
      are not out yet form a new band at the end. */
  lemma LayeredStep(ids: seq<nat>, bands: seq<Band>, layers: seq<set<nat>>, next: set<nat>, newIds: seq<nat>)
    requires Layered(ids, bands, layers) && Last(layers) <= next
    requires Elems(newIds) == next - Elems(ids) && NoDup(newIds)
    ensures Layered(ids + newIds, bands + [Band(|ids|, |ids| + |newIds|)], layers + [next])
  {
    var ids' := ids + newIds;
    var bands' := bands + [Band(|ids|, |ids| + |newIds|)];
    var layers' := layers + [next];
    ElemsConcat(ids, newIds);
    forall p, q | 0 <= p < q < |ids'|
      ensures ids'[p] != ids'[q]
    {
      if p < |ids| && q >= |ids| {
        assert ids'[q] == newIds[q - |ids|] && ids'[q] in Elems(newIds);
        assert ids'[p] == ids[p] && ids'[p] in Elems(ids);
      } else if p >= |ids| {
        assert ids'[p] == newIds[p - |ids|] && ids'[q] == newIds[q - |ids|];
      }
    }
    forall k | 0 <= k < |bands'|
      ensures bands'[k].end <= |ids'| && Elems(Slice(ids', bands'[k])) == layers'[k + 1] - layers'[k]
    {
      if k < |bands| {
        assert bands'[k] == bands[k] && layers'[k] == layers[k] && layers'[k + 1] == layers[k + 1];
        assert Slice(ids', bands'[k]) == Slice(ids, bands[k]);
      } else {
        assert Slice(ids', bands'[k]) == newIds;
      }
    }
  }

  // ---------------------------------------------------------------------------
  // The loops of the join
  // ---------------------------------------------------------------------------

  /** The candidates loop: the union of the index sets of the first
      `min(i, len)` candidates of a column. */
  method ColumnUnion(col: Column, i: nat) returns (u: set<nat>)
    requires forall j :: 0 <= j < Min(i, |col.candidates|) ==> col.candidates[j] in col.index
    ensures u == ColumnIds(col, i)
  {
    var cands := col.candidates[..Min(i, |col.candidates|)];
    u := {};
    for j := 0 to |cands|
      invariant u == UnionOf(col.index, cands[..j])
    {
      assert cands[..j + 1][..j] == cands[..j];
      u := u + col.index[cands[j]];
    }
    assert cands[..|cands|] == cands;
  }

  /** The columns loop: the first column's union initialises the running
      set, every later one is intersected into it. */
  method IterationIds(cols: seq<Column>, i: nat) returns (ids: set<nat>)
    requires cols != []
    requires forall k, j :: 0 <= k < |cols| && 0 <= j < Min(i, |cols[k].candidates|) ==>
               cols[k].candidates[j] in cols[k].index
    ensures ids == DepthIds(cols, i)
  {
    var acc: Option<set<nat>> := None;
    for k := 0 to |cols|
      invariant k == 0 <==> acc == None
      invariant k > 0 ==> acc == Some(DepthIds(cols[..k], i))
    {
      var colIds := ColumnUnion(cols[k], i);
      assert cols[..k + 1][..k] == cols[..k];
      if acc.Some? {
        acc := Some(acc.value * colIds);
      } else {
        acc := Some(colIds);
      }
    }
    assert cols[..|cols|] == cols;
    ids := acc.value;
  }

  /** Collecting a `HashSet` into a `Vec`: every element once, in an order
      the model leaves unspecified. */
  method Enumerate(s: set<nat>) returns (r: seq<nat>)
    ensures Elems(r) == s && NoDup(r) && |r| == |s|
  {
    r := [];
    var rest := s;
    while rest != {}
      invariant rest <= s && Elems(r) == s - rest && NoDup(r) && |r| + |rest| == |s|
      decreases |rest|
    {
      var x :| x in rest;
      assert x !in Elems(r);
      assert Elems(r + [x]) == Elems(r) + {x};
      r := r + [x];
      rest := rest - {x};
    }
  }

  /** The fix-up of the last band after truncating to `end` ids. */
  function CutLast(bands: seq<Band>, end: nat): (bs: seq<Band>)
    ensures |bs| == |bands|
    ensures forall k :: 0 <= k < |bands| - 1 ==> bs[k] == bands[k]
    ensures bands != [] ==> Last(bs) == Band(Last(bands).start, end)
  {
    if bands == [] then [] else bands[..|bands| - 1] + [Band(Last(bands).start, end)]
  }

  lemma PrefixSlice(all: seq<nat>, end: nat, b: Band)
    requires b.start <= b.end <= end <= |all|
    ensures Slice(all[..end], b) == Slice(all, b)
  {
    assert forall p :: 0 <= p < b.end - b.start ==> Slice(all[..end], b)[p] == all[b.start + p];
  }

  /** Truncating a layered run to its first `end` ids, with the last band
      cut to end there, keeps every band but the last intact and the last
      one within its layer. */
  lemma TruncateLayered(all: seq<nat>, bands: seq<Band>, layers: seq<set<nat>>, end: nat)
    requires Layered(all, bands, layers) && end <= |all|
    requires bands != [] ==> Last(bands).start <= end
    ensures var ids := all[..end];
            var bs := CutLast(bands, end);
            && NoDup(ids)
            && Tiles(bs, |ids|)
            && (end == |all| ==> bs == bands)
            && (forall k :: 0 <= k < |bs| ==>
                  bs[k].end <= |ids| && Elems(Slice(ids, bs[k])) <= layers[k + 1] - layers[k])
            && (forall k :: 0 <= k < |bs| - 1 ==> Elems(Slice(ids, bs[k])) == layers[k + 1] - layers[k])
  {
    var ids := all[..end];
    var bs := CutLast(bands, end);
    assert NoDup(ids) by {
      forall p, q | 0 <= p < q < |ids|
        ensures ids[p] != ids[q]
      {
        assert ids[p] == all[p] && ids[q] == all[q];
      }
    }
    if bands != [] {
      TilesOrder(bands, |all|);
      var n := |bands| - 1;
      forall k | 0 <= k < |bs|
        ensures bs[k].end <= |ids| && Elems(Slice(ids, bs[k])) <= layers[k + 1] - layers[k]
      {
        if k < n {
          assert bands[k].end <= bands[n].start;
          PrefixSlice(all, end, bands[k]);
        } else {
          var cut := Slice(ids, bs[k]);
          forall x | x in Elems(cut)
            ensures x in Elems(Slice(all, bands[k]))
          {
            var p :| 0 <= p < |cut| && cut[p] == x;
            assert Slice(all, bands[k])[p] == x;
          }
        }
      }
      forall k | 0 <= k < |bs| - 1
        ensures Elems(Slice(ids, bs[k])) == layers[k + 1] - layers[k]
      {
        assert bs[k] == bands[k] && Last(bands) == bands[n];
        assert bands[k].end <= bands[n].start;
        PrefixSlice(all, end, bands[k]);
      }
      if end == |all| {
        assert bs == bands;
      }
    }
  }

  /** The shape of what `search` returns: at most 500 ids, none twice,
      tiled by at most one band per depth below the longest candidate list,
      and nothing at all when no list has two candidates. */
  ghost predicate RankedShape(cols: seq<Column>, ids: seq<nat>, bands: seq<Band>)
  {
    && |ids| <= MAX_RESULTS
    && NoDup(ids)
    && Tiles(bands, |ids|)
    && |bands| <= Max(MaxDepth(cols) - 1, 0)
    && (MaxDepth(cols) <= 1 ==> ids == [] && bands == [])
  }

  /** Band `k` holds only ids that qualify at depth `k + 1` and not at
      depth `k`, and all of them unless it is the last band. */
  ghost predicate RankedBands(cols: seq<Column>, ids: seq<nat>, bands: seq<Band>)
  {
    && (forall k :: 0 <= k < |bands| ==>
          bands[k].start <= bands[k].end <= |ids| &&
          Elems(Slice(ids, bands[k])) <= DepthIds(cols, k + 1) - DepthIds(cols, k))
    && (forall k :: 0 <= k < |bands| - 1 ==>
          bands[k].start <= bands[k].end <= |ids| &&
          Elems(Slice(ids, bands[k])) == DepthIds(cols, k + 1) - DepthIds(cols, k))
  }

  /** Below the cap nothing was cut: every depth has its band, the last
      band is complete too, and every id qualifying at the last depth is
      returned. */
  ghost predicate RankedComplete(cols: seq<Column>, ids: seq<nat>, bands: seq<Band>)
  {
    |ids| < MAX_RESULTS ==>
      && |bands| == Max(MaxDepth(cols) - 1, 0)
      && (forall k :: 0 <= k < |bands| ==>
            bands[k].start <= bands[k].end <= |ids| &&
            Elems(Slice(ids, bands[k])) == DepthIds(cols, k + 1) - DepthIds(cols, k))
      && Elems(ids) == DepthIds(cols, Max(MaxDepth(cols) - 1, 0))
  }

  /** What `search` promises of the ids it resolves and of their bands. */
  ghost predicate Ranked(cols: seq<Column>, ids: seq<nat>, bands: seq<Band>)
  {
    RankedShape(cols, ids, bands) && RankedBands(cols, ids, bands) && RankedComplete(cols, ids, bands)
  }

  /** The state the depth loop leaves behind: `i - 1` bands laid out over
      the depth layers, stopped by the cap or by running out of depths. */
  ghost predicate LoopDone(cols: seq<Column>, all: seq<nat>, bands: seq<Band>, i: nat)
  {
    && 1 <= i <= Max(MaxDepth(cols), 1) && |bands| == i - 1
    && Layered(all, bands, Depths(cols, i))
    && (|all| >= MAX_RESULTS ==> bands != [] && Last(bands).start < MAX_RESULTS)
    && (|all| < MAX_RESULTS ==> i == Max(MaxDepth(cols), 1))
  }

  lemma RankedShapeResult(cols: seq<Column>, all: seq<nat>, bands: seq<Band>, i: nat, end: nat)
    requires LoopDone(cols, all, bands, i) && end == Min(|all|, MAX_RESULTS)
    ensures RankedShape(cols, all[..end], CutLast(bands, end))
  {
    TruncateLayered(all, bands, Depths(cols, i), end);
    if MaxDepth(cols) <= 1 {
      assert bands == [] && all == [];
    }
  }

  lemma RankedBandsResult(cols: seq<Column>, all: seq<nat>, bands: seq<Band>, i: nat, end: nat)
    requires LoopDone(cols, all, bands, i) && end == Min(|all|, MAX_RESULTS)
    ensures RankedBands(cols, all[..end], CutLast(bands, end))
  {
    var layers := Depths(cols, i);
    var ids := all[..end];
    var bs := CutLast(bands, end);
    TruncateLayered(all, bands, layers, end);
    forall k | 0 <= k < |bs|
      ensures bs[k].start <= bs[k].end <= |ids| && Elems(Slice(ids, bs[k])) <= DepthIds(cols, k + 1) - DepthIds(cols, k)
    {
      assert layers[k + 1] == DepthIds(cols, k + 1) && layers[k] == DepthIds(cols, k);
    }
    forall k | 0 <= k < |bs| - 1
      ensures bs[k].start <= bs[k].end <= |ids| && Elems(Slice(ids, bs[k])) == DepthIds(cols, k + 1) - DepthIds(cols, k)
    {
      assert layers[k + 1] == DepthIds(cols, k + 1) && layers[k] == DepthIds(cols, k);
    }
  }

  lemma RankedCompleteResult(cols: seq<Column>, all: seq<nat>, bands: seq<Band>, i: nat, end: nat)
    requires LoopDone(cols, all, bands, i) && end == Min(|all|, MAX_RESULTS)
    ensures RankedComplete(cols, all[..end], CutLast(bands, end))
  {
    var layers := Depths(cols, i);
    var ids := all[..end];
    if |ids| < MAX_RESULTS {
      assert end == |all| && ids == all;
      CutLastWhole(bands);
      assert Elems(ids) == layers[i - 1] == DepthIds(cols, i - 1);
      forall k | 0 <= k < |bands|
        ensures bands[k].start <= bands[k].end <= |ids| && Elems(Slice(ids, bands[k])) == DepthIds(cols, k + 1) - DepthIds(cols, k)
      {
        assert layers[k + 1] == DepthIds(cols, k + 1) && layers[k] == DepthIds(cols, k);
      }
    }
  }

  lemma CutLastWhole(bands: seq<Band>)
    ensures bands != [] ==> CutLast(bands, Last(bands).end) == bands
  {
    if bands != [] {
      assert CutLast(bands, Last(bands).end)[|bands| - 1] == bands[|bands| - 1];
    }
  }

  /** One iteration of the depth loop at depth `i`: the ids qualifying at
      `i` that are not out yet become a new band at the end. */
  method Deepen(cols: seq<Column>, i: nat, ids: seq<nat>, bands: seq<Band>, seen: set<nat>)
    returns (ids': seq<nat>, bands': seq<Band>, seen': set<nat>)
    requires Present(cols) && 1 <= i < MaxDepth(cols)
    requires Layered(ids, bands, Depths(cols, i)) && seen == Elems(ids)
    ensures Layered(ids', bands', Depths(cols, i + 1)) && seen' == Elems(ids')
    ensures bands' == bands + [Band(|ids|, |ids'|)]
  {
    var iterationIds := IterationIds(cols, i);
    var newIds := Enumerate(iterationIds - seen);
    DepthIdsGrow(cols, i - 1);
    LayeredStep(ids, bands, Depths(cols, i), iterationIds, newIds);
    DepthsSnoc(cols, i);
    bands' := bands + [Band(|ids|, |ids| + |newIds|)];
    ids' := ids + newIds;
    seen' := seen + Elems(newIds);
    ElemsConcat(ids, newIds);
  }

  /** The depth loop: depths `1, 2, ...` below the longest candidate list,
      each appending the ids that newly qualify as one band; the loop is
      left as soon as 500 ids are out. */
  method DepthLoop(cols: seq<Column>) returns (ids: seq<nat>, bands: seq<Band>, ghost depth: nat)
    requires Present(cols)
    ensures LoopDone(cols, ids, bands, depth)
  {
    var maxDepth := MaxDepth(cols);
    ids := [];
    var seen: set<nat> := {};
    bands := [];
    DepthIdsZero(cols);
    var i := 1;
    while i < maxDepth && |ids| < MAX_RESULTS
      invariant 1 <= i && (i <= maxDepth || i == 1)
      invariant |bands| == i - 1
      invariant Layered(ids, bands, Depths(cols, i))
      invariant seen == Elems(ids)
      invariant bands != [] ==> Last(bands).start < MAX_RESULTS
    {
      ids, bands, seen := Deepen(cols, i, ids, bands, seen);
      i := i + 1;
    }
    depth := i;
  }

  /** The depth loop, then the truncation to 500 ids and the fix-up of the
      last band. */
  method Join(cols: seq<Column>) returns (ids: seq<nat>, bands: seq<Band>)
    requires Present(cols)
    ensures Ranked(cols, ids, bands)
  {
    var all, allBands, i := DepthLoop(cols);
    var end := Min(|all|, MAX_RESULTS);
    ids := all[..end];
    bands := allBands;
    if |bands| > 0 {
      var last := bands[|bands| - 1];
      bands := bands[..|bands| - 1] + [Band(last.start, end)];
    }
    assert bands == CutLast(allBands, end);
    RankedShapeResult(cols, all, allBands, i, end);
    RankedBandsResult(cols, all, allBands, i, end);
    RankedCompleteResult(cols, all, allBands, i, end);
  }

  /** The id at position `p` of the join's result qualifies at some depth. */
  lemma RankedIdQualifies(cols: seq<Column>, ids: seq<nat>, bands: seq<Band>, p: nat) returns (d: nat)
    requires Tiles(bands, |ids|) && RankedBands(cols, ids, bands) && p < |ids|
    ensures 1 <= d <= |bands| && ids[p] in DepthIds(cols, d)
  {
    TilesCover(bands, |ids|, p);
    var k :| 0 <= k < |bands| && bands[k].start <= p < bands[k].end;
    assert ids[p] == Slice(ids, bands[k])[p - bands[k].start];
    assert ids[p] in Elems(Slice(ids, bands[k]));
    d := k + 1;
  }

  /** The id at position `p` of band `k` was emitted at depth `k + 1`: every
      column admits it among its first `k + 1` candidates, and at no smaller
      depth did every column admit it. */
  lemma RankedEmittedAt(cols: seq<Column>, ids: seq<nat>, bands: seq<Band>, k: nat, p: nat)
    requires Ranked(cols, ids, bands) && k < |bands| && bands[k].start <= p < bands[k].end
    ensures Qualifies(cols, ids[p], k + 1)
    ensures forall d :: 0 <= d <= k ==> !Qualifies(cols, ids[p], d)
  {
    var id := ids[p];
    assert id == Slice(ids, bands[k])[p - bands[k].start];
    assert id in Elems(Slice(ids, bands[k]));
    assert id in DepthIds(cols, k + 1) && id !in DepthIds(cols, k);
    DepthIdsMember(cols, k + 1, id);
    forall d | 0 <= d <= k
      ensures !Qualifies(cols, id, d)
    {
      DepthIdsMember(cols, d, id);
      if id in DepthIds(cols, d) {
        DepthIdsMono(cols, d, k, id);
      }
    }
  }

  /** The depth loop stops one short of the longest candidate list: every
      returned id already qualifies with one candidate fewer than that, so
      when no column has two candidates nothing is returned. */
  lemma DeepestDepthUnread(cols: seq<Column>, ids: seq<nat>, bands: seq<Band>)
    requires Ranked(cols, ids, bands)
    ensures forall id :: id in ids ==> id in DepthIds(cols, MaxDepth(cols) - 1)
    ensures (forall k :: 0 <= k < |cols| ==> |cols[k].candidates| <= 1) ==> ids == []
  {
    forall p | 0 <= p < |ids|
      ensures ids[p] in DepthIds(cols, MaxDepth(cols) - 1)
    {
      var d := RankedIdQualifies(cols, ids, bands, p);
      DepthIdsMono(cols, d, MaxDepth(cols) - 1, ids[p]);
    }
  }

  /** A column without candidates admits no id at any depth, so a query with
      such a column returns nothing. */
  lemma EmptyColumnNothing(cols: seq<Column>, ids: seq<nat>, bands: seq<Band>, e: nat)
    requires Ranked(cols, ids, bands) && e < |cols| && cols[e].candidates == []
    ensures ids == []
  {
    if ids != [] {
      var d := RankedIdQualifies(cols, ids, bands, 0);
      DepthIdsMember(cols, d, ids[0]);
      assert false;
    }
  }
}
