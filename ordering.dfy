/** The order `search` gives the records within one depth band: by crate
    name, then by rendering, each compared as Rust compares `String`s
    (lexicographically by character), with `sort_by`'s stability keeping
    records of equal key in the order they arrived. */
module Ordering {
  import opened Signatures

  /** Lexicographic `<=` on strings: a proper prefix comes first. */
  predicate StrLe(a: string, b: string)
  {
    a == [] || (b != [] && (a[0] < b[0] || (a[0] == b[0] && StrLe(a[1..], b[1..]))))
  }

  lemma {:induction false} StrLeTotal(a: string, b: string)
    ensures StrLe(a, b) || StrLe(b, a)
  {
    if a != [] && b != [] && a[0] == b[0] {
      StrLeTotal(a[1..], b[1..]);
    }
  }

  lemma {:induction false} StrLeTrans(a: string, b: string, c: string)
    requires StrLe(a, b) && StrLe(b, c)
    ensures StrLe(a, c)
  {
    if a != [] && a[0] == b[0] && b[0] == c[0] {
      StrLeTrans(a[1..], b[1..], c[1..]);
    }
  }

  lemma {:induction false} StrLeAntisym(a: string, b: string)
    requires StrLe(a, b) && StrLe(b, a)
    ensures a == b
  {
    if a != [] {
      StrLeAntisym(a[1..], b[1..]);
      assert a == [a[0]] + a[1..] && b == [b[0]] + b[1..];
    }
  }

  lemma {:induction false} StrLeRefl(a: string)
    ensures StrLe(a, a)
  {
    if a != [] {
      StrLeRefl(a[1..]);
    }
  }

  /** The sort key of a record. */
  function Key(d: FnDetail): (string, string)
  {
    (d.krate, d.s)
  }

  /** The comparator of the band sort: crate name first, then the rendering. */
  predicate KeyLe(x: FnDetail, y: FnDetail)
  {
    if x.krate == y.krate then StrLe(x.s, y.s) else StrLe(x.krate, y.krate)
  }

  /** The comparator is a total preorder whose ties are exactly equal keys. */
  lemma KeyLeTotal(x: FnDetail, y: FnDetail)
    ensures KeyLe(x, y) || KeyLe(y, x)
  {
    StrLeTotal(x.krate, y.krate);
    StrLeTotal(x.s, y.s);
  }

  lemma KeyLeTrans(x: FnDetail, y: FnDetail, z: FnDetail)
    requires KeyLe(x, y) && KeyLe(y, z)
    ensures KeyLe(x, z)
  {
    if x.krate == y.krate && y.krate == z.krate {
      StrLeTrans(x.s, y.s, z.s);
    } else if x.krate == y.krate {
      assert StrLe(y.krate, z.krate);
    } else if y.krate == z.krate {
      assert StrLe(x.krate, y.krate);
    } else {
      StrLeTrans(x.krate, y.krate, z.krate);
      if x.krate == z.krate {
        StrLeAntisym(x.krate, y.krate);
      }
    }
  }

  lemma KeyLeTies(x: FnDetail, y: FnDetail)
    ensures KeyLe(x, y) && KeyLe(y, x) <==> Key(x) == Key(y)
  {
    if KeyLe(x, y) && KeyLe(y, x) {
      if x.krate == y.krate {
        StrLeAntisym(x.s, y.s);
      } else {
        StrLeAntisym(x.krate, y.krate);
      }
    }
    if Key(x) == Key(y) {
      StrLeRefl(x.s);
    }
  }

  predicate Sorted(s: seq<FnDetail>)
  {
    forall i, j :: 0 <= i < j < |s| ==> KeyLe(s[i], s[j])
  }

  /** One step of a stable insertion sort: `x`, which came after every
      element of `s`, moves left past the elements whose key is larger. */
  function Insert(s: seq<FnDetail>, x: FnDetail): seq<FnDetail>
  {
    if s == [] || KeyLe(Last(s), x) then s + [x]
    else Insert(s[..|s| - 1], x) + [Last(s)]
  }

  /** `sort_by` with the band comparator: a stable sort. */
  function StableSort(s: seq<FnDetail>): seq<FnDetail>
  {
    if s == [] then [] else Insert(StableSort(s[..|s| - 1]), Last(s))
  }

  /** The records of `s` whose key is `k`, in their order in `s`. */
  function WithKey(s: seq<FnDetail>, k: (string, string)): seq<FnDetail>
  {
    if s == [] then []
    else WithKey(s[..|s| - 1], k) + (if Key(Last(s)) == k then [Last(s)] else [])
  }

  lemma {:induction false} WithKeyConcat(a: seq<FnDetail>, b: seq<FnDetail>, k: (string, string))
    ensures WithKey(a + b, k) == WithKey(a, k) + WithKey(b, k)
    decreases |b|
  {
    if b == [] {
      assert a + b == a;
    } else {
      var b' := b[..|b| - 1];
      assert (a + b)[..|a + b| - 1] == a + b';
      WithKeyConcat(a, b', k);
    }
  }

  lemma {:induction false} InsertMultiset(s: seq<FnDetail>, x: FnDetail)
    ensures multiset(Insert(s, x)) == multiset(s) + multiset{x}
  {
    if !(s == [] || KeyLe(Last(s), x)) {
      var s' := s[..|s| - 1];
      InsertMultiset(s', x);
      assert s == s' + [Last(s)];
    }
  }

  lemma {:induction false} InsertSorted(s: seq<FnDetail>, x: FnDetail)
    requires Sorted(s)
    ensures Sorted(Insert(s, x))
  {
    if s == [] {
    } else if KeyLe(Last(s), x) {
      var r := s + [x];
      forall i, j | 0 <= i < j < |r|
        ensures KeyLe(r[i], r[j])
      {
        if j == |s| && i < |s| - 1 {
          KeyLeTrans(s[i], Last(s), x);
        }
      }
    } else {
      var s' := s[..|s| - 1];
      var ins := Insert(s', x);
      InsertSorted(s', x);
      InsertMultiset(s', x);
      KeyLeTotal(Last(s), x);
      var r := ins + [Last(s)];
      forall i, j | 0 <= i < j < |r|
        ensures KeyLe(r[i], r[j])
      {
        if j == |ins| {
          assert r[i] in multiset(ins);
          if r[i] != x {
            assert r[i] in multiset(s');
            var t :| 0 <= t < |s'| && s'[t] == r[i];
          }
        }
      }
    }
  }

  /** Inserting `x` appends it to the records of its own key and leaves the
      records of every other key as they were. */
  lemma {:induction false} InsertWithKey(s: seq<FnDetail>, x: FnDetail, k: (string, string))
    ensures WithKey(Insert(s, x), k) == WithKey(s, k) + (if Key(x) == k then [x] else [])
  {
    if s == [] || KeyLe(Last(s), x) {
      WithKeyConcat(s, [x], k);
      assert WithKey([x], k) == (if Key(x) == k then [x] else []) by {
        assert [x][..0] == [];
      }
    } else {
      var s' := s[..|s| - 1];
      var ins := Insert(s', x);
      InsertWithKey(s', x, k);
      assert (ins + [Last(s)])[..|ins|] == ins;
      if Key(x) == k {
        KeyLeTies(Last(s), x);
        StrLeRefl(x.s);
      }
    }
  }

  lemma {:induction false} StableSortProps(s: seq<FnDetail>)
    ensures Sorted(StableSort(s))
    ensures multiset(StableSort(s)) == multiset(s)
  {
    if s != [] {
      var s' := s[..|s| - 1];
      StableSortProps(s');
      InsertSorted(StableSort(s'), Last(s));
      InsertMultiset(StableSort(s'), Last(s));
      assert s == s' + [Last(s)];
    }
  }

  /** Stability: records of equal key keep their relative order. */
  lemma {:induction false} StableSortWithKey(s: seq<FnDetail>, k: (string, string))
    ensures WithKey(StableSort(s), k) == WithKey(s, k)
  {
    if s != [] {
      var s' := s[..|s| - 1];
      StableSortWithKey(s', k);
      InsertWithKey(StableSort(s'), Last(s), k);
    }
  }

  /** What the band sort promises: sorted by `(krate, s)`, a permutation of
      its input, and stable. */
  lemma StableSortCorrect(s: seq<FnDetail>)
    ensures Sorted(StableSort(s))
    ensures multiset(StableSort(s)) == multiset(s)
    ensures forall k :: WithKey(StableSort(s), k) == WithKey(s, k)
  {
    StableSortProps(s);
    forall k
      ensures WithKey(StableSort(s), k) == WithKey(s, k)
    {
      StableSortWithKey(s, k);
    }
  }

  /** A record with key `k` kept by `WithKey` is a record of `s`. */
  lemma {:induction false} WithKeyMember(s: seq<FnDetail>, k: (string, string), x: FnDetail)
    requires x in WithKey(s, k)
    ensures x in s && Key(x) == k
  {
    var s' := s[..|s| - 1];
    if x in WithKey(s', k) {
      WithKeyMember(s', k, x);
    }
  }

  /** When every key group of `u` is that of a sorted `t`, `t` is not empty
      and its last record sorts no earlier than the last record of `u`. */
  lemma LastKeyBound(t: seq<FnDetail>, u: seq<FnDetail>)
    requires Sorted(t) && u != []
    requires forall k :: WithKey(t, k) == WithKey(u, k)
    ensures t != [] && KeyLe(Last(u), Last(t))
  {
    var x := Last(u);
    assert x in WithKey(u, Key(x));
    WithKeyMember(t, Key(x), x);
    var i :| 0 <= i < |t| && t[i] == x;
    if i == |t| - 1 {
      KeyLeTotal(x, x);
    }
  }

  /** Two sorted sequences with the same key groups, in the same order, are
      equal: a stable sort's output is fixed by its input. */
  lemma {:induction false} SortedStableUnique(t: seq<FnDetail>, u: seq<FnDetail>)
    requires Sorted(t) && Sorted(u)
    requires forall k :: WithKey(t, k) == WithKey(u, k)
    ensures t == u
    decreases |t|
  {
    if t == [] && u == [] {
    } else if u == [] {
      LastKeyBound(u, t);
    } else {
      LastKeyBound(t, u);
      LastKeyBound(u, t);
      KeyLeTies(Last(t), Last(u));
      var t', u' := t[..|t| - 1], u[..|u| - 1];
      var kl := Key(Last(t));
      assert WithKey(t, kl) == WithKey(t', kl) + [Last(t)];
      assert WithKey(u, kl) == WithKey(u', kl) + [Last(u)];
      assert Last(t) == Last(u) by {
        assert Last(WithKey(t, kl)) == Last(t);
      }
      forall k
        ensures WithKey(t', k) == WithKey(u', k)
      {
        assert WithKey(t, k) == WithKey(u, k);
        if k == kl {
          assert WithKey(t', k) == WithKey(t, k)[..|WithKey(t, k)| - 1];
          assert WithKey(u', k) == WithKey(u, k)[..|WithKey(u, k)| - 1];
        } else {
          assert WithKey(t, k) == WithKey(t', k) + [];
          assert WithKey(u, k) == WithKey(u', k) + [];
          assert WithKey(t', k) + [] == WithKey(t', k);
          assert WithKey(u', k) + [] == WithKey(u', k);
        }
      }
      SortedStableUnique(t', u');
      assert t == t' + [Last(t)] && u == u' + [Last(u)];
    }
  }

  /** Any sorted, stable rearrangement of `s` is `StableSort(s)`, so the
      result of `sort_by` with this comparator is exactly `StableSort`. */
  lemma SortByUnique(s: seq<FnDetail>, t: seq<FnDetail>)
    requires Sorted(t)
    requires forall k :: WithKey(t, k) == WithKey(s, k)
    ensures t == StableSort(s)
  {
    StableSortCorrect(s);
    SortedStableUnique(t, StableSort(s));
  }

  /** Where `Insert` puts `x`: after position `m` when the elements from `m`
      on all have a larger key and the one before `m` does not. */
  lemma {:induction false} InsertSplit(s: seq<FnDetail>, x: FnDetail, m: nat)
    requires m <= |s|
    requires m == 0 || KeyLe(s[m - 1], x)
    requires forall t :: m <= t < |s| ==> !KeyLe(s[t], x)
    ensures Insert(s, x) == s[..m] + [x] + s[m..]
    decreases |s|
  {
    if m < |s| {
      var s' := s[..|s| - 1];
      InsertSplit(s', x, m);
      assert s'[..m] == s[..m];
      assert s'[m..] + [Last(s)] == s[m..];
    } else if s != [] {
      assert s[..m] == s;
    }
  }

  /** One insertion pass on values: `o` before the pass, `mid` after the
      larger elements of the run `o[lo..i]` moved one place right leaving a
      gap at `j`, and `b` once `o[i]` fills the gap. */
  lemma Placed(o: seq<FnDetail>, mid: seq<FnDetail>, b: seq<FnDetail>, lo: nat, j: nat, i: nat)
    requires lo <= j <= i < |o| && |mid| == |o| && b == mid[j := o[i]]
    requires forall t :: lo <= t < j ==> mid[t] == o[t]
    requires forall t :: j < t <= i ==> mid[t] == o[t - 1]
    requires forall t :: j <= t < i ==> !KeyLe(o[t], o[i])
    requires j == lo || KeyLe(o[j - 1], o[i])
    requires forall t :: 0 <= t < |o| && (t < lo || i < t) ==> mid[t] == o[t]
    ensures b[lo..i + 1] == Insert(o[lo..i], o[i])
    ensures forall t :: 0 <= t < |o| && (t < lo || i < t) ==> b[t] == o[t]
  {
    var sorted := o[lo..i];
    var x := o[i];
    InsertSplit(sorted, x, j - lo);
    var inserted := sorted[..j - lo] + [x] + sorted[j - lo..];
    forall t | lo <= t <= i
      ensures b[t] == inserted[t - lo]
    {
      if t < j {
        assert inserted[t - lo] == sorted[..j - lo][t - lo];
      } else if t > j {
        assert inserted[t - lo] == sorted[j - lo..][t - lo - (j - lo) - 1];
      }
    }
  }

  /** The shifting loop of one insertion pass: the elements of `a[lo..i]`
      whose key is larger than that of `a[i]`, a suffix of the run, move one
      place right, leaving a gap at `j`. */
  method ShiftLarger(a: array<FnDetail>, lo: nat, i: nat) returns (j: nat)
    requires lo <= i < a.Length
    modifies a
    ensures lo <= j <= i
    ensures forall t :: lo <= t < j ==> a[t] == old(a[t])
    ensures forall t :: j < t <= i ==> a[t] == old(a[t - 1])
    ensures forall t :: j <= t < i ==> !KeyLe(old(a[t]), old(a[i]))
    ensures j == lo || KeyLe(old(a[j - 1]), old(a[i]))
    ensures forall t :: 0 <= t < a.Length && (t < lo || i < t) ==> a[t] == old(a[t])
  {
    var x := a[i];
    j := i;
    while j > lo && !KeyLe(a[j - 1], x)
      invariant lo <= j <= i
      invariant forall t :: lo <= t < j ==> a[t] == old(a[t])
      invariant forall t :: j < t <= i ==> a[t] == old(a[t - 1])
      invariant forall t :: j <= t < i ==> !KeyLe(old(a[t]), x)
      invariant forall t :: 0 <= t < a.Length && (t < lo || i < t) ==> a[t] == old(a[t])
    {
      a[j] := a[j - 1];
      j := j - 1;
    }
  }

  /** One pass of the insertion sort: `a[i]` is moved left into the run
      `a[lo..i]`, past the elements whose key is larger. */
  method InsertAt(a: array<FnDetail>, lo: nat, i: nat)
    requires lo <= i < a.Length
    modifies a
    ensures a[lo..i + 1] == Insert(old(a[lo..i]), old(a[i]))
    ensures forall t :: 0 <= t < a.Length && (t < lo || i < t) ==> a[t] == old(a[t])
  {
    ghost var o := a[..];
    var x := a[i];
    var j := ShiftLarger(a, lo, i);
    ghost var mid := a[..];
    a[j] := x;
    Placed(o, mid, a[..], lo, j, i);
  }

  /** `ret[lo..hi].sort_by(..)`: an in-place stable insertion sort of one
      band; everything outside the band is left alone. */
  method SortRange(a: array<FnDetail>, lo: nat, hi: nat)
    requires lo <= hi <= a.Length
    modifies a
    ensures a[lo..hi] == StableSort(old(a[lo..hi]))
    ensures forall t :: 0 <= t < a.Length && (t < lo || hi <= t) ==> a[t] == old(a[t])
  {
    ghost var o := a[..];
    for i := lo to hi
      invariant a[lo..i] == StableSort(o[lo..i])
      invariant forall t :: 0 <= t < a.Length && (t < lo || i <= t) ==> a[t] == o[t]
    {
      SortStep(o, lo, i);
      InsertAt(a, lo, i);
    }
  }

  /** Sorting a run one element longer inserts that element into the sorted
      run. */
  lemma SortStep(o: seq<FnDetail>, lo: nat, i: nat)
    requires lo <= i < |o|
    ensures StableSort(o[lo..i + 1]) == Insert(StableSort(o[lo..i]), o[i])
  {
    var run := o[lo..i + 1];
    assert run[..|run| - 1] == o[lo..i];
    assert Last(run) == o[i];
  }
}
