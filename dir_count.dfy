/** The `texture_dirs` dictionary of `Convert.convert` in `convert_pc.py`:
    a count per texture directory, whose keys, in insertion order, each
    get one `dds2png` command. */
module DirCount {

  /** The dictionary after counting the directories `ds` in turn: every
      directory mapped to how often it occurs. */
  function CountMap<T(==)>(ds: seq<T>): map<T, nat> {
    map d | d in ds :: Occurrences(ds, d)
  }

  /** The keys of the dictionary in insertion order: the directories in
      order of first appearance. */
  function Dedup<T(==)>(ds: seq<T>): seq<T> {
    if ds == [] then []
    else
      var init := Dedup(ds[..|ds| - 1]);
      if ds[|ds| - 1] in init then init else init + [ds[|ds| - 1]]
  }

  /** The number of times `d` occurs in `ds`, counted one by one. */
  function Occurrences<T(==)>(ds: seq<T>, d: T): nat {
    if ds == [] then 0
    else Occurrences(ds[..|ds| - 1], d) + (if ds[|ds| - 1] == d then 1 else 0)
  }

  /** Dedup keeps exactly the elements of `ds`, each once. */
  lemma {:induction false} DedupDistinct<T>(ds: seq<T>)
    ensures forall x :: x in Dedup(ds) <==> x in ds
    ensures forall a, b :: 0 <= a < b < |Dedup(ds)| ==> Dedup(ds)[a] != Dedup(ds)[b]
  {
    if ds != [] {
      var init := ds[..|ds| - 1];
      DedupDistinct(init);
      assert ds == init + [ds[|ds| - 1]];
    }
  }

  /** Occurrences in a longer sequence: the last element counts once more. */
  lemma {:induction false} OccurrencesAppend<T>(ds: seq<T>, d: T, x: T)
    ensures Occurrences(ds + [d], x) == Occurrences(ds, x) + (if d == x then 1 else 0)
  {
    assert (ds + [d])[..|ds|] == ds;
  }

  /** Lines 175-178 on one directory: the count is created at 0 when
      missing, then incremented. */
  lemma {:induction false} CountStep<T>(ds: seq<T>, d: T)
    ensures CountMap(ds + [d]) == CountMap(ds)[d := (if d in CountMap(ds) then CountMap(ds)[d] else 0) + 1]
  {
    var m, m' := CountMap(ds), CountMap(ds + [d]);
    var n := m[d := (if d in m then m[d] else 0) + 1];
    forall x
      ensures x in m' <==> x in n
      ensures x in m' ==> m'[x] == n[x]
    {
      assert x in ds + [d] <==> x in ds || x == d;
      OccurrencesAppend(ds, d, x);
      OccurrencesPositive(ds, x);
    }
    assert m' == n;
  }

  /** An element occurs at least once iff it is in `ds`. */
  lemma {:induction false} OccurrencesPositive<T>(ds: seq<T>, x: T)
    ensures Occurrences(ds, x) > 0 <==> x in ds
  {
    if ds != [] {
      var init := ds[..|ds| - 1];
      assert ds == init + [ds[|ds| - 1]];
      OccurrencesPositive(init, x);
    }
  }

  /** The dictionary holds exactly the directories of `ds`, each with
      its multiplicity in `ds`. */
  lemma {:induction false} CountsAreMultiplicities<T>(ds: seq<T>, d: T)
    ensures d in CountMap(ds) <==> multiset(ds)[d] > 0
    ensures d in CountMap(ds) ==> CountMap(ds)[d] == multiset(ds)[d]
  {
    if ds != [] {
      var init := ds[..|ds| - 1];
      var last := ds[|ds| - 1];
      CountsAreMultiplicities(init, d);
      assert ds == init + [last];
      assert multiset(ds) == multiset(init) + multiset{last};
      OccurrencesAppend(init, last, d);
      OccurrencesPositive(init, d);
    }
  }

  /** Appending a directory adds it to the keys iff it is new. */
  lemma {:induction false} DedupStep<T>(ds: seq<T>, d: T)
    ensures Dedup(ds + [d]) == if d in ds then Dedup(ds) else Dedup(ds) + [d]
  {
    DedupDistinct(ds);
    assert (ds + [d])[..|ds|] == ds;
  }

  /** Lines 175-178: `counts` is the dictionary and `order` its keys in
      insertion order, after the directories `ds`; one more directory
      `d` is counted. A missing key starts at 0. */
  method Record<T(==)>(counts: map<T, nat>, order: seq<T>, d: T, ghost ds: seq<T>)
    returns (counts': map<T, nat>, order': seq<T>)
    requires counts == CountMap(ds) && order == Dedup(ds)
    ensures counts' == CountMap(ds + [d]) && order' == Dedup(ds + [d])
  {
    CountStep(ds, d);
    DedupStep(ds, d);
    var cnt := 0;
    order' := order;
    if d in counts {
      cnt := counts[d];
    } else {
      order' := order + [d];
    }
    counts' := counts[d := cnt + 1];
  }
}
