/** The sort step of the result list: `result.sort(comparator)` on the
    filtered doctors, ascending by fee or descending by experience.
    Array.prototype.sort is stable (ECMA-262, 10th edition onwards); the
    model sorts in place by insertion, and SortedStableUnique shows that
    every stable sort by the same comparator yields the same sequence. */
module Sorting {
  import opened Types
  import opened Seqs

  /** The number the comparator orders by, ascending: the fee, or the
      experience negated (most experienced first). */
  function Rank(d: Doctor, key: SortKey): int
  {
    match key
    case Fees => d.fee
    case Experience => -d.experience
  }

  /** The comparator handed to `sort`: positive exactly when `b` must come before `a`. */
  function Compare(a: Doctor, b: Doctor, key: SortKey): (r: int)
    ensures r > 0 <==> Rank(b, key) < Rank(a, key)
    ensures r == 0 <==> Rank(a, key) == Rank(b, key)
  {
    match key
    case Fees => a.fee - b.fee
    case Experience => b.experience - a.experience
  }

  ghost predicate Sorted(s: seq<Doctor>, key: SortKey)
  {
    forall i, j :: 0 <= i < j < |s| ==> Rank(s[i], key) <= Rank(s[j], key)
  }

  /** The doctors the comparator cannot tell apart from those of rank `k`. */
  function SameRank(key: SortKey, k: int): Doctor -> bool
  {
    (d: Doctor) => Rank(d, key) == k
  }

  /** `t` lists the doctors of every rank in the order `s` lists them. */
  ghost predicate StableWrt(t: seq<Doctor>, s: seq<Doctor>, key: SortKey)
  {
    forall k :: Filter(t, SameRank(key, k)) == Filter(s, SameRank(key, k))
  }

  /** Where an insertion pass that scans a sorted prefix from its end puts `x`:
      after every doctor it does not rank below. */
  function InsertPos(s: seq<Doctor>, x: Doctor, key: SortKey): (p: nat)
    ensures p <= |s|
    ensures forall i :: p <= i < |s| ==> Rank(x, key) < Rank(s[i], key)
    ensures p > 0 ==> Rank(s[p - 1], key) <= Rank(x, key)
    decreases |s|
  {
    if s == [] || Compare(s[|s| - 1], x, key) <= 0 then |s|
    else InsertPos(s[..|s| - 1], x, key)
  }

  function Insert(s: seq<Doctor>, x: Doctor, key: SortKey): seq<Doctor>
  {
    var p := InsertPos(s, x, key);
    s[..p] + [x] + s[p..]
  }

  /** The sequence insertion sort produces: each doctor in turn inserted into
      the sorted prefix before it. */
  function StableSort(s: seq<Doctor>, key: SortKey): seq<Doctor>
    decreases |s|
  {
    if s == [] then [] else Insert(StableSort(s[..|s| - 1], key), s[|s| - 1], key)
  }

  /** Where each element of an insertion lands. */
  lemma InsertAt(s: seq<Doctor>, x: Doctor, key: SortKey)
    ensures var p, t := InsertPos(s, x, key), Insert(s, x, key);
      |t| == |s| + 1 && t[p] == x
      && (forall m :: 0 <= m < p ==> t[m] == s[m])
      && (forall m :: p < m < |t| ==> t[m] == s[m - 1])
  {
  }

  lemma InsertSorted(s: seq<Doctor>, x: Doctor, key: SortKey)
    requires Sorted(s, key)
    ensures Sorted(Insert(s, x, key), key)
  {
    var p := InsertPos(s, x, key);
    var t := Insert(s, x, key);
    InsertAt(s, x, key);
    forall i, j | 0 <= i < j < |t| ensures Rank(t[i], key) <= Rank(t[j], key) {
      if j < p {
        assert t[i] == s[i] && t[j] == s[j];
      } else if j == p {
        assert Rank(s[i], key) <= Rank(s[p - 1], key);
      } else if i < p {
        assert t[i] == s[i] && t[j] == s[j - 1];
      } else if i > p {
        assert t[i] == s[i - 1] && t[j] == s[j - 1];
      }
    }
  }

  lemma InsertPermutes(s: seq<Doctor>, x: Doctor, key: SortKey)
    ensures multiset(Insert(s, x, key)) == multiset(s) + multiset{x}
  {
    var p := InsertPos(s, x, key);
    assert s == s[..p] + s[p..];
  }

  /** Filtering an insertion, piece by piece. */
  lemma InsertFilterParts(s: seq<Doctor>, x: Doctor, key: SortKey, f: Doctor -> bool)
    ensures var p := InsertPos(s, x, key);
      && Filter(Insert(s, x, key), f) == Filter(s[..p], f) + Filter([x], f) + Filter(s[p..], f)
      && Filter(s, f) == Filter(s[..p], f) + Filter(s[p..], f)
  {
    var p := InsertPos(s, x, key);
    assert s == s[..p] + s[p..];
    FilterConcat(s[..p] + [x], s[p..], f);
    FilterConcat(s[..p], [x], f);
    FilterConcat(s[..p], s[p..], f);
  }

  /** The doctors after the insertion point all rank above `x`. */
  lemma AfterInsertPos(s: seq<Doctor>, x: Doctor, key: SortKey)
    ensures Filter(s[InsertPos(s, x, key)..], SameRank(key, Rank(x, key))) == []
  {
    var p := InsertPos(s, x, key);
    var hi := s[p..];
    forall m | 0 <= m < |hi| ensures !SameRank(key, Rank(x, key))(hi[m]) {
      assert hi[m] == s[p + m];
    }
    FilterNonePass(hi, SameRank(key, Rank(x, key)));
  }

  /** Inserting `x` appends it to the doctors of its own rank. */
  lemma InsertStableSame(s: seq<Doctor>, x: Doctor, key: SortKey)
    ensures Filter(Insert(s, x, key), SameRank(key, Rank(x, key)))
         == Filter(s, SameRank(key, Rank(x, key))) + [x]
  {
    var p := InsertPos(s, x, key);
    var f := SameRank(key, Rank(x, key));
    InsertFilterParts(s, x, key, f);
    AfterInsertPos(s, x, key);
    var flo, fx := Filter(s[..p], f), Filter([x], f);
    assert fx == [x];
    assert flo + fx + [] == flo + fx;
    assert flo + [] == flo;
  }

  /** Inserting `x` leaves the doctors of every other rank as they were. */
  lemma InsertStableOther(s: seq<Doctor>, x: Doctor, key: SortKey, k: int)
    requires k != Rank(x, key)
    ensures Filter(Insert(s, x, key), SameRank(key, k)) == Filter(s, SameRank(key, k))
  {
    var p := InsertPos(s, x, key);
    var f := SameRank(key, k);
    InsertFilterParts(s, x, key, f);
    var flo, fhi := Filter(s[..p], f), Filter(s[p..], f);
    assert Filter([x], f) == [];
    assert flo + [] + fhi == flo + fhi;
  }

  /** Inserting `x` appends it to the doctors of its own rank and leaves the other ranks alone. */
  lemma InsertStable(s: seq<Doctor>, x: Doctor, key: SortKey, k: int)
    ensures Filter(Insert(s, x, key), SameRank(key, k))
         == Filter(s, SameRank(key, k)) + Filter([x], SameRank(key, k))
  {
    if k == Rank(x, key) {
      InsertStableSame(s, x, key);
    } else {
      InsertStableOther(s, x, key, k);
      assert Filter([x], SameRank(key, k)) == [];
    }
  }

  /** The insertion sort's output is sorted by the comparator. */
  lemma {:induction false} StableSortSorted(s: seq<Doctor>, key: SortKey)
    ensures Sorted(StableSort(s, key), key)
    decreases |s|
  {
    if s != [] {
      StableSortSorted(s[..|s| - 1], key);
      InsertSorted(StableSort(s[..|s| - 1], key), s[|s| - 1], key);
    }
  }

  /** The insertion sort's output is a rearrangement of its input. */
  lemma {:induction false} StableSortPermutes(s: seq<Doctor>, key: SortKey)
    ensures multiset(StableSort(s, key)) == multiset(s)
    decreases |s|
  {
    if s != [] {
      StableSortPermutes(s[..|s| - 1], key);
      InsertPermutes(StableSort(s[..|s| - 1], key), s[|s| - 1], key);
      assert s == s[..|s| - 1] + [s[|s| - 1]];
    }
  }

  /** The insertion sort keeps doctors of equal rank in their input order. */
  lemma {:induction false} StableSortStable(s: seq<Doctor>, key: SortKey)
    ensures StableWrt(StableSort(s, key), s, key)
    decreases |s|
  {
    if s != [] {
      var init, last := s[..|s| - 1], s[|s| - 1];
      StableSortStable(init, key);
      forall k ensures Filter(StableSort(s, key), SameRank(key, k)) == Filter(s, SameRank(key, k)) {
        InsertStable(StableSort(init, key), last, key, k);
        assert s == init + [last];
        FilterConcat(init, [last], SameRank(key, k));
      }
    }
  }

  /** The head of a sorted sequence has the least rank of its elements. */
  lemma SortedHeadLeast(x: seq<Doctor>, key: SortKey, d: Doctor)
    requires Sorted(x, key) && d in x
    ensures Rank(x[0], key) <= Rank(d, key)
  {
    var m :| 0 <= m < |x| && x[m] == d;
    if m > 0 {
      assert Rank(x[0], key) <= Rank(x[m], key);
    }
  }

  /** A doctor of `x` shows up among the doctors of its rank in any `y` ordered rank by rank like `x`. */
  lemma SharedMember(x: seq<Doctor>, y: seq<Doctor>, key: SortKey, d: Doctor)
    requires StableWrt(x, y, key) && d in x
    ensures d in y
  {
    var f := SameRank(key, Rank(d, key));
    FilterMembership(x, f, d);
    assert Filter(x, f) == Filter(y, f);
    FilterMembership(y, f, d);
  }

  /** Two sorted sequences ordered rank by rank alike start with the same doctor. */
  lemma SameHead(x: seq<Doctor>, y: seq<Doctor>, key: SortKey)
    requires Sorted(x, key) && Sorted(y, key) && StableWrt(x, y, key)
    requires x != [] && y != []
    ensures x[0] == y[0]
  {
    SharedMember(x, y, key, x[0]);
    SortedHeadLeast(y, key, x[0]);
    SharedMember(y, x, key, y[0]);
    SortedHeadLeast(x, key, y[0]);
    var f := SameRank(key, Rank(x[0], key));
    assert Filter(x, f) == [x[0]] + Filter(x[1..], f);
    assert Filter(y, f) == [y[0]] + Filter(y[1..], f);
    assert Filter(x, f) == Filter(y, f);
  }

  /** Dropping a common head keeps two sequences ordered rank by rank alike. */
  lemma SameTails(x: seq<Doctor>, y: seq<Doctor>, key: SortKey)
    requires StableWrt(x, y, key) && x != [] && y != [] && x[0] == y[0]
    ensures StableWrt(x[1..], y[1..], key)
  {
    forall k ensures Filter(x[1..], SameRank(key, k)) == Filter(y[1..], SameRank(key, k)) {
      var f := SameRank(key, k);
      var h := if f(x[0]) then [x[0]] else [];
      assert Filter(x, f) == h + Filter(x[1..], f);
      assert Filter(y, f) == h + Filter(y[1..], f);
      assert Filter(x, f) == Filter(y, f);
      assert (h + Filter(x[1..], f))[|h|..] == Filter(x[1..], f);
      assert (h + Filter(y[1..], f))[|h|..] == Filter(y[1..], f);
    }
  }

  /** Of two sorted sequences that list the doctors of every rank in the same
      order, each is the other: sorted and stable determine the outcome. */
  lemma {:induction false} SortedStableUnique(x: seq<Doctor>, y: seq<Doctor>, key: SortKey)
    requires Sorted(x, key) && Sorted(y, key)
    requires StableWrt(x, y, key)
    ensures x == y
    decreases |x|
  {
    if x != [] {
      SharedMember(x, y, key, x[0]);
    }
    if y != [] {
      SharedMember(y, x, key, y[0]);
    }
    if x != [] {
      SameHead(x, y, key);
      SameTails(x, y, key);
      SortedStableUnique(x[1..], y[1..], key);
      assert x == [x[0]] + x[1..] && y == [y[0]] + y[1..];
    }
  }

  /** The insertion point is the one place with no larger rank before it and only larger ranks after it. */
  lemma {:induction false} InsertPosIs(s: seq<Doctor>, x: Doctor, key: SortKey, j: nat)
    requires j <= |s|
    requires j == 0 || Rank(s[j - 1], key) <= Rank(x, key)
    requires forall m :: j <= m < |s| ==> Rank(x, key) < Rank(s[m], key)
    ensures InsertPos(s, x, key) == j
    decreases |s|
  {
    if j < |s| {
      var init := s[..|s| - 1];
      assert forall m :: j <= m < |init| ==> init[m] == s[m];
      InsertPosIs(init, x, key, j);
    }
  }

  /** One more insertion step of the sort. */
  lemma StableSortStep(s: seq<Doctor>, i: nat, key: SortKey)
    requires i < |s|
    ensures StableSort(s[..i + 1], key) == Insert(StableSort(s[..i], key), s[i], key)
  {
    assert s[..i + 1][..i] == s[..i];
  }

  /** The array prefix the inner pass leaves behind is the insertion of `x`. */
  lemma InsertLands(sorted: seq<Doctor>, x: Doctor, key: SortKey, j: nat, t: seq<Doctor>)
    requires j <= |sorted| && |t| == |sorted| + 1
    requires j == 0 || Rank(sorted[j - 1], key) <= Rank(x, key)
    requires forall m :: j <= m < |sorted| ==> Rank(x, key) < Rank(sorted[m], key)
    requires forall m :: 0 <= m < j ==> t[m] == sorted[m]
    requires t[j] == x
    requires forall m :: j < m < |t| ==> t[m] == sorted[m - 1]
    ensures t == Insert(sorted, x, key)
  {
    InsertPosIs(sorted, x, key, j);
    InsertAt(sorted, x, key);
  }

  /** One pass of the insertion sort: moves `a[i]` left past the doctors of
      the prefix that the comparator ranks after it. */
  method InsertIntoPrefix(a: array<Doctor>, i: nat, key: SortKey)
    requires i < a.Length
    modifies a
    ensures a[..i + 1] == Insert(old(a[..i]), old(a[i]), key)
    ensures forall m :: i < m < a.Length ==> a[m] == old(a[m])
  {
    var x := a[i];
    ghost var sorted := a[..i];
    var j := i;
    while j > 0 && Compare(a[j - 1], x, key) > 0
      invariant 0 <= j <= i
      invariant forall m :: 0 <= m < j ==> a[m] == sorted[m]
      invariant forall m :: j < m <= i ==> a[m] == sorted[m - 1]
      invariant forall m :: i < m < a.Length ==> a[m] == old(a[m])
      invariant forall m :: j <= m < i ==> Rank(x, key) < Rank(sorted[m], key)
    {
      a[j] := a[j - 1];
      j := j - 1;
    }
    a[j] := x;
    InsertLands(sorted, x, key, j, a[..i + 1]);
  }

  /** Sorts `a` in place, as `result.sort(comparator)` does: insertion sort,
      moving each doctor left past those the comparator ranks after it. */
  method SortInPlace(a: array<Doctor>, key: SortKey)
    modifies a
    ensures a[..] == StableSort(old(a[..]), key)
  {
    ghost var orig := a[..];
    var i := 0;
    while i < a.Length
      invariant 0 <= i <= a.Length
      invariant a[..i] == StableSort(orig[..i], key)
      invariant forall m :: i <= m < a.Length ==> a[m] == orig[m]
    {
      InsertIntoPrefix(a, i, key);
      StableSortStep(orig, i, key);
      i := i + 1;
    }
    assert orig[..a.Length] == orig;
  }

  /** Sorts a fresh array holding `s` in place and returns its contents. */
  method SortCopy(s: seq<Doctor>, key: SortKey) returns (t: seq<Doctor>)
    ensures t == StableSort(s, key)
  {
    var a := new Doctor[|s|](i requires 0 <= i < |s| => s[i]);
    assert a[..] == s;
    SortInPlace(a, key);
    t := a[..];
  }
}
