/**
 * The four repository comparators (`sortByBestMatch`, `sortByDataQuality`,
 * `sortByName`, `sortByDate`), the dispatch on the sort key that picks one,
 * and `Array.prototype.sort`, which sorts the repository array in place and
 * is stable.
 *
 * The comparator bodies are not part of this model; they are stood in for by
 * comparators on the record's integer fields (descending) and on the
 * lower-cased name (ascending), each a total preorder.  An unknown sort key
 * makes the source's comparator return `undefined`, which the sort reads as
 * 0 ("equal"); with a stable sort that keeps the input order.
 */
module RepoSorting {
  import opened Text
  import opened Repository
  import opened Sequences

  /** Three-way lexicographic comparison by code point: -1, 0 or 1. */
  function LexCompare(a: string, b: string): (c: int)
    ensures -1 <= c <= 1
    ensures c == 0 <==> a == b
    decreases |a|
  {
    if |a| == 0 && |b| == 0 then 0
    else if |a| == 0 then -1
    else if |b| == 0 then 1
    else if a[0] < b[0] then -1
    else if b[0] < a[0] then 1
    else
      var c := LexCompare(a[1..], b[1..]);
      assert a == [a[0]] + a[1..] && b == [b[0]] + b[1..];
      c
  }

  lemma {:induction false} LexCompareAntisymmetric(a: string, b: string)
    ensures LexCompare(a, b) == -LexCompare(b, a)
    decreases |a|
  {
    if |a| > 0 && |b| > 0 && a[0] == b[0] {
      LexCompareAntisymmetric(a[1..], b[1..]);
    }
  }

  lemma {:induction false} LexCompareTransitive(a: string, b: string, c: string)
    requires LexCompare(a, b) <= 0 && LexCompare(b, c) <= 0
    ensures LexCompare(a, c) <= 0
    decreases |a|
  {
    if |a| > 0 && |b| > 0 && |c| > 0 && a[0] == b[0] && b[0] == c[0] {
      LexCompareTransitive(a[1..], b[1..], c[1..]);
    }
  }

  /** `sortByBestMatch`: higher search score first. */
  function SortByBestMatch(a: Repo, b: Repo): int {
    b.searchScore - a.searchScore
  }

  /** `sortByDataQuality`: higher data-quality score first. */
  function SortByDataQuality(a: Repo, b: Repo): int {
    b.score - a.score
  }

  /** `sortByName`: case-insensitive, ascending. */
  function SortByName(a: Repo, b: Repo): int {
    LexCompare(LowerAll(a.name), LowerAll(b.name))
  }

  /** `sortByDate`: most recently modified first. */
  function SortByDate(a: Repo, b: Repo): int {
    b.lastModified - a.lastModified
  }

  /** The four cases of the comparator's `if` chain on `selectedSorting`, and the fall-through. */
  datatype SortKey = BestMatch | DataQuality | AToZ | LastUpdated | NoSortKey

  predicate KnownSortKey(sort: string) {
    sort == "best_match" || sort == "data_quality" || sort == "a-z" || sort == "last_updated"
  }

  /** Which branch of the comparator a sort value selects. */
  function SortKeyOf(sort: string): (key: SortKey)
    ensures key == NoSortKey <==> !KnownSortKey(sort)
    ensures sort == "best_match" <==> key == BestMatch
    ensures sort == "data_quality" <==> key == DataQuality
    ensures sort == "a-z" <==> key == AToZ
    ensures sort == "last_updated" <==> key == LastUpdated
  {
    if sort == "best_match" then BestMatch
    else if sort == "data_quality" then DataQuality
    else if sort == "a-z" then AToZ
    else if sort == "last_updated" then LastUpdated
    else NoSortKey
  }

  /** The comparator passed to `repos.sort`; an unknown key yields `undefined`, read as 0. */
  function Comparator(key: SortKey, a: Repo, b: Repo): int {
    match key
    case BestMatch => SortByBestMatch(a, b)
    case DataQuality => SortByDataQuality(a, b)
    case AToZ => SortByName(a, b)
    case LastUpdated => SortByDate(a, b)
    case NoSortKey => 0
  }

  /** `a` may stay in front of `b`: the comparator does not ask to move `b` first. */
  predicate Before(key: SortKey, a: Repo, b: Repo) {
    Comparator(key, a, b) <= 0
  }

  /** Every comparator is total: of two repositories, one may come first. */
  lemma BeforeTotal(key: SortKey, a: Repo, b: Repo)
    ensures Before(key, a, b) || Before(key, b, a)
  {
    if key == AToZ {
      LexCompareAntisymmetric(LowerAll(a.name), LowerAll(b.name));
    }
  }

  /** Every comparator is transitive. */
  lemma BeforeTransitive(key: SortKey, a: Repo, b: Repo, c: Repo)
    requires Before(key, a, b) && Before(key, b, c)
    ensures Before(key, a, c)
  {
    if key == AToZ {
      LexCompareTransitive(LowerAll(a.name), LowerAll(b.name), LowerAll(c.name));
    }
  }

  /** Under an unknown key every pair compares equal. */
  lemma UnknownKeyComparesEqual(key: SortKey, a: Repo, b: Repo)
    requires key == NoSortKey
    ensures Before(key, a, b) && Before(key, b, a)
  {
  }

  // ---------------------------------------------------------------------------
  // `Array.prototype.sort`, for any comparator that is a total preorder

  /** `before(a, b)`: the comparator lets `a` stay in front of `b`. */
  ghost predicate TotalPreorder<T(!new)>(before: (T, T) -> bool) {
    (forall a, b :: before(a, b) || before(b, a)) &&
    (forall a, b, c :: before(a, b) && before(b, c) ==> before(a, c))
  }

  ghost predicate SortedBy<T>(before: (T, T) -> bool, s: seq<T>) {
    forall i, j :: 0 <= i < j < |s| ==> before(s[i], s[j])
  }

  /**
   * Inserts `x` behind every element of `p`, moving it forward past the
   * trailing elements that must come after it.
   */
  function Insert<T>(before: (T, T) -> bool, p: seq<T>, x: T): (r: seq<T>)
    ensures |r| == |p| + 1
    decreases |p|
  {
    if |p| == 0 then [x]
    else if before(p[|p| - 1], x) then p + [x]
    else Insert(before, p[..|p| - 1], x) + [p[|p| - 1]]
  }

  /** The stable sort the in-place method computes: insertion sort, left to right. */
  function SortBy<T>(before: (T, T) -> bool, s: seq<T>): (r: seq<T>)
    ensures |r| == |s|
    decreases |s|
  {
    if |s| == 0 then []
    else Insert(before, SortBy(before, s[..|s| - 1]), s[|s| - 1])
  }

  /** Putting `x` among the front of `p` and the last element behind adds just `x`. */
  lemma PermutesShift<T>(p: seq<T>, x: T, q: seq<T>, u: seq<T>)
    requires |p| > 0 && u == q + [p[|p| - 1]]
    requires multiset(q) == multiset(p[..|p| - 1]) + multiset{x}
    ensures multiset(u) == multiset(p) + multiset{x}
  {
    assert p == p[..|p| - 1] + [p[|p| - 1]];
  }

  /** Insertion neither adds nor drops anything but `x`. */
  lemma {:induction false} InsertPermutes<T>(before: (T, T) -> bool, p: seq<T>, x: T)
    ensures multiset(Insert(before, p, x)) == multiset(p) + multiset{x}
    decreases |p|
  {
    if |p| > 0 && !before(p[|p| - 1], x) {
      var q := Insert(before, p[..|p| - 1], x);
      InsertPermutes(before, p[..|p| - 1], x);
      PermutesShift(p, x, q, q + [p[|p| - 1]]);
    }
  }

  /** Appending an element that may follow everything keeps a sequence sorted. */
  lemma AppendSorted<T>(before: (T, T) -> bool, p: seq<T>, y: T)
    requires SortedBy(before, p)
    requires forall k :: 0 <= k < |p| ==> before(p[k], y)
    ensures SortedBy(before, p + [y])
  {
    var r := p + [y];
    forall i, j | 0 <= i < j < |r|
      ensures before(r[i], r[j])
    {
      assert r[i] == p[i];
      if j < |p| {
        assert r[j] == p[j];
      }
    }
  }

  lemma {:induction false} InsertSorted<T(!new)>(before: (T, T) -> bool, p: seq<T>, x: T)
    requires TotalPreorder(before) && SortedBy(before, p)
    ensures SortedBy(before, Insert(before, p, x))
    decreases |p|
  {
    if |p| > 0 {
      var last, init := p[|p| - 1], p[..|p| - 1];
      if before(last, x) {
        forall k | 0 <= k < |p|
          ensures before(p[k], x)
        {
          if k < |p| - 1 {
            assert before(p[k], last);
          }
        }
        AppendSorted(before, p, x);
      } else {
        assert SortedBy(before, init);
        InsertSorted(before, init, x);
        InsertPermutes(before, init, x);
        var q := Insert(before, init, x);
        assert before(x, last);
        forall k | 0 <= k < |q|
          ensures before(q[k], last)
        {
          assert q[k] in multiset(q);
          if q[k] != x {
            assert q[k] in multiset(init);
            var m :| 0 <= m < |init| && init[m] == q[k];
            assert p[m] == q[k];
          }
        }
        AppendSorted(before, q, last);
      }
    }
  }

  /** Rearranging the front of a sequence and appending its last element rearranges it. */
  lemma PermutesSnoc<T>(s: seq<T>, t: seq<T>, u: seq<T>)
    requires |s| > 0
    requires multiset(t) == multiset(s[..|s| - 1])
    requires multiset(u) == multiset(t) + multiset{s[|s| - 1]}
    ensures multiset(u) == multiset(s)
  {
    assert s == s[..|s| - 1] + [s[|s| - 1]];
  }

  /** The sort rearranges its input: the same elements, as often as before. */
  lemma {:induction false} SortByPermutes<T>(before: (T, T) -> bool, s: seq<T>)
    ensures multiset(SortBy(before, s)) == multiset(s)
    decreases |s|
  {
    if |s| > 0 {
      var init, last := s[..|s| - 1], s[|s| - 1];
      var t := SortBy(before, init);
      SortByPermutes(before, init);
      InsertPermutes(before, t, last);
      PermutesSnoc(s, t, Insert(before, t, last));
    }
  }

  /** The sorted sequence is ordered by the comparator. */
  lemma {:induction false} SortBySorted<T(!new)>(before: (T, T) -> bool, s: seq<T>)
    requires TotalPreorder(before)
    ensures SortedBy(before, SortBy(before, s))
    decreases |s|
  {
    if |s| > 0 {
      SortBySorted(before, s[..|s| - 1]);
      InsertSorted(before, SortBy(before, s[..|s| - 1]), s[|s| - 1]);
    }
  }

  /** A sequence already in order is left as it is: the sort is stable. */
  lemma {:induction false} SortByOfSorted<T>(before: (T, T) -> bool, s: seq<T>)
    requires SortedBy(before, s)
    ensures SortBy(before, s) == s
    decreases |s|
  {
    if |s| > 0 {
      var init := s[..|s| - 1];
      assert SortedBy(before, init);
      SortByOfSorted(before, init);
      if |init| > 0 {
        assert before(init[|init| - 1], s[|s| - 1]);
      }
      assert init + [s[|s| - 1]] == s;
    }
  }

  /** The elements the comparator ranks level with `e`: neither must come before the other. */
  function LevelWith<T>(before: (T, T) -> bool, e: T): T -> bool {
    y => before(e, y) && before(y, e)
  }

  /** Insertion puts `x` behind every element of `p` that is level with it. */
  lemma {:induction false} InsertKeepsLevelOrder<T(!new)>(before: (T, T) -> bool, p: seq<T>, x: T, e: T)
    requires TotalPreorder(before)
    ensures Filter(LevelWith(before, e), Insert(before, p, x)) ==
      Filter(LevelWith(before, e), p) + Filter(LevelWith(before, e), [x])
    decreases |p|
  {
    var level := LevelWith(before, e);
    if |p| > 0 {
      var init, last := p[..|p| - 1], p[|p| - 1];
      assert p == init + [last];
      if before(last, x) {
        FilterAppend(level, p, [x]);
      } else {
        InsertKeepsLevelOrder(before, init, x, e);
        FilterAppend(level, Insert(before, init, x), [last]);
        FilterAppend(level, init, [last]);
        assert !(level(x) && level(last));
      }
    }
  }

  /**
   * The sort is stable: the elements level with any `e` come out in the
   * order they went in.
   */
  lemma {:induction false} SortByKeepsLevelOrder<T(!new)>(before: (T, T) -> bool, s: seq<T>, e: T)
    requires TotalPreorder(before)
    ensures Filter(LevelWith(before, e), SortBy(before, s)) == Filter(LevelWith(before, e), s)
    decreases |s|
  {
    if |s| > 0 {
      var init, last := s[..|s| - 1], s[|s| - 1];
      SortByKeepsLevelOrder(before, init, e);
      InsertKeepsLevelOrder(before, SortBy(before, init), last, e);
      assert s == init + [last];
      FilterAppend(LevelWith(before, e), init, [last]);
    }
  }

  /** One shifting step of insertion: `x` moves in front of `p[j - 1]`. */
  lemma InsertStep<T>(before: (T, T) -> bool, p: seq<T>, x: T, j: nat)
    requires 0 < j <= |p| && !before(p[j - 1], x)
    ensures Insert(before, p[..j], x) + p[j..] == Insert(before, p[..j - 1], x) + p[j - 1..]
  {
    assert p[..j][..j - 1] == p[..j - 1];
    assert p[j - 1..] == [p[j - 1]] + p[j..];
  }

  /** Insertion stops in front of `p[j - 1]` when that element may stay before `x`. */
  lemma InsertStop<T>(before: (T, T) -> bool, p: seq<T>, x: T, j: nat)
    requires j <= |p| && (j == 0 || before(p[j - 1], x))
    ensures Insert(before, p[..j], x) == p[..j] + [x]
  {
    if j > 0 {
      assert p[..j][j - 1] == p[j - 1];
    }
  }

  /**
   * The array while `o[i]` is being inserted: `o[j..i]` has moved one place
   * right, so `o[j]` (or `o[i]` itself, before the first shift) sits at both
   * `j` and `j + 1`.
   */
  function Shifted<T>(o: seq<T>, i: nat, j: nat): (s: seq<T>)
    requires j <= i < |o|
    ensures |s| == |o|
  {
    o[..j] + [o[j]] + o[j..i] + o[i + 1..]
  }

  /** Before any shift the array is unchanged. */
  lemma ShiftedStart<T>(o: seq<T>, i: nat)
    requires i < |o|
    ensures Shifted(o, i, i) == o
  {
    assert o == o[..i] + [o[i]] + o[i + 1..];
  }

  /** One shift copies `o[j - 1]` into slot `j`. */
  lemma ShiftedStep<T>(o: seq<T>, i: nat, j: nat)
    requires 0 < j <= i < |o|
    ensures Shifted(o, i, j)[j := o[j - 1]] == Shifted(o, i, j - 1)
  {
    var s, t := Shifted(o, i, j)[j := o[j - 1]], Shifted(o, i, j - 1);
    forall k | 0 <= k < |o|
      ensures s[k] == t[k]
    {
      if k < j - 1 {
        assert s[k] == o[k] && t[k] == o[k];
      } else if k <= j {
        assert s[k] == o[j - 1] && t[k] == o[j - 1];
      } else if k <= i {
        assert s[k] == o[k - 1] && t[k] == o[k - 1];
      } else {
        assert s[k] == o[k] && t[k] == o[k];
      }
    }
  }

  /** Writing `x` into the gap leaves `x` inserted at `j` into the prefix, the rest unchanged. */
  lemma ShiftedDone<T>(o: seq<T>, i: nat, j: nat, x: T)
    requires j <= i < |o|
    ensures Shifted(o, i, j)[j := x][..i + 1] == o[..i][..j] + [x] + o[..i][j..]
    ensures Shifted(o, i, j)[j := x][i + 1..] == o[i + 1..]
  {
    var s, p := Shifted(o, i, j)[j := x], o[..i];
    var t := p[..j] + [x] + p[j..];
    forall k | 0 <= k <= i
      ensures s[k] == t[k]
    {
      if k < j {
        assert s[k] == o[k] && t[k] == p[k];
      } else if k > j {
        assert s[k] == o[k - 1] && t[k] == p[k - 1];
      }
    }
    assert s[i + 1..] == o[i + 1..];
  }

  /** Inserts `a[i]` into the sorted prefix `a[..i]`, shifting later elements right. */
  method InsertInPlace<T>(before: (T, T) -> bool, a: array<T>, i: nat)
    requires i < a.Length
    modifies a
    ensures a[..i + 1] == Insert(before, old(a[..i]), old(a[i]))
    ensures a[i + 1..] == old(a[i + 1..])
  {
    ghost var o := a[..];
    ghost var p := o[..i];
    var x := a[i];
    var j := i;
    ShiftedStart(o, i);
    assert p[..j] == p && p[j..] == [];
    while j > 0 && !before(a[j - 1], x)
      invariant 0 <= j <= i
      invariant a[..] == Shifted(o, i, j)
      invariant Insert(before, p, x) == Insert(before, p[..j], x) + p[j..]
    {
      assert a[j - 1] == o[j - 1] == p[j - 1];
      InsertStep(before, p, x, j);
      ShiftedStep(o, i, j);
      a[j] := a[j - 1];
      j := j - 1;
    }
    if j > 0 {
      assert a[j - 1] == p[j - 1];
    }
    InsertStop(before, p, x, j);
    ShiftedDone(o, i, j, x);
    a[j] := x;
  }

  /** Sorting one more element inserts it into the sorted prefix. */
  lemma SortBySnoc<T>(before: (T, T) -> bool, o: seq<T>, i: nat)
    requires i < |o|
    ensures SortBy(before, o[..i + 1]) == Insert(before, SortBy(before, o[..i]), o[i])
  {
    assert o[..i + 1][..i] == o[..i];
  }

  /** `a.sort(comparator)`: insertion sort in place, left to right. */
  method SortInPlace<T>(before: (T, T) -> bool, a: array<T>)
    modifies a
    ensures a[..] == SortBy(before, old(a[..]))
  {
    ghost var o := a[..];
    var i := 0;
    while i < a.Length
      invariant 0 <= i <= a.Length
      invariant a[..i] == SortBy(before, o[..i])
      invariant a[i..] == o[i..]
    {
      ghost var prev := a[..];
      assert prev[i] == o[i] && prev[i + 1..] == o[i + 1..] by {
        assert prev[i..][0] == prev[i] && prev[i..][1..] == prev[i + 1..];
      }
      InsertInPlace(before, a, i);
      SortBySnoc(before, o, i);
      i := i + 1;
    }
    assert a[..] == a[..i] && o == o[..i];
  }

  // ---------------------------------------------------------------------------
  // The repository sort

  /** The repository comparator as the sort reads it. */
  function BeforeBy(key: SortKey): (Repo, Repo) -> bool {
    (a: Repo, b: Repo) => Before(key, a, b)
  }

  /** Every repository comparator is a total preorder. */
  lemma BeforeByTotalPreorder(key: SortKey)
    ensures TotalPreorder(BeforeBy(key))
  {
    forall a, b
      ensures BeforeBy(key)(a, b) || BeforeBy(key)(b, a)
    {
      BeforeTotal(key, a, b);
    }
    forall a, b, c | BeforeBy(key)(a, b) && BeforeBy(key)(b, c)
      ensures BeforeBy(key)(a, c)
    {
      BeforeTransitive(key, a, b, c);
    }
  }

  /** In the order the key's comparator asks for. */
  ghost predicate Sorted(key: SortKey, s: seq<Repo>) {
    SortedBy(BeforeBy(key), s)
  }

  /** `repos.sort(...)` on the values: the stable sort under the key's comparator. */
  function StableSort(key: SortKey, s: seq<Repo>): seq<Repo> {
    SortBy(BeforeBy(key), s)
  }

  /** The sorted repositories are in comparator order and are a rearrangement of the input. */
  lemma StableSortSorted(key: SortKey, s: seq<Repo>)
    ensures Sorted(key, StableSort(key, s))
    ensures multiset(StableSort(key, s)) == multiset(s)
  {
    BeforeByTotalPreorder(key);
    SortBySorted(BeforeBy(key), s);
    SortByPermutes(BeforeBy(key), s);
  }

  /** The sort neither adds nor drops a repository. */
  lemma StableSortMembers(key: SortKey, s: seq<Repo>, r: Repo)
    ensures |StableSort(key, s)| == |s|
    ensures r in StableSort(key, s) <==> r in s
  {
    SortByPermutes(BeforeBy(key), s);
    assert r in StableSort(key, s) <==> r in multiset(StableSort(key, s));
  }

  /** Repositories already in comparator order are left as they are: the sort is stable. */
  lemma StableSortOfSorted(key: SortKey, s: seq<Repo>)
    requires Sorted(key, s)
    ensures StableSort(key, s) == s
  {
    SortByOfSorted(BeforeBy(key), s);
  }

  /**
   * Repositories the comparator ranks level with `e` keep their relative
   * order: the sort is stable.
   */
  lemma StableSortKeepsTies(key: SortKey, s: seq<Repo>, e: Repo)
    ensures Filter(LevelWith(BeforeBy(key), e), StableSort(key, s)) == Filter(LevelWith(BeforeBy(key), e), s)
  {
    BeforeByTotalPreorder(key);
    SortByKeepsLevelOrder(BeforeBy(key), s, e);
  }

  /** An unknown sort key leaves the repositories in their input order. */
  lemma UnknownKeyKeepsOrder(sort: string, s: seq<Repo>)
    requires !KnownSortKey(sort)
    ensures StableSort(SortKeyOf(sort), s) == s
  {
    StableSortOfSorted(SortKeyOf(sort), s);
  }

  /** `repos.sort(comparator)` on the fetched array: sorted in place by the key's comparator. */
  method SortRepos(key: SortKey, a: array<Repo>)
    modifies a
    ensures a[..] == StableSort(key, old(a[..]))
  {
    SortInPlace(BeforeBy(key), a);
  }
}
