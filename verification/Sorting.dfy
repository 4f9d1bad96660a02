/** A stable sort, as JavaScript's `Array.prototype.sort`, and what its first element is. */
module Sorting {

  ghost predicate Total<T(!new)>(le: (T, T) -> bool) {
    forall a, b :: le(a, b) || le(b, a)
  }

  ghost predicate Transitive<T(!new)>(le: (T, T) -> bool) {
    forall a, b, c {:trigger le(a, b), le(b, c)} :: le(a, b) && le(b, c) ==> le(a, c)
  }

  ghost predicate TotalPreorder<T(!new)>(le: (T, T) -> bool) {
    Total(le) && Transitive(le)
  }

  function Insert<T>(le: (T, T) -> bool, x: T, s: seq<T>): seq<T> {
    if s == [] || le(x, s[0]) then [x] + s else [s[0]] + Insert(le, x, s[1..])
  }

  /** Elements that compare equal keep their order. */
  function Sort<T>(le: (T, T) -> bool, s: seq<T>): seq<T> {
    if s == [] then [] else Insert(le, s[0], Sort(le, s[1..]))
  }

  function Filter<T>(p: T -> bool, s: seq<T>): seq<T> {
    if s == [] then [] else if p(s[0]) then [s[0]] + Filter(p, s[1..]) else Filter(p, s[1..])
  }

  predicate Sorted<T>(le: (T, T) -> bool, s: seq<T>) {
    forall i, j :: 0 <= i < j < |s| ==> le(s[i], s[j])
  }

  lemma FilterCons<T>(p: T -> bool, x: T, s: seq<T>)
    ensures Filter(p, [x] + s) == if p(x) then [x] + Filter(p, s) else Filter(p, s)
  {
    assert ([x] + s)[1..] == s;
  }

  lemma InsertCons<T>(le: (T, T) -> bool, x: T, y: T, s: seq<T>)
    ensures Insert(le, x, [y] + s) == if le(x, y) then [x, y] + s else [y] + Insert(le, x, s)
  {
    assert ([y] + s)[1..] == s;
    assert [x] + ([y] + s) == [x, y] + s;
  }

  lemma {:induction false} InsertElements<T>(le: (T, T) -> bool, x: T, s: seq<T>)
    ensures |Insert(le, x, s)| == |s| + 1
    ensures multiset(Insert(le, x, s)) == multiset{x} + multiset(s)
  {
    if s != [] {
      assert s == [s[0]] + s[1..];
      InsertElements(le, x, s[1..]);
    }
  }

  lemma {:induction false} InsertBounded<T>(le: (T, T) -> bool, low: T, x: T, s: seq<T>)
    requires le(low, x) && forall i :: 0 <= i < |s| ==> le(low, s[i])
    ensures forall i :: 0 <= i < |Insert(le, x, s)| ==> le(low, Insert(le, x, s)[i])
  {
    if s != [] && !le(x, s[0]) {
      InsertBounded(le, low, x, s[1..]);
    }
  }

  lemma {:induction false} InsertIs<T(!new)>(le: (T, T) -> bool, x: T, s: seq<T>)
    requires TotalPreorder(le) && Sorted(le, s)
    ensures Sorted(le, Insert(le, x, s))
  {
    if s != [] {
      if le(x, s[0]) {
        forall i | 0 <= i < |s| ensures le(x, s[i]) {
          if i > 0 {
            assert le(s[0], s[i]);
          }
        }
      } else {
        InsertIs(le, x, s[1..]);
        InsertBounded(le, s[0], x, s[1..]);
      }
    } else {
      assert le(x, x);
    }
  }

  /** The sort is sorted and holds the same elements. */
  lemma {:induction false} SortIs<T(!new)>(le: (T, T) -> bool, s: seq<T>)
    requires TotalPreorder(le)
    ensures Sorted(le, Sort(le, s))
    ensures multiset(Sort(le, s)) == multiset(s)
    ensures |Sort(le, s)| == |s|
  {
    if s != [] {
      SortIs(le, s[1..]);
      InsertIs(le, s[0], Sort(le, s[1..]));
      InsertElements(le, s[0], Sort(le, s[1..]));
      assert s == [s[0]] + s[1..];
    }
  }

  /** An element below a sorted list is below whatever a filter keeps of it. */
  lemma {:induction false} LeadsFilter<T(!new)>(le: (T, T) -> bool, p: T -> bool, x: T, s: seq<T>)
    requires TotalPreorder(le) && Sorted(le, s) && (s == [] || le(x, s[0]))
    ensures Insert(le, x, Filter(p, s)) == [x] + Filter(p, s)
  {
    if s != [] && !p(s[0]) {
      if |s| > 1 {
        assert le(s[0], s[1]);
        assert le(x, s[1..][0]);
      }
      LeadsFilter(le, p, x, s[1..]);
    }
  }

  lemma {:induction false} FilterInsert<T(!new)>(le: (T, T) -> bool, p: T -> bool, x: T, s: seq<T>)
    requires TotalPreorder(le) && Sorted(le, s)
    ensures Filter(p, Insert(le, x, s)) == if p(x) then Insert(le, x, Filter(p, s)) else Filter(p, s)
  {
    if s == [] || le(x, s[0]) {
      FilterCons(p, x, s);
      LeadsFilter(le, p, x, s);
    } else {
      var rest := Insert(le, x, s[1..]);
      FilterInsert(le, p, x, s[1..]);
      FilterCons(p, s[0], rest);
      InsertCons(le, x, s[0], Filter(p, s[1..]));
    }
  }

  /** Filtering the sorted list is sorting the filtered one. */
  lemma {:induction false} FilterSort<T(!new)>(le: (T, T) -> bool, p: T -> bool, s: seq<T>)
    requires TotalPreorder(le)
    ensures Filter(p, Sort(le, s)) == Sort(le, Filter(p, s))
  {
    if s != [] {
      FilterSort(le, p, s[1..]);
      SortIs(le, s[1..]);
      FilterInsert(le, p, s[0], Sort(le, s[1..]));
      if p(s[0]) {
        assert Filter(p, s)[1..] == Filter(p, s[1..]);
      }
    }
  }

  /** A filter keeps nothing exactly when it accepts nothing. */
  lemma {:induction false} FilterEmpty<T>(p: T -> bool, s: seq<T>)
    ensures Filter(p, s) == [] <==> forall k :: 0 <= k < |s| ==> !p(s[k])
  {
    if s != [] {
      FilterEmpty(p, s[1..]);
      assert forall k :: 0 < k < |s| ==> s[k] == s[1..][k - 1];
      assert forall k :: 0 <= k < |s[1..]| ==> s[1..][k] == s[k + 1];
    }
  }

  /** Position `i` is the least among the elements the test accepts, and the first of its equals. */
  ghost predicate BestAccepted<T>(le: (T, T) -> bool, p: T -> bool, s: seq<T>, i: nat) {
    && i < |s| && p(s[i])
    && (forall k :: 0 <= k < |s| && p(s[k]) ==> le(s[i], s[k]))
    && (forall k :: 0 <= k < i && p(s[k]) ==> !le(s[k], s[i]))
  }

  lemma BestOfTail<T>(le: (T, T) -> bool, p: T -> bool, s: seq<T>, j: nat)
    requires s != [] && BestAccepted(le, p, s[1..], j)
    requires p(s[0]) ==> le(s[j + 1], s[0]) && !le(s[0], s[j + 1])
    ensures BestAccepted(le, p, s, j + 1)
  {
    assert forall k :: 0 < k < |s| ==> s[k] == s[1..][k - 1];
  }

  lemma BestIsHead<T(!new)>(le: (T, T) -> bool, p: T -> bool, s: seq<T>, j: nat)
    requires s != [] && BestAccepted(le, p, s[1..], j) && TotalPreorder(le)
    requires p(s[0]) && le(s[0], s[j + 1])
    ensures BestAccepted(le, p, s, 0)
  {
    assert forall k :: 0 < k < |s| ==> s[k] == s[1..][k - 1];
    assert le(s[0], s[0]);
    forall k | 0 < k < |s| && p(s[k]) ensures le(s[0], s[k]) {
      assert le(s[j + 1], s[1..][k - 1]);
    }
  }

  /** Filtering, sorting and taking the first is choosing the best accepted element. */
  lemma {:induction false} HeadOfSortedFilter<T(!new)>(le: (T, T) -> bool, p: T -> bool, s: seq<T>) returns (i: nat)
    requires TotalPreorder(le) && Filter(p, s) != []
    ensures BestAccepted(le, p, s, i)
    ensures |Sort(le, Filter(p, s))| > 0 && Sort(le, Filter(p, s))[0] == s[i]
  {
    i := 0;
    var tail := Filter(p, s[1..]);
    if !p(s[0]) {
      var j := HeadOfSortedFilter(le, p, s[1..]);
      BestOfTail(le, p, s, j);
      i := j + 1;
    } else {
      assert Filter(p, s)[1..] == tail;
      if tail == [] {
        FilterEmpty(p, s[1..]);
        assert forall k :: 0 < k < |s| ==> s[k] == s[1..][k - 1];
        assert le(s[0], s[0]);
      } else {
        var j := HeadOfSortedFilter(le, p, s[1..]);
        if le(s[0], s[j + 1]) {
          BestIsHead(le, p, s, j);
        } else {
          BestOfTail(le, p, s, j);
          i := j + 1;
        }
      }
    }
  }

  // ---------- any stable sort ----------

  /** The elements that compare equal to `x`. */
  function Equals<T>(le: (T, T) -> bool, x: T): T -> bool {
    y => le(x, y) && le(y, x)
  }

  /** What a stable sort promises: a sorted list in which equal elements stand in their old order. */
  ghost predicate StablySorted<T(!new)>(le: (T, T) -> bool, s: seq<T>, sorted: seq<T>) {
    Sorted(le, sorted) && forall x :: Filter(Equals(le, x), sorted) == Filter(Equals(le, x), s)
  }

  lemma {:induction false} FilteredAreAccepted<T>(p: T -> bool, s: seq<T>)
    ensures forall i :: 0 <= i < |Filter(p, s)| ==> p(Filter(p, s)[i])
  {
    if s != [] {
      FilteredAreAccepted(p, s[1..]);
    }
  }

  lemma {:induction false} SortOfEquals<T>(le: (T, T) -> bool, s: seq<T>)
    requires forall i, j :: 0 <= i < |s| && 0 <= j < |s| ==> le(s[i], s[j])
    ensures Sort(le, s) == s
  {
    if s != [] {
      SortOfEquals(le, s[1..]);
    }
  }

  lemma SortIsStable<T(!new)>(le: (T, T) -> bool, s: seq<T>)
    requires TotalPreorder(le)
    ensures StablySorted(le, s, Sort(le, s))
  {
    hide Sort;
    SortIs(le, s);
    forall x ensures Filter(Equals(le, x), Sort(le, s)) == Filter(Equals(le, x), s) {
      var same := Filter(Equals(le, x), s);
      FilterSort(le, Equals(le, x), s);
      FilteredAreAccepted(Equals(le, x), s);
      forall i, j | 0 <= i < |same| && 0 <= j < |same| ensures le(same[i], same[j]) {
        assert Equals(le, x)(same[i]) && Equals(le, x)(same[j]);
        assert le(same[i], x) && le(x, same[j]);
      }
      SortOfEquals(le, same);
    }
  }

  /** Where a list keeps an element equal to `x`, its first element is no greater. */
  lemma HeadIsLeast<T(!new)>(le: (T, T) -> bool, s: seq<T>, x: T)
    requires TotalPreorder(le) && Sorted(le, s) && Filter(Equals(le, x), s) != []
    ensures s != [] && le(s[0], x)
  {
    FilterEmpty(Equals(le, x), s);
    var k :| 0 <= k < |s| && Equals(le, x)(s[k]);
    assert le(s[0], s[0]);
    assert le(s[0], s[k]) && le(s[k], x);
  }

  /** Two sorted lists with the same elements in each class of equals are the same. */
  lemma {:induction false} SortedAlike<T(!new)>(le: (T, T) -> bool, a: seq<T>, b: seq<T>)
    requires TotalPreorder(le) && Sorted(le, a) && Sorted(le, b)
    requires forall x :: Filter(Equals(le, x), a) == Filter(Equals(le, x), b)
    ensures a == b
  {
    if a == [] {
      NothingKept(le, b);
    } else {
      KeepsItself(le, a);
      assert Filter(Equals(le, a[0]), b) == Filter(Equals(le, a[0]), a);
      HeadIsLeast(le, b, a[0]);
      KeepsItself(le, b);
      assert Filter(Equals(le, b[0]), a) == Filter(Equals(le, b[0]), b);
      HeadIsLeast(le, a, b[0]);
      assert a == [a[0]] + a[1..] && b == [b[0]] + b[1..];
      FilterCons(Equals(le, a[0]), a[0], a[1..]);
      FilterCons(Equals(le, a[0]), b[0], b[1..]);
      assert a[0] == b[0];
      forall x ensures Filter(Equals(le, x), a[1..]) == Filter(Equals(le, x), b[1..]) {
        assert Filter(Equals(le, x), a) == Filter(Equals(le, x), b);
        FilteredTails(Equals(le, x), a[0], a[1..], b[1..]);
      }
      SortedAlike(le, a[1..], b[1..]);
    }
  }

  lemma FilteredTails<T>(p: T -> bool, x: T, a: seq<T>, b: seq<T>)
    requires Filter(p, [x] + a) == Filter(p, [x] + b)
    ensures Filter(p, a) == Filter(p, b)
  {
    FilterCons(p, x, a);
    FilterCons(p, x, b);
    assert ([x] + Filter(p, a))[1..] == Filter(p, a) && ([x] + Filter(p, b))[1..] == Filter(p, b);
  }

  lemma KeepsItself<T(!new)>(le: (T, T) -> bool, s: seq<T>)
    requires TotalPreorder(le) && s != []
    ensures Filter(Equals(le, s[0]), s) != [] && Filter(Equals(le, s[0]), s)[0] == s[0]
  {
    assert le(s[0], s[0]);
  }

  lemma NothingKept<T(!new)>(le: (T, T) -> bool, s: seq<T>)
    requires TotalPreorder(le) && forall x :: Filter(Equals(le, x), s) == []
    ensures s == []
  {
    if s != [] {
      KeepsItself(le, s);
    }
  }

  /** The stable sorts of a list are one list: whatever sorts stably gives what `Sort` gives. */
  lemma StableSortIsSort<T(!new)>(le: (T, T) -> bool, s: seq<T>, sorted: seq<T>)
    requires TotalPreorder(le)
    ensures StablySorted(le, s, sorted) <==> sorted == Sort(le, s)
  {
    SortIsStable(le, s);
    if StablySorted(le, s, sorted) {
      forall x ensures Filter(Equals(le, x), sorted) == Filter(Equals(le, x), Sort(le, s)) {
      }
      SortedAlike(le, sorted, Sort(le, s));
    }
  }
}
