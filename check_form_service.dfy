/**
 * The item load: fetched check items are ordered by ascending priority (a
 * stable sort, as the built-in array sort is) and then given their initial
 * answer and enabled state. A rejected fetch is passed on unchanged.
 */
module CheckFormService {
  import opened Wrappers
  import opened CheckItemModel

  ghost predicate SortedByPriority(s: seq<CheckItem>) {
    forall i, j :: 0 <= i < j < |s| ==> s[i].priority <= s[j].priority
  }

  /** The items of `s` whose priority is `p`, in their order in `s`. */
  function WithPriority(s: seq<CheckItem>, p: int): seq<CheckItem> {
    if s == [] then []
    else (if s[0].priority == p then [s[0]] else []) + WithPriority(s[1..], p)
  }

  lemma {:induction false} WithPriorityMembers(s: seq<CheckItem>, p: int)
    ensures forall y :: y in WithPriority(s, p) ==> y in s && y.priority == p
  {
    if s != [] {
      WithPriorityMembers(s[1..], p);
    }
  }

  /** The tail of a sorted list is sorted. */
  lemma SortedTail(s: seq<CheckItem>)
    requires s != [] && SortedByPriority(s)
    ensures SortedByPriority(s[1..])
  {
    forall i, j | 0 <= i < j < |s| - 1
      ensures s[1..][i].priority <= s[1..][j].priority
    {
      assert s[1..][i] == s[i + 1] && s[1..][j] == s[j + 1];
    }
  }

  lemma SortedCons(y: CheckItem, t: seq<CheckItem>)
    requires SortedByPriority(t)
    requires forall k :: 0 <= k < |t| ==> y.priority <= t[k].priority
    ensures SortedByPriority([y] + t)
  {
    var r := [y] + t;
    forall i, j | 0 <= i < j < |r|
      ensures r[i].priority <= r[j].priority
    {
      assert r[j] == t[j - 1];
      if i > 0 {
        assert r[i] == t[i - 1];
      }
    }
  }

  /**
   * Inserts `x` into a sorted list ahead of every item whose priority is not
   * smaller, so that `x` stays ahead of the items of equal priority.
   */
  function Insert(x: CheckItem, s: seq<CheckItem>): (r: seq<CheckItem>)
    ensures |r| == |s| + 1
    ensures multiset(r) == multiset(s) + multiset{x}
  {
    if s == [] || x.priority <= s[0].priority then [x] + s
    else
      assert s == [s[0]] + s[1..];
      [s[0]] + Insert(x, s[1..])
  }

  /** Inserting into a sorted list keeps it sorted. */
  lemma {:induction false} InsertIsSorted(x: CheckItem, s: seq<CheckItem>)
    requires SortedByPriority(s)
    ensures SortedByPriority(Insert(x, s))
    ensures Insert(x, s)[0] == x || Insert(x, s)[0] == s[0]
  {
    if s == [] || x.priority <= s[0].priority {
      SortedCons(x, s);
    } else {
      SortedTail(s);
      InsertIsSorted(x, s[1..]);
      var t := Insert(x, s[1..]);
      assert s[0].priority <= t[0].priority by {
        if t[0] != x {
          assert t[0] == s[1..][0] == s[1];
        }
      }
      assert forall k :: 0 <= k < |t| ==> t[0].priority <= t[k].priority;
      SortedCons(s[0], t);
    }
  }

  lemma WithPriorityCons(y: CheckItem, t: seq<CheckItem>, p: int)
    ensures WithPriority([y] + t, p) == (if y.priority == p then [y] else []) + WithPriority(t, p)
  {
    assert ([y] + t)[0] == y && ([y] + t)[1..] == t;
  }

  /** Inserting `x` puts it ahead of the items of its own priority and leaves the other priorities alone. */
  lemma {:induction false} InsertIsStable(x: CheckItem, s: seq<CheckItem>, p: int)
    ensures WithPriority(Insert(x, s), p) == (if x.priority == p then [x] else []) + WithPriority(s, p)
  {
    if s == [] || x.priority <= s[0].priority {
      WithPriorityCons(x, s, p);
    } else {
      InsertIsStable(x, s[1..], p);
      WithPriorityCons(s[0], Insert(x, s[1..]), p);
      assert s == [s[0]] + s[1..];
      WithPriorityCons(s[0], s[1..], p);
    }
  }

  /**
   * The ordering step: the fetched items sorted by ascending priority, items
   * of equal priority kept in fetch order.
   */
  function SortByPriority(s: seq<CheckItem>): (r: seq<CheckItem>)
    ensures |r| == |s|
    ensures multiset(r) == multiset(s)
    ensures SortedByPriority(r)
  {
    if s == [] then []
    else
      assert s == [s[0]] + s[1..];
      InsertIsSorted(s[0], SortByPriority(s[1..]));
      Insert(s[0], SortByPriority(s[1..]))
  }

  /** The sort is stable: for every priority, its items keep their input order. */
  lemma {:induction false} SortIsStable(s: seq<CheckItem>, p: int)
    ensures WithPriority(SortByPriority(s), p) == WithPriority(s, p)
  {
    if s != [] {
      SortIsStable(s[1..], p);
      InsertIsStable(s[0], SortByPriority(s[1..]), p);
    }
  }

  lemma WithPriorityUnfold(s: seq<CheckItem>, p: int)
    requires s != []
    ensures WithPriority(s, p) == (if s[0].priority == p then [s[0]] else []) + WithPriority(s[1..], p)
  {
  }

  /** Lists with equal per-priority subsequences start at the same least priority. */
  lemma HeadPriorityIsLeast(a: seq<CheckItem>, b: seq<CheckItem>)
    requires a != [] && b != [] && SortedByPriority(a)
    requires forall p :: WithPriority(a, p) == WithPriority(b, p)
    ensures a[0].priority <= b[0].priority
  {
    var pb := b[0].priority;
    WithPriorityUnfold(b, pb);
    assert b[0] in WithPriority(b, pb);
    WithPriorityMembers(a, pb);
    SortedBounds(a, b[0]);
  }

  /**
   * A sorted list is determined by its per-priority subsequences, so every
   * stable sort by priority produces the same list.
   */
  lemma {:induction false} StableSortIsUnique(a: seq<CheckItem>, b: seq<CheckItem>)
    requires SortedByPriority(a) && SortedByPriority(b)
    requires forall p :: WithPriority(a, p) == WithPriority(b, p)
    ensures a == b
    decreases |a|
  {
    if a == [] || b == [] {
      var c := if a == [] then b else a;
      assert c != [] ==> WithPriority(c, c[0].priority) != [];
    } else {
      HeadPriorityIsLeast(a, b);
      HeadPriorityIsLeast(b, a);
      var p0 := a[0].priority;
      WithPriorityUnfold(a, p0);
      WithPriorityUnfold(b, p0);
      var wa, wb := WithPriority(a, p0), WithPriority(b, p0);
      assert wa[0] == a[0] && wa[1..] == WithPriority(a[1..], p0);
      assert wb[0] == b[0] && wb[1..] == WithPriority(b[1..], p0);
      assert wa == wb;
      assert a[0] == b[0];
      forall q
        ensures WithPriority(a[1..], q) == WithPriority(b[1..], q)
      {
        WithPriorityUnfold(a, q);
        WithPriorityUnfold(b, q);
        var head := if a[0].priority == q then [a[0]] else [];
        assert WithPriority(a, q) == WithPriority(b, q);
        assert WithPriority(a[1..], q) == WithPriority(a, q)[|head|..];
        assert WithPriority(b[1..], q) == WithPriority(b, q)[|head|..];
      }
      SortedTail(a);
      SortedTail(b);
      StableSortIsUnique(a[1..], b[1..]);
      assert a == [a[0]] + a[1..] && b == [b[0]] + b[1..];
    }
  }

  /**
   * SortByPriority is the result of any stable sort by priority: a sorted
   * list that keeps each priority's items in input order equals it.
   */
  lemma SortByPriorityIsTheStableSort(s: seq<CheckItem>, t: seq<CheckItem>)
    requires SortedByPriority(t)
    requires forall p :: WithPriority(t, p) == WithPriority(s, p)
    ensures t == SortByPriority(s)
  {
    forall p
      ensures WithPriority(t, p) == WithPriority(SortByPriority(s), p)
    {
      SortIsStable(s, p);
    }
    StableSortIsUnique(t, SortByPriority(s));
  }

  /** Every item of a priority-sorted list lies between its first and last priority. */
  lemma SortedBounds(r: seq<CheckItem>, x: CheckItem)
    requires SortedByPriority(r) && x in r
    ensures r[0].priority <= x.priority <= r[|r| - 1].priority
  {
    var k :| 0 <= k < |r| && r[k] == x;
    if 0 < k {
      assert r[0].priority <= r[k].priority;
    }
    if k < |r| - 1 {
      assert r[k].priority <= r[|r| - 1].priority;
    }
  }

  /** The first sorted item has the least priority and the last the greatest. */
  lemma SortedEnds(s: seq<CheckItem>)
    requires s != []
    ensures var r := SortByPriority(s);
      forall x :: x in s ==> r[0].priority <= x.priority <= r[|r| - 1].priority
  {
    var r := SortByPriority(s);
    forall x | x in s
      ensures r[0].priority <= x.priority <= r[|r| - 1].priority
    {
      assert x in multiset(s);
      assert x in r;
      SortedBounds(r, x);
    }
  }

  /**
   * The item load: a fetched list becomes the sorted list in its initial
   * state; a rejected fetch is re-raised with the same error.
   */
  function GetCheckFormItems<E>(fetched: Result<seq<CheckItem>, E>): (r: Result<seq<CheckItem>, E>)
    ensures fetched.Failure? ==> r == fetched
    ensures fetched.Success? ==> r.Success? && |r.value| == |fetched.value|
    ensures fetched.Success? ==> multiset(Checks(r.value)) == multiset(Checks(fetched.value))
    ensures fetched.Success? ==> Checks(r.value) == Checks(SortByPriority(fetched.value))
    ensures fetched.Success? ==> SortedByPriority(r.value)
    ensures fetched.Success? ==> forall k :: 0 <= k < |r.value| ==>
      r.value[k].result == Unset && (r.value[k].disabled <==> k != 0)
  {
    match fetched
    case Failure(e) => Failure(e)
    case Success(items) =>
      var sorted := SortByPriority(items);
      ChecksOfPermutation(sorted, items);
      var r := Initialized(sorted);
      assert forall k :: 0 <= k < |r| ==> r[k].priority == CheckOf(r[k]).priority == Checks(r)[k].priority;
      assert forall k :: 0 <= k < |r| ==> sorted[k].priority == Checks(sorted)[k].priority;
      Success(r)
  }
}
