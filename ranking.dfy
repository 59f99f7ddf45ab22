/**
  The `topseo` leaderboard: the members' entries in dictionary insertion
  order, sorted by scar count with `reverse=True` (Python's sort is stable,
  and stays stable when reversed, so equal counts keep insertion order),
  cut to the first ten, and then only those with a positive count listed.
 */
module Ranking {

  /** One leaderboard line: the member's key and the length of their case list. */
  datatype Entry = Entry(uid: string, count: nat)

  /** The (key, count) pairs of `users` in the insertion order `order` records. */
  function Items<V>(order: seq<string>, users: map<string, seq<V>>): (r: seq<Entry>)
    ensures |r| == |order|
    ensures forall i :: 0 <= i < |order| ==> r[i].uid == order[i]
  {
    seq(|order|, i requires 0 <= i < |order| => Entry(order[i], if order[i] in users then |users[order[i]]| else 0))
  }

  /** `order` lists the keys of `users` once each, in insertion order (Python dicts keep it). */
  ghost predicate KeysInOrder<V>(order: seq<string>, users: map<string, V>) {
    && (forall i, j :: 0 <= i < j < |order| ==> order[i] != order[j])
    && (forall k :: k in users <==> k in order)
  }

  /**
    When `order` lists the keys of `users` once each, the items are exactly
    one entry per member, carrying that member's list length.
   */
  lemma ItemsOfMembers<V>(order: seq<string>, users: map<string, seq<V>>)
    requires KeysInOrder(order, users)
    ensures forall k :: k in users ==> Entry(k, |users[k]|) in Items(order, users)
    ensures forall e :: e in Items(order, users) ==> e.uid in users && e.count == |users[e.uid]|
    ensures forall i, j :: 0 <= i < j < |order| ==> Items(order, users)[i].uid != Items(order, users)[j].uid
  {
    var r := Items(order, users);
    forall k | k in users ensures Entry(k, |users[k]|) in r {
      var i :| 0 <= i < |order| && order[i] == k;
      assert r[i] == Entry(k, |users[k]|);
    }
  }

  /** Non-increasing by count. */
  predicate SortedDesc(s: seq<Entry>) {
    forall i, j :: 0 <= i < j < |s| ==> s[i].count >= s[j].count
  }

  /** The entries of `s` whose count is `c`, in their order in `s`. */
  function WithCount(s: seq<Entry>, c: nat): seq<Entry> {
    if s == [] then []
    else (if s[0].count == c then [s[0]] else []) + WithCount(s[1..], c)
  }

  /** The entries of `s` with a positive count, in their order in `s`. */
  function Positive(s: seq<Entry>): (r: seq<Entry>)
    ensures forall i :: 0 <= i < |r| ==> r[i].count > 0
  {
    if s == [] then []
    else (if s[0].count > 0 then [s[0]] else []) + Positive(s[1..])
  }

  /** The filter keeps exactly the entries with a positive count. */
  lemma {:induction false} PositiveKeeps(s: seq<Entry>)
    ensures forall e :: e in Positive(s) <==> e in s && e.count > 0
  {
    if s != [] {
      PositiveKeeps(s[1..]);
      assert s == [s[0]] + s[1..];
    }
  }

  /** The filter keeps, for every positive count, all entries with that count in their order in `s`. */
  lemma {:induction false} PositiveWithCount(s: seq<Entry>, c: nat)
    requires c > 0
    ensures WithCount(Positive(s), c) == WithCount(s, c)
  {
    if s != [] {
      var t := s[1..];
      PositiveWithCount(t, c);
      WithCountAppend(if s[0].count > 0 then [s[0]] else [], Positive(t), c);
    }
  }

  /** Filtering by count distributes over concatenation. */
  lemma {:induction false} WithCountAppend(a: seq<Entry>, b: seq<Entry>, c: nat)
    ensures WithCount(a + b, c) == WithCount(a, c) + WithCount(b, c)
  {
    if a != [] {
      var head := if a[0].count == c then [a[0]] else [];
      assert (a + b)[1..] == a[1..] + b;
      assert WithCount(a + b, c) == head + WithCount(a[1..] + b, c);
      WithCountAppend(a[1..], b, c);
      assert WithCount(a, c) == head + WithCount(a[1..], c);
    } else {
      assert a + b == b;
    }
  }

  /** Puts `x` in front of the first entry of `s` whose count is not larger than its own. */
  function Insert(x: Entry, s: seq<Entry>): seq<Entry> {
    if s == [] then [x]
    else if s[0].count > x.count then [s[0]] + Insert(x, s[1..])
    else [x] + s
  }

  /** Stable sort by descending count (insertion sort): a non-increasing rearrangement of `s`. */
  function SortDesc(s: seq<Entry>): (r: seq<Entry>)
    ensures multiset(r) == multiset(s) && |r| == |s|
    ensures SortedDesc(r)
  {
    if s == [] then []
    else
      var t := SortDesc(s[1..]);
      InsertPermutes(s[0], t);
      InsertSorted(s[0], t);
      assert s == [s[0]] + s[1..];
      Insert(s[0], t)
  }

  /** `sorted(items, key=count, reverse=True)[:10]`, then only the positive counts. */
  function Top10<V>(order: seq<string>, users: map<string, seq<V>>): (r: seq<Entry>)
    ensures |r| <= 10
    ensures SortedDesc(r)
    ensures forall i :: 0 <= i < |r| ==> r[i].count > 0
    ensures multiset(r) <= multiset(Items(order, users))
    ensures forall c: nat :: WithCount(r, c) <= WithCount(Items(order, users), c)
    ensures forall e :: e in Items(order, users) && e.count > 0 && e !in r ==>
              |r| == 10 && forall i :: 0 <= i < |r| ==> r[i].count >= e.count
  {
    var items := Items(order, users);
    var sorted := SortDesc(items);
    var top := sorted[..if |sorted| < 10 then |sorted| else 10];
    SortDescCorrect(items);
    TopOfSorted(items, sorted, top);
    Positive(top)
  }

  /** The cut to ten and the filter, for any stable descending rearrangement `sorted` of `items`. */
  lemma TopOfSorted(items: seq<Entry>, sorted: seq<Entry>, top: seq<Entry>)
    requires multiset(sorted) == multiset(items) && SortedDesc(sorted)
    requires forall c: nat :: WithCount(sorted, c) == WithCount(items, c)
    requires top == sorted[..if |sorted| < 10 then |sorted| else 10]
    ensures var r := Positive(top);
      && |r| <= |top| <= 10
      && SortedDesc(r)
      && multiset(r) <= multiset(items)
      && (forall c: nat :: WithCount(r, c) <= WithCount(items, c))
      && (forall e :: e in items && e.count > 0 && e !in r ==>
            |r| == 10 && forall i :: 0 <= i < |r| ==> r[i].count >= e.count)
  {
    TakeSorted(sorted, |top|);
    PositivePrefix(top);
    var r := Positive(top);
    assert r <= top;
    TakeSorted(top, |r|);
    TopSubset(items, sorted, top, r);
    TopStable(items, sorted, top, r);
    TopLeftOut(items, sorted, top, r);
  }

  /** A member with scars who is not shown means ten are shown, none with fewer scars. */
  lemma TopLeftOut(items: seq<Entry>, sorted: seq<Entry>, top: seq<Entry>, r: seq<Entry>)
    requires multiset(sorted) == multiset(items) && SortedDesc(sorted)
    requires top == sorted[..if |sorted| < 10 then |sorted| else 10]
    requires r <= top && (|r| < |top| ==> top[|r|].count == 0)
    ensures forall e :: e in items && e.count > 0 && e !in r ==>
              |r| == 10 && forall i :: 0 <= i < |r| ==> r[i].count >= e.count
  {
    forall e | e in items && e.count > 0 && e !in r
      ensures |r| == 10 && forall i :: 0 <= i < |r| ==> r[i].count >= e.count
    {
      LeftOutRanksLower(items, sorted, top, r, e);
    }
  }

  /** A prefix of a prefix of a rearrangement of `items` holds nothing `items` lacks. */
  lemma TopSubset(items: seq<Entry>, sorted: seq<Entry>, top: seq<Entry>, r: seq<Entry>)
    requires multiset(sorted) == multiset(items) && top <= sorted && r <= top
    ensures multiset(r) <= multiset(items)
  {
    assert r == top[..|r|] && top == sorted[..|top|];
    TakeSubMultiset(top, |r|);
    TakeSubMultiset(sorted, |top|);
  }

  /** A prefix of a prefix of a stable rearrangement keeps, per count, a prefix of the entries in input order. */
  lemma TopStable(items: seq<Entry>, sorted: seq<Entry>, top: seq<Entry>, r: seq<Entry>)
    requires forall c: nat :: WithCount(sorted, c) == WithCount(items, c)
    requires top <= sorted && r <= top
    ensures forall c: nat :: WithCount(r, c) <= WithCount(items, c)
  {
    forall c: nat ensures WithCount(r, c) <= WithCount(items, c) {
      WithCountPrefix(r, top, c);
      WithCountPrefix(top, sorted, c);
    }
  }

  lemma TakeSubMultiset(s: seq<Entry>, k: nat)
    requires k <= |s|
    ensures multiset(s[..k]) <= multiset(s)
  {
    assert s == s[..k] + s[k..];
  }

  lemma LeftOutRanksLower(items: seq<Entry>, sorted: seq<Entry>, top: seq<Entry>, r: seq<Entry>, e: Entry)
    requires multiset(sorted) == multiset(items) && SortedDesc(sorted)
    requires top == sorted[..if |sorted| < 10 then |sorted| else 10]
    requires r <= top && (|r| < |top| ==> top[|r|].count == 0)
    requires e in items && e.count > 0 && e !in r
    ensures |r| == 10 && forall i :: 0 <= i < |r| ==> r[i].count >= e.count
  {
    assert e in multiset(sorted);
    var p :| 0 <= p < |sorted| && sorted[p] == e;
  }

  lemma {:induction false} InsertPermutes(x: Entry, s: seq<Entry>)
    ensures multiset(Insert(x, s)) == multiset([x] + s) && |Insert(x, s)| == |s| + 1
  {
    if s != [] && s[0].count > x.count {
      InsertPermutes(x, s[1..]);
      assert s == [s[0]] + s[1..];
    }
  }

  lemma {:induction false} InsertSorted(x: Entry, s: seq<Entry>)
    requires SortedDesc(s)
    ensures SortedDesc(Insert(x, s))
  {
    if s != [] && s[0].count > x.count {
      var t := s[1..];
      InsertSorted(x, t);
      InsertPermutes(x, t);
      var r := Insert(x, s);
      assert r == [s[0]] + Insert(x, t);
      forall j | 0 < j < |r| ensures r[0].count >= r[j].count {
        assert r[j] in multiset([x] + t);
      }
    }
  }

  lemma {:induction false} InsertWithCount(x: Entry, s: seq<Entry>, c: nat)
    ensures WithCount(Insert(x, s), c) == WithCount([x] + s, c)
  {
    if s != [] && s[0].count > x.count {
      var t := s[1..];
      InsertWithCount(x, t, c);
      assert ([x] + s)[1..] == s;
      assert ([s[0]] + Insert(x, t))[1..] == Insert(x, t);
      assert ([x] + t)[1..] == t;
    }
  }

  /** The sort keeps exactly the entries it is given, orders them, and keeps equal counts in input order. */
  lemma {:induction false} SortDescCorrect(s: seq<Entry>)
    ensures multiset(SortDesc(s)) == multiset(s) && |SortDesc(s)| == |s|
    ensures SortedDesc(SortDesc(s))
    ensures forall c: nat :: WithCount(SortDesc(s), c) == WithCount(s, c)
  {
    if s != [] {
      var t := SortDesc(s[1..]);
      SortDescCorrect(s[1..]);
      InsertPermutes(s[0], t);
      InsertSorted(s[0], t);
      assert s == [s[0]] + s[1..];
      forall c: nat ensures WithCount(SortDesc(s), c) == WithCount(s, c) {
        InsertWithCount(s[0], t, c);
        assert ([s[0]] + t)[1..] == t;
      }
    }
  }

  lemma TakeSorted(s: seq<Entry>, k: nat)
    requires SortedDesc(s) && k <= |s|
    ensures SortedDesc(s[..k])
  {
  }

  /** On a sorted sequence, the positive entries form a prefix, followed by a zero count if anything is left. */
  lemma {:induction false} PositivePrefix(s: seq<Entry>)
    requires SortedDesc(s)
    ensures |Positive(s)| <= |s| && Positive(s) == s[..|Positive(s)|]
    ensures |Positive(s)| < |s| ==> s[|Positive(s)|].count == 0
  {
    if s != [] {
      var t := s[1..];
      if s[0].count > 0 {
        assert SortedDesc(t);
        PositivePrefix(t);
        var m := |Positive(t)|;
        assert Positive(s) == [s[0]] + t[..m];
        assert [s[0]] + t[..m] == s[..m + 1];
        if m + 1 < |s| {
          assert s[m + 1] == t[m];
        }
      } else {
        forall i | 0 <= i < |t| ensures t[i].count == 0 {
          assert t[i] == s[i + 1];
        }
        AllZeroNotPositive(t);
        assert Positive(s) == [] + Positive(t);
      }
    }
  }

  lemma {:induction false} AllZeroNotPositive(s: seq<Entry>)
    requires forall i :: 0 <= i < |s| ==> s[i].count == 0
    ensures Positive(s) == []
  {
    if s != [] {
      AllZeroNotPositive(s[1..]);
    }
  }

  /** Filtering a prefix gives a prefix of the filtered whole. */
  lemma {:induction false} WithCountPrefix(a: seq<Entry>, b: seq<Entry>, c: nat)
    requires a <= b
    ensures WithCount(a, c) <= WithCount(b, c)
  {
    if a != [] {
      assert a[1..] <= b[1..];
      WithCountPrefix(a[1..], b[1..], c);
    }
  }
}
