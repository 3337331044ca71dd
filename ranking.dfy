/** Finalisation of the tally: `sorted(items, key=count, reverse=True)[:3]`.
    Python's sort is stable also when `reverse=True`, so entries with equal
    counts keep the tally's first-seen order. */
module Ranking {
  import opened Tally

  /** How many repositories the report lists. */
  const TopCount: nat := 3

  /** Counts are non-increasing from left to right. */
  predicate Descending(s: seq<Entry>) {
    forall i, j :: 0 <= i < j < |s| ==> s[i].1 >= s[j].1
  }

  /** The entries of `s` whose count is `c`, in their order in `s`. */
  function WithCount(s: seq<Entry>, c: nat): seq<Entry> {
    if s == [] then [] else (if s[0].1 == c then [s[0]] else []) + WithCount(s[1..], c)
  }

  /** Inserts `e` into a descending sequence after every entry whose count is at least e's. */
  function Insert(t: seq<Entry>, e: Entry): (r: seq<Entry>)
    ensures |r| == |t| + 1
  {
    if t == [] then [e]
    else if t[0].1 >= e.1 then [t[0]] + Insert(t[1..], e)
    else [e] + t
  }

  /** A stable sort by descending count (insertion sort, inserting left to right). */
  function SortByCount(s: seq<Entry>): (r: seq<Entry>)
    ensures |r| == |s|
  {
    if s == [] then [] else Insert(SortByCount(s[..|s| - 1]), s[|s| - 1])
  }

  function Min(a: nat, b: nat): nat {
    if a <= b then a else b
  }

  /** `sorted(repo_contributions.items(), key=lambda item: item[1], reverse=True)[:3]` */
  function TopRepositories(tally: seq<Entry>): (top: seq<Entry>)
    ensures |top| == Min(TopCount, |tally|)
  {
    SortByCount(tally)[..Min(TopCount, |tally|)]
  }

  lemma {:induction false} WithCountConcat(a: seq<Entry>, b: seq<Entry>, c: nat)
    ensures WithCount(a + b, c) == WithCount(a, c) + WithCount(b, c)
  {
    if a != [] {
      assert (a + b)[0] == a[0];
      assert (a + b)[1..] == a[1..] + b;
      WithCountConcat(a[1..], b, c);
    } else {
      assert a + b == b;
    }
  }

  lemma {:induction false} WithCountNone(t: seq<Entry>, c: nat)
    requires forall i :: 0 <= i < |t| ==> t[i].1 < c
    ensures WithCount(t, c) == []
  {
    if t != [] {
      WithCountNone(t[1..], c);
    }
  }

  /** Inserting adds exactly `e`. */
  lemma {:induction false} InsertPermutes(t: seq<Entry>, e: Entry)
    ensures multiset(Insert(t, e)) == multiset(t) + multiset{e}
  {
    if t != [] && t[0].1 >= e.1 {
      InsertPermutes(t[1..], e);
      assert t == [t[0]] + t[1..];
    }
  }

  /** Sorting neither adds nor drops entries. */
  lemma {:induction false} SortByCountPermutes(s: seq<Entry>)
    ensures multiset(SortByCount(s)) == multiset(s)
  {
    if s != [] {
      assert s == s[..|s| - 1] + [s[|s| - 1]];
      SortByCountPermutes(s[..|s| - 1]);
      InsertPermutes(SortByCount(s[..|s| - 1]), s[|s| - 1]);
    }
  }

  lemma DescendingTail(t: seq<Entry>)
    requires Descending(t) && t != []
    ensures Descending(t[1..])
  {
    var rest := t[1..];
    forall i, j | 0 <= i < j < |rest| ensures rest[i].1 >= rest[j].1 {
      assert rest[i] == t[i + 1] && rest[j] == t[j + 1];
    }
  }

  /** An entry of an insertion result is the inserted entry or one of the old ones. */
  lemma InsertMember(t: seq<Entry>, e: Entry, x: Entry)
    requires x in Insert(t, e)
    ensures x == e || x in t
  {
    InsertPermutes(t, e);
    assert x in multiset(Insert(t, e));
  }

  /** The head of a descending sequence bounds everything inserted behind it. */
  lemma HeadBoundsInsert(t: seq<Entry>, e: Entry)
    requires Descending(t) && t != [] && t[0].1 >= e.1
    ensures forall x :: x in Insert(t[1..], e) ==> t[0].1 >= x.1
  {
    forall x | x in Insert(t[1..], e) ensures t[0].1 >= x.1 {
      InsertMember(t[1..], e, x);
      if x != e {
        var k :| 0 <= k < |t[1..]| && t[1..][k] == x;
        assert t[k + 1] == x;
      }
    }
  }

  /** Inserting into a descending sequence keeps it descending. */
  lemma {:induction false} InsertDescending(t: seq<Entry>, e: Entry)
    requires Descending(t)
    ensures Descending(Insert(t, e))
  {
    if t != [] && t[0].1 >= e.1 {
      var rest := t[1..];
      DescendingTail(t);
      InsertDescending(rest, e);
      HeadBoundsInsert(t, e);
      var r := Insert(rest, e);
      var s := [t[0]] + r;
      assert Insert(t, e) == s;
      forall i, j | 0 <= i < j < |s| ensures s[i].1 >= s[j].1 {
        assert s[j] == r[j - 1];
        assert r[j - 1] in r;
        if i > 0 {
          assert s[i] == r[i - 1];
        }
      }
    } else if t != [] {
      var s := [e] + t;
      forall i, j | 0 <= i < j < |s| ensures s[i].1 >= s[j].1 {
        assert s[j] == t[j - 1];
        assert t[0].1 >= t[j - 1].1;
        if i > 0 {
          assert s[i] == t[i - 1];
        }
      }
    }
  }

  /** Inserting `e` into a descending sequence puts it after every entry that has
      the same count: for each count, the entries with it keep their order. */
  lemma {:induction false} InsertAfterEqual(t: seq<Entry>, e: Entry, c: nat)
    requires Descending(t)
    ensures WithCount(Insert(t, e), c) == WithCount(t, c) + (if e.1 == c then [e] else [])
  {
    if t == [] {
      assert WithCount([e], c) == (if e.1 == c then [e] else []) + WithCount([e][1..], c);
    } else if t[0].1 >= e.1 {
      var rest := t[1..];
      DescendingTail(t);
      var r := Insert(rest, e);
      InsertAfterEqual(rest, e, c);
      var head := if t[0].1 == c then [t[0]] else [];
      assert Insert(t, e) == [t[0]] + r;
      assert ([t[0]] + r)[1..] == r;
      assert WithCount([t[0]] + r, c) == head + WithCount(r, c);
      assert WithCount(t, c) == head + WithCount(rest, c);
    } else {
      assert ([e] + t)[1..] == t;
      if e.1 == c {
        forall i | 0 <= i < |t| ensures t[i].1 < c {
          assert t[0].1 >= t[i].1;
        }
        WithCountNone(t, c);
      }
    }
  }

  /** SortByCount sorts by descending count and, for every count, keeps the entries
      with that count in their original order: it is the stable sort. */
  lemma {:induction false} SortByCountStable(s: seq<Entry>)
    ensures Descending(SortByCount(s))
    ensures forall c :: WithCount(SortByCount(s), c) == WithCount(s, c)
  {
    if s != [] {
      var p, e := s[..|s| - 1], s[|s| - 1];
      assert s == p + [e];
      SortByCountStable(p);
      InsertDescending(SortByCount(p), e);
      forall c ensures WithCount(SortByCount(s), c) == WithCount(s, c) {
        InsertAfterEqual(SortByCount(p), e, c);
        WithCountConcat(p, [e], c);
        assert WithCount([e], c) == (if e.1 == c then [e] else []) + WithCount([e][1..], c);
      }
    }
  }

  /** What taking a prefix of a descending sequence keeps. */
  lemma PrefixDrawnFrom(sorted: seq<Entry>, k: nat)
    requires k <= |sorted|
    ensures multiset(sorted[..k]) <= multiset(sorted)
    ensures forall c :: WithCount(sorted[..k], c) <= WithCount(sorted, c)
  {
    var top := sorted[..k];
    assert sorted == top + sorted[k..];
    assert multiset(sorted) == multiset(top) + multiset(sorted[k..]);
    forall c ensures WithCount(top, c) <= WithCount(sorted, c) {
      WithCountConcat(top, sorted[k..], c);
    }
  }

  lemma PrefixDominates(sorted: seq<Entry>, k: nat)
    requires Descending(sorted) && k <= |sorted|
    ensures Descending(sorted[..k])
    ensures forall e, x :: e in sorted && e !in sorted[..k] && x in sorted[..k] ==> x.1 >= e.1
  {
    var top := sorted[..k];
    forall i, j | 0 <= i < j < |top| ensures top[i].1 >= top[j].1 {
      assert top[i] == sorted[i] && top[j] == sorted[j];
    }
    forall e, x | e in sorted && e !in top && x in top ensures x.1 >= e.1 {
      var i :| 0 <= i < |sorted| && sorted[i] == e;
      var j :| 0 <= j < |top| && top[j] == x;
      assert sorted[j] == x;
      assert forall m :: 0 <= m < k ==> top[m] == sorted[m];
    }
  }

  lemma PrefixOfDescending(sorted: seq<Entry>, k: nat)
    requires Descending(sorted) && k <= |sorted|
    ensures Descending(sorted[..k])
    ensures multiset(sorted[..k]) <= multiset(sorted)
    ensures forall c :: WithCount(sorted[..k], c) <= WithCount(sorted, c)
    ensures forall e, x :: e in sorted && e !in sorted[..k] && x in sorted[..k] ==> x.1 >= e.1
  {
    PrefixDrawnFrom(sorted, k);
    PrefixDominates(sorted, k);
  }


  /** The top repositories are at most three tally entries, by non-increasing
      count; each count's entries that are taken are the first-seen ones with that
      count; and no entry left out has a higher count than one taken. */
  lemma TopRepositoriesCorrect(tally: seq<Entry>)
    ensures |TopRepositories(tally)| == Min(TopCount, |tally|)
    ensures multiset(TopRepositories(tally)) <= multiset(tally)
    ensures Descending(TopRepositories(tally))
    ensures forall c :: WithCount(TopRepositories(tally), c) <= WithCount(tally, c)
    ensures forall e, x :: e in tally && e !in TopRepositories(tally) && x in TopRepositories(tally) ==> x.1 >= e.1
  {
    var sorted := SortByCount(tally);
    SortByCountPermutes(tally);
    SortByCountStable(tally);
    PrefixOfDescending(sorted, Min(TopCount, |tally|));
    assert forall e :: e in tally <==> e in multiset(sorted);
  }

  // Ties in first-seen order.

  /** `x` precedes `y` in a stable descending sort of names ordered as in `names`:
      a higher count, or the same count and an earlier first occurrence. */
  predicate RanksBefore(x: Entry, y: Entry, names: seq<string>) {
    x.1 > y.1 || (x.1 == y.1 && FirstIndex(names, x.0) < FirstIndex(names, y.0))
  }

  predicate StablyDescending(s: seq<Entry>, names: seq<string>) {
    forall i, j :: 0 <= i < j < |s| ==> RanksBefore(s[i], s[j], names)
  }

  lemma StablyDescendingTail(t: seq<Entry>, names: seq<string>)
    requires StablyDescending(t, names) && t != []
    ensures StablyDescending(t[1..], names)
  {
    var rest := t[1..];
    forall i, j | 0 <= i < j < |rest| ensures RanksBefore(rest[i], rest[j], names) {
      assert rest[i] == t[i + 1] && rest[j] == t[j + 1];
    }
  }

  /** The head of a stably descending sequence ranks before everything inserted
      behind it, when the inserted entry was first seen last. */
  lemma HeadRanksBeforeInsert(t: seq<Entry>, e: Entry, names: seq<string>)
    requires StablyDescending(t, names) && t != [] && t[0].1 >= e.1
    requires FirstIndex(names, t[0].0) < FirstIndex(names, e.0)
    ensures forall x :: x in Insert(t[1..], e) ==> RanksBefore(t[0], x, names)
  {
    forall x | x in Insert(t[1..], e) ensures RanksBefore(t[0], x, names) {
      InsertMember(t[1..], e, x);
      if x != e {
        var k :| 0 <= k < |t[1..]| && t[1..][k] == x;
        assert t[k + 1] == x;
      }
    }
  }

  lemma {:induction false} InsertStablyDescending(t: seq<Entry>, e: Entry, names: seq<string>)
    requires StablyDescending(t, names)
    requires forall x :: x in t ==> FirstIndex(names, x.0) < FirstIndex(names, e.0)
    ensures StablyDescending(Insert(t, e), names)
  {
    if t != [] {
      var r := Insert(t, e);
      if t[0].1 >= e.1 {
        var rest := Insert(t[1..], e);
        assert forall x :: x in t[1..] ==> x in t;
        StablyDescendingTail(t, names);
        InsertStablyDescending(t[1..], e, names);
        assert t[0] in t;
        HeadRanksBeforeInsert(t, e, names);
        assert r == [t[0]] + rest;
        forall i, j | 0 <= i < j < |r| ensures RanksBefore(r[i], r[j], names) {
          assert r[j] == rest[j - 1];
          if i == 0 {
            assert rest[j - 1] in rest;
          } else {
            assert r[i] == rest[i - 1];
          }
        }
      } else {
        assert r == [e] + t;
        forall i, j | 0 <= i < j < |r| ensures RanksBefore(r[i], r[j], names) {
          assert r[j] == t[j - 1];
          if i == 0 {
            if j > 1 {
              assert RanksBefore(t[0], t[j - 1], names);
            }
          } else {
            assert r[i] == t[i - 1];
          }
        }
      }
    }
  }


  /** Sorting a sequence already in first-seen order leaves equal counts in that order. */
  lemma {:induction false} SortByCountKeepsFirstSeenOrder(s: seq<Entry>, names: seq<string>)
    requires FirstSeenOrder(s, names)
    ensures StablyDescending(SortByCount(s), names)
  {
    if s != [] {
      var p, e := s[..|s| - 1], s[|s| - 1];
      assert FirstSeenOrder(p, names) by {
        forall i, j | 0 <= i < j < |p| ensures FirstIndex(names, p[i].0) < FirstIndex(names, p[j].0) {
          assert p[i] == s[i] && p[j] == s[j];
        }
      }
      SortByCountKeepsFirstSeenOrder(p, names);
      SortByCountPermutes(p);
      forall x | x in SortByCount(p) ensures FirstIndex(names, x.0) < FirstIndex(names, e.0) {
        assert x in multiset(p);
        var k :| 0 <= k < |p| && p[k] == x;
        assert s[k] == x;
      }
      InsertStablyDescending(SortByCount(p), e, names);
    }
  }

  /** The listed repositories come in descending count, equal counts in first-seen order. */
  lemma TopRepositoriesKeepFirstSeenOrder(tally: seq<Entry>, names: seq<string>)
    requires FirstSeenOrder(tally, names)
    ensures StablyDescending(TopRepositories(tally), names)
  {
    SortByCountKeepsFirstSeenOrder(tally, names);
    var sorted := SortByCount(tally);
    var top := TopRepositories(tally);
    forall i, j | 0 <= i < j < |top| ensures RanksBefore(top[i], top[j], names) {
      assert top[i] == sorted[i] && top[j] == sorted[j];
    }
  }

  // The listed repositories, in terms of the names the tally was built from.

  /** Each non-empty name has an entry carrying its number of occurrences. */
  lemma TallyEntryOf(names: seq<string>, n: string) returns (k: nat)
    requires n in names && n != ""
    ensures k < |TallyOf(names)| && TallyOf(names)[k] == (n, multiset(names)[n])
  {
    var tally := TallyOf(names);
    TallyOfCorrect(names);
    assert n in Keys(tally);
    k :| 0 <= k < |tally| && Keys(tally)[k] == n;
  }

  /** Every listed entry is a non-empty name with its number of occurrences. */
  lemma TopEntriesCounted(names: seq<string>)
    ensures forall e :: e in TopRepositories(TallyOf(names)) ==> e.0 != "" && e.1 == multiset(names)[e.0] && e.1 > 0
  {
    var tally := TallyOf(names);
    var top := TopRepositories(tally);
    TallyOfCorrect(names);
    TopRepositoriesCorrect(tally);
    forall e | e in top ensures e.0 != "" && e.1 == multiset(names)[e.0] && e.1 > 0 {
      assert e in multiset(tally);
      var k :| 0 <= k < |tally| && tally[k] == e;
    }
  }

  /** Fewer than three entries are listed only when every name is. */
  lemma ShortTopListsAll(names: seq<string>)
    ensures |TopRepositories(TallyOf(names))| < TopCount ==>
              forall n :: n in names && n != "" ==> n in Keys(TopRepositories(TallyOf(names)))
  {
    var tally := TallyOf(names);
    var top := TopRepositories(tally);
    if |top| < TopCount {
      assert top == SortByCount(tally);
      SortByCountPermutes(tally);
      forall n | n in names && n != "" ensures n in Keys(top) {
        var k := TallyEntryOf(names, n);
        assert tally[k] in multiset(top);
        var j :| 0 <= j < |top| && top[j] == tally[k];
        assert Keys(top)[j] == n;
      }
    }
  }

  /** No unlisted name occurs more often than a listed one. */
  lemma UnlistedNoMore(names: seq<string>)
    ensures forall n, e :: (n in names && n != "" && n !in Keys(TopRepositories(TallyOf(names)))
                            && e in TopRepositories(TallyOf(names))) ==> e.1 >= multiset(names)[n]
  {
    var tally := TallyOf(names);
    var top := TopRepositories(tally);
    TopRepositoriesCorrect(tally);
    forall n, e | n in names && n != "" && n !in Keys(top) && e in top ensures e.1 >= multiset(names)[n] {
      var k := TallyEntryOf(names, n);
      forall j | 0 <= j < |top| ensures top[j] != tally[k] {
        assert Keys(top)[j] == top[j].0;
      }
    }
  }

  /** At the cut-off, of the names with equal counts those seen first are listed. */
  lemma UnlistedTiesSeenLater(names: seq<string>)
    ensures forall n, e :: (n in names && n != "" && n !in Keys(TopRepositories(TallyOf(names)))
                            && e in TopRepositories(TallyOf(names)) && e.1 == multiset(names)[n])
                           ==> FirstIndex(names, e.0) < FirstIndex(names, n)
  {
    var tally := TallyOf(names);
    var sorted := SortByCount(tally);
    var top := TopRepositories(tally);
    TallyOfCorrect(names);
    SortByCountKeepsFirstSeenOrder(tally, names);
    SortByCountPermutes(tally);
    forall n, e | n in names && n != "" && n !in Keys(top) && e in top && e.1 == multiset(names)[n]
      ensures FirstIndex(names, e.0) < FirstIndex(names, n)
    {
      var k := TallyEntryOf(names, n);
      assert tally[k] in multiset(sorted);
      var i :| 0 <= i < |sorted| && sorted[i] == tally[k];
      var j :| 0 <= j < |top| && top[j] == e;
      assert sorted[j] == e;
      assert i >= |top| by {
        forall m | 0 <= m < |top| ensures sorted[m] != tally[k] {
          assert sorted[m] == top[m];
          assert Keys(top)[m] == top[m].0;
        }
      }
      assert RanksBefore(sorted[j], sorted[i], names);
    }
  }
}
