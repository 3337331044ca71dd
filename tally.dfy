/** The per-repository interaction tally built from the involvement search:
    each hit's repository URL is turned into a full name, and the tally (an
    insertion-ordered dictionary with default 0) counts the hits per name. */
module Tally {
  import opened Payloads

  /** A tally entry: a repository full name and its number of search hits. */
  type Entry = (string, nat)

  /** `pat` occurs in `s` at index `i`. */
  predicate OccursAt(s: string, pat: string, i: int) {
    0 <= i && i + |pat| <= |s| && s[i..i + |pat|] == pat
  }

  /** `s.replace(pat, "")`: every occurrence of `pat`, found scanning from the left
      and never overlapping, removed. With an empty `pat` nothing changes. */
  function RemoveAll(s: string, pat: string): (r: string)
    ensures |r| <= |s|
    decreases |s|
  {
    if |pat| == 0 || |s| < |pat| then s
    else if s[..|pat|] == pat then RemoveAll(s[|pat|..], pat)
    else [s[0]] + RemoveAll(s[1..], pat)
  }

  /** A string in which `pat` does not occur is left as it is. */
  lemma {:induction false} RemoveAllAbsent(s: string, pat: string)
    requires forall i :: !OccursAt(s, pat, i)
    ensures RemoveAll(s, pat) == s
    decreases |s|
  {
    if |pat| != 0 && |s| >= |pat| {
      assert !OccursAt(s, pat, 0);
      forall i ensures !OccursAt(s[1..], pat, i) {
        if 0 <= i && i + |pat| <= |s| - 1 {
          assert s[1..][i..i + |pat|] == s[i + 1..i + 1 + |pat|];
          assert !OccursAt(s, pat, i + 1);
        }
      }
      RemoveAllAbsent(s[1..], pat);
    }
  }

  /** The repository full name of a search hit: its repository URL with the
      `<base>/repos/` prefix removed (wherever it occurs). */
  function RepoName(url: string, base: string): string {
    RemoveAll(url, base + "/repos/")
  }

  /** Derivation inverts the host's URL scheme: the repository URL of `name`
      under `base` yields `name` back, provided the prefix does not recur in it. */
  lemma RepoNameOfRepositoryUrl(base: string, name: string)
    requires forall i :: !OccursAt(name, base + "/repos/", i)
    ensures RepoName(base + "/repos/" + name, base) == name
  {
    var pat := base + "/repos/";
    var url := pat + name;
    assert url[..|pat|] == pat;
    assert url[|pat|..] == name;
    RemoveAllAbsent(name, pat);
  }

  /** The derived names of the search hits, in search order. */
  function RepoNames(items: seq<SearchItem>, base: string): (names: seq<string>)
    ensures |names| == |items|
    ensures forall i :: 0 <= i < |items| ==> names[i] == RepoName(items[i].repositoryUrl, base)
  {
    if items == [] then []
    else RepoNames(items[..|items| - 1], base) + [RepoName(items[|items| - 1].repositoryUrl, base)]
  }

  /** The keys of a tally, in insertion order (`repo_contributions.keys()`). */
  function Keys(t: seq<Entry>): seq<string> {
    seq(|t|, i requires 0 <= i < |t| => t[i].0)
  }

  /** No key appears twice. */
  predicate Distinct(t: seq<Entry>) {
    forall i, j :: 0 <= i < j < |t| ==> t[i].0 != t[j].0
  }

  /** `tally[key] += 1` on an insertion-ordered dictionary whose default is 0. */
  function Bump(t: seq<Entry>, key: string): (r: seq<Entry>)
    ensures |t| <= |r| <= |t| + 1
  {
    if t == [] then [(key, 1)]
    else if t[0].0 == key then [(key, t[0].1 + 1)] + t[1..]
    else [t[0]] + Bump(t[1..], key)
  }

  /** Bumping a present key increments its entry in place and changes nothing else. */
  lemma {:induction false} BumpPresent(t: seq<Entry>, key: string, k: nat)
    requires Distinct(t) && k < |t| && t[k].0 == key
    ensures Bump(t, key) == t[k := (key, t[k].1 + 1)]
  {
    if t[0].0 != key {
      assert Distinct(t[1..]) by {
        forall i, j | 0 <= i < j < |t| - 1 ensures t[1..][i].0 != t[1..][j].0 {
          assert t[1..][i] == t[i + 1] && t[1..][j] == t[j + 1];
        }
      }
      BumpPresent(t[1..], key, k - 1);
      assert [t[0]] + t[1..][k - 1 := (key, t[k].1 + 1)] == t[k := (key, t[k].1 + 1)];
    } else {
      assert k == 0;
    }
  }

  /** Bumping an absent key appends it with count 1. */
  lemma {:induction false} BumpAbsent(t: seq<Entry>, key: string)
    requires key !in Keys(t)
    ensures Bump(t, key) == t + [(key, 1)]
  {
    if t != [] {
      assert Keys(t)[0] == t[0].0;
      assert key !in Keys(t[1..]) by {
        forall i | 0 <= i < |t| - 1 ensures Keys(t[1..])[i] != key {
          assert Keys(t)[i + 1] == t[i + 1].0;
        }
      }
      BumpAbsent(t[1..], key);
      assert [t[0]] + (t[1..] + [(key, 1)]) == t + [(key, 1)];
    }
  }

  /** The tally after the search loop: every non-empty name is bumped, in order. */
  function TallyOf(names: seq<string>): seq<Entry> {
    if names == [] then []
    else
      var t := TallyOf(names[..|names| - 1]);
      var name := names[|names| - 1];
      if name == "" then t else Bump(t, name)
  }

  /** The index of the first occurrence of `x` in `s` (`|s|` when absent). */
  function FirstIndex(s: seq<string>, x: string): nat {
    if s == [] || s[0] == x then 0 else 1 + FirstIndex(s[1..], x)
  }

  lemma {:induction false} FirstIndexAppend(s: seq<string>, y: string, x: string)
    ensures x in s ==> FirstIndex(s + [y], x) == FirstIndex(s, x) < |s|
    ensures x !in s && y == x ==> FirstIndex(s + [y], x) == |s|
  {
    if s != [] {
      assert (s + [y])[0] == s[0];
      assert (s + [y])[1..] == s[1..] + [y];
      if s[0] != x {
        FirstIndexAppend(s[1..], y, x);
      }
    }
  }

  /** Each key is a non-empty name that occurs, counted as often as it occurs. */
  ghost predicate CountsOccurrences(t: seq<Entry>, names: seq<string>) {
    forall i :: 0 <= i < |t| ==> t[i].0 != "" && t[i].0 in names && t[i].1 == multiset(names)[t[i].0]
  }

  /** Every non-empty name is a key. */
  ghost predicate Covers(t: seq<Entry>, names: seq<string>) {
    forall n :: n in names && n != "" ==> n in Keys(t)
  }

  /** Keys are ordered by the first occurrence of their name. */
  ghost predicate FirstSeenOrder(t: seq<Entry>, names: seq<string>) {
    forall i, j :: 0 <= i < j < |t| ==> FirstIndex(names, t[i].0) < FirstIndex(names, t[j].0)
  }

  /** What the tally means, independently of how it is built: its keys are the
      distinct non-empty names, in the order of their first occurrence, and each
      count is that name's number of occurrences. */
  ghost predicate Tallies(t: seq<Entry>, names: seq<string>) {
    Distinct(t) && CountsOccurrences(t, names) && Covers(t, names) && FirstSeenOrder(t, names)
  }

  lemma {:induction false} TallyOfCorrect(names: seq<string>)
    ensures Tallies(TallyOf(names), names)
  {
    if names != [] {
      var p, x := names[..|names| - 1], names[|names| - 1];
      assert names == p + [x];
      TallyOfCorrect(p);
      var t0 := TallyOf(p);
      forall k ensures (k in p ==> FirstIndex(names, k) == FirstIndex(p, k) < |p|)
                    && (k !in p && x == k ==> FirstIndex(names, k) == |p|) {
        FirstIndexAppend(p, x, k);
      }
      assert forall k :: multiset(names)[k] == multiset(p)[k] + (if k == x then 1 else 0);
      if x == "" {
        TallyStepEmpty(names, p, t0);
      } else if x in Keys(t0) {
        var k :| 0 <= k < |t0| && Keys(t0)[k] == x;
        BumpPresent(t0, x, k);
        TallyStepBump(names, p, x, t0, k);
      } else {
        BumpAbsent(t0, x);
        TallyStepNew(names, p, x, t0);
      }
    }
  }

  /** The step of TallyOfCorrect for a hit whose name is empty. */
  lemma TallyStepEmpty(names: seq<string>, p: seq<string>, t0: seq<Entry>)
    requires names == p + [""] && Tallies(t0, p)
    requires forall k :: k in p ==> FirstIndex(names, k) == FirstIndex(p, k)
    requires forall k :: multiset(names)[k] == multiset(p)[k] + (if k == "" then 1 else 0)
    ensures Tallies(t0, names)
  {
    assert CountsOccurrences(t0, names) by {
      forall i | 0 <= i < |t0| ensures t0[i].0 in names && t0[i].1 == multiset(names)[t0[i].0] {
        assert t0[i].0 != "";
      }
    }
    assert Covers(t0, names) by {
      forall n | n in names && n != "" ensures n in Keys(t0) {
        assert n in p;
      }
    }
    assert FirstSeenOrder(t0, names) by {
      forall i, j | 0 <= i < j < |t0| ensures FirstIndex(names, t0[i].0) < FirstIndex(names, t0[j].0) {
        assert t0[i].0 in p && t0[j].0 in p;
      }
    }
  }

  /** The step of TallyOfCorrect for a name that is already a key. */
  lemma TallyStepBump(names: seq<string>, p: seq<string>, x: string, t0: seq<Entry>, k: nat)
    requires names == p + [x] && Tallies(t0, p) && x != ""
    requires k < |t0| && t0[k].0 == x
    requires forall k :: k in p ==> FirstIndex(names, k) == FirstIndex(p, k)
    requires forall k :: multiset(names)[k] == multiset(p)[k] + (if k == x then 1 else 0)
    ensures Tallies(t0[k := (x, t0[k].1 + 1)], names)
  {
    var t := t0[k := (x, t0[k].1 + 1)];
    assert forall i :: 0 <= i < |t| ==> t[i].0 == t0[i].0;
    assert Distinct(t);
    assert CountsOccurrences(t, names) by {
      forall i | 0 <= i < |t| ensures t[i].0 != "" && t[i].0 in names && t[i].1 == multiset(names)[t[i].0] {
        if i != k {
          assert t0[i].0 != x;
        }
      }
    }
    assert Covers(t, names) by {
      forall n | n in names && n != "" ensures n in Keys(t) {
        if n != x {
          assert n in p;
          var i :| 0 <= i < |t0| && Keys(t0)[i] == n;
          assert Keys(t)[i] == n;
        } else {
          assert Keys(t)[k] == n;
        }
      }
    }
    assert FirstSeenOrder(t, names) by {
      forall i, j | 0 <= i < j < |t| ensures FirstIndex(names, t[i].0) < FirstIndex(names, t[j].0) {
        assert t0[i].0 in p && t0[j].0 in p;
      }
    }
  }

  /** The step of TallyOfCorrect for a name seen for the first time. */
  lemma TallyStepNew(names: seq<string>, p: seq<string>, x: string, t0: seq<Entry>)
    requires names == p + [x] && Tallies(t0, p) && x != "" && x !in Keys(t0)
    requires forall k :: (k in p ==> FirstIndex(names, k) == FirstIndex(p, k) < |p|)
                      && (k !in p && x == k ==> FirstIndex(names, k) == |p|)
    requires forall k :: multiset(names)[k] == multiset(p)[k] + (if k == x then 1 else 0)
    ensures Tallies(t0 + [(x, 1)], names)
  {
    var t := t0 + [(x, 1)];
    assert x !in p;
    forall i | 0 <= i < |t0| ensures t0[i].0 != x {
      assert Keys(t0)[i] == t0[i].0;
    }
    assert Distinct(t);
    assert CountsOccurrences(t, names) by {
      forall i | 0 <= i < |t| ensures t[i].0 != "" && t[i].0 in names && t[i].1 == multiset(names)[t[i].0] {
        if i < |t0| {
          assert t[i] == t0[i];
        }
      }
    }
    assert Covers(t, names) by {
      forall n | n in names && n != "" ensures n in Keys(t) {
        if n != x {
          assert n in p;
          var i :| 0 <= i < |t0| && Keys(t0)[i] == n;
          assert Keys(t)[i] == n;
        } else {
          assert Keys(t)[|t0|] == n;
        }
      }
    }
    assert FirstSeenOrder(t, names) by {
      forall i, j | 0 <= i < j < |t| ensures FirstIndex(names, t[i].0) < FirstIndex(names, t[j].0) {
        assert t[i] == t0[i] && t0[i].0 in p;
        if j < |t0| {
          assert t[j] == t0[j] && t0[j].0 in p;
        }
      }
    }
  }

  /** The search loop (`for item in repos_data.get('items', [])`): derive each
      hit's name and, when it is non-empty, bump its count. */
  method BuildTally(items: seq<SearchItem>, base: string) returns (t: seq<Entry>)
    ensures t == TallyOf(RepoNames(items, base))
  {
    t := [];
    for i := 0 to |items|
      invariant t == TallyOf(RepoNames(items[..i], base))
    {
      assert items[..i + 1][..i] == items[..i];
      var name := RepoName(items[i].repositoryUrl, base);
      if name != "" {
        t := Bump(t, name);
      }
    }
    assert items[..|items|] == items;
  }
}
