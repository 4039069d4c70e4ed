/**
 * The ordering the screening run applies to the classified results:
 * `list.sort(key=lambda x: -x.get("match_score", 0))`. Python's sort is
 * stable, so this orders by score, highest first, and keeps input order
 * among equal scores. It is modelled as a stable insertion sort on sequences.
 */
module Ranking {
  import opened Wrappers
  import opened Records

  /** The score a result is ranked by; a result without one ranks as 0. */
  function SortKey(e: Record): int {
    e.matchScore.GetOr(0)
  }

  /** Scores never increase from left to right. */
  predicate Descending(s: seq<Record>) {
    forall i, j :: 0 <= i < j < |s| ==> SortKey(s[i]) >= SortKey(s[j])
  }

  /** The results of `s` whose score is `k`, in their order in `s`. */
  function WithKey(s: seq<Record>, k: int): seq<Record> {
    if s == [] then []
    else (if SortKey(s[0]) == k then [s[0]] else []) + WithKey(s[1..], k)
  }

  /**
   * Inserts `e` into a descending `s` in front of the first result that does not
   * score higher, so it precedes every result of its own score.
   */
  function Insert(e: Record, s: seq<Record>): (r: seq<Record>)
    requires Descending(s)
    ensures Descending(r)
    ensures multiset(r) == multiset(s) + multiset{e}
    ensures r[0] == e || r[0] == s[0]
  {
    if s == [] || SortKey(e) >= SortKey(s[0]) then
      ConsDescending(e, s);
      [e] + s
    else
      var rest := Insert(e, s[1..]);
      assert s == [s[0]] + s[1..];
      assert s[1..] != [] ==> SortKey(s[0]) >= SortKey(s[1]);
      ConsDescending(s[0], rest);
      [s[0]] + rest
  }

  /** Putting a result in front of a descending sequence keeps it descending if it scores at least as high as the head. */
  lemma ConsDescending(x: Record, t: seq<Record>)
    requires Descending(t)
    requires t == [] || SortKey(x) >= SortKey(t[0])
    ensures Descending([x] + t)
  {
    forall i, j | 0 <= i < j < |t| + 1 ensures SortKey(([x] + t)[i]) >= SortKey(([x] + t)[j]) {
      if i == 0 && j > 1 {
        assert SortKey(t[0]) >= SortKey(t[j - 1]);
      }
    }
  }

  /** Within its own score group `e` lands first; every other group is untouched. */
  lemma {:induction false} InsertGroups(e: Record, s: seq<Record>, k: int)
    requires Descending(s)
    ensures WithKey(Insert(e, s), k) == if SortKey(e) == k then [e] + WithKey(s, k) else WithKey(s, k)
    decreases |s|
  {
    if s == [] || SortKey(e) >= SortKey(s[0]) {
      assert ([e] + s)[1..] == s;
    } else {
      var rest := Insert(e, s[1..]);
      InsertGroups(e, s[1..], k);
      assert ([s[0]] + rest)[1..] == rest;
    }
  }

  /**
   * The sorted results: descending by score, a permutation of the input, and
   * within each score the input order.
   */
  function SortByScore(rs: seq<Record>): (r: seq<Record>)
    ensures Descending(r)
    ensures multiset(r) == multiset(rs)
    ensures forall k :: WithKey(r, k) == WithKey(rs, k)
  {
    if rs == [] then []
    else
      var rest := SortByScore(rs[1..]);
      assert rs == [rs[0]] + rs[1..];
      assert forall k :: WithKey(Insert(rs[0], rest), k) == WithKey(rs, k) by {
        forall k ensures WithKey(Insert(rs[0], rest), k) == WithKey(rs, k) {
          InsertGroups(rs[0], rest, k);
        }
      }
      Insert(rs[0], rest)
  }

  /**
   * The stable descending order is unique: any descending arrangement that keeps
   * the input order within each score is the one `SortByScore` produces.
   */
  lemma SortByScoreUnique(rs: seq<Record>, s: seq<Record>)
    requires Descending(s)
    requires forall k :: WithKey(s, k) == WithKey(rs, k)
    ensures s == SortByScore(rs)
  {
    SameGroupsEqual(s, SortByScore(rs));
  }

  /** Two descending sequences with the same results at every score are equal. */
  lemma {:induction false} SameGroupsEqual(a: seq<Record>, b: seq<Record>)
    requires Descending(a) && Descending(b)
    requires forall k :: WithKey(a, k) == WithKey(b, k)
    ensures a == b
    decreases |a| + |b|
  {
    if a == [] || b == [] {
      if a != [] {
        WithKeyHead(a);
      } else if b != [] {
        WithKeyHead(b);
      }
    } else {
      var m, n := SortKey(a[0]), SortKey(b[0]);
      WithKeyHead(a);
      WithKeyHead(b);
      WithKeyBound(a, n);
      WithKeyBound(b, m);
      assert m == n;
      assert a[0] == b[0];
      forall k ensures WithKey(a[1..], k) == WithKey(b[1..], k) {
        assert WithKey(a, k) == (if m == k then [a[0]] else []) + WithKey(a[1..], k);
        assert WithKey(b, k) == (if m == k then [b[0]] else []) + WithKey(b[1..], k);
        assert WithKey(a, k) == WithKey(b, k);
        if m == k {
          assert WithKey(a[1..], k) == WithKey(a, k)[1..];
          assert WithKey(b[1..], k) == WithKey(b, k)[1..];
        } else {
          assert WithKey(a[1..], k) == WithKey(a, k);
          assert WithKey(b[1..], k) == WithKey(b, k);
        }
      }
      SameGroupsEqual(a[1..], b[1..]);
      assert a == [a[0]] + a[1..] && b == [b[0]] + b[1..];
    }
  }

  /** The first result leads its own score group. */
  lemma WithKeyHead(a: seq<Record>)
    requires a != []
    ensures WithKey(a, SortKey(a[0])) != [] && WithKey(a, SortKey(a[0]))[0] == a[0]
  {
  }

  /** In a descending sequence nothing scores above the first result. */
  lemma {:induction false} WithKeyBound(a: seq<Record>, k: int)
    requires a != [] && Descending(a)
    requires WithKey(a, k) != []
    ensures k <= SortKey(a[0])
    decreases |a|
  {
    if SortKey(a[0]) != k {
      WithKeyBound(a[1..], k);
      assert SortKey(a[1]) <= SortKey(a[0]);
    }
  }
}
