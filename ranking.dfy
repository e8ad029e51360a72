/**
 * The leaderboard order and the grand total (`sorted(..., reverse=True)` and
 * `sum(...)` in `leaderboard`, main.py).
 */
module Ranking {

  /** One row of the results: device name, kilometres travelled, average km/h. */
  datatype Entry = Entry(name: string, distanceKm: real, speedKmh: real)

  /** Distances never increase along the board. */
  predicate SortedDesc(s: seq<Entry>)
  {
    forall i, j :: 0 <= i < j < |s| ==> s[i].distanceKm >= s[j].distanceKm
  }

  /** The entries whose distance is exactly `km`, in their order in `s`. */
  function WithDistance(s: seq<Entry>, km: real): (tied: seq<Entry>)
  {
    if s == [] then []
    else (if s[0].distanceKm == km then [s[0]] else []) + WithDistance(s[1..], km)
  }

  /**
   * `s` is a stable rearrangement of `t`: for every distance, the entries
   * with that distance appear in the same order in both.
   */
  ghost predicate StableOf(s: seq<Entry>, t: seq<Entry>)
  {
    forall km: real :: WithDistance(s, km) == WithDistance(t, km)
  }

  /** Places `e` before the first entry that is not farther than it. */
  function Insert(e: Entry, t: seq<Entry>): (r: seq<Entry>)
    ensures multiset(r) == multiset(t) + multiset{e}
    ensures r[0] == e || r[0] == t[0]
  {
    if t == [] || e.distanceKm >= t[0].distanceKm then [e] + t
    else
      assert t == [t[0]] + t[1..];
      [t[0]] + Insert(e, t[1..])
  }

  /** The board: `results` sorted by distance, farthest first, ties kept in their original order. */
  function RankByDistance(results: seq<Entry>): (board: seq<Entry>)
    ensures multiset(board) == multiset(results)
    ensures SortedDesc(board)
  {
    if results == [] then []
    else
      assert results == [results[0]] + results[1..];
      var rest := RankByDistance(results[1..]);
      InsertSorted(results[0], rest);
      Insert(results[0], rest)
  }

  /** A head that is at least the next entry extends a sorted board. */
  lemma ConsSorted(x: Entry, s: seq<Entry>)
    requires SortedDesc(s)
    requires s != [] ==> x.distanceKm >= s[0].distanceKm
    ensures SortedDesc([x] + s)
  {
    var r := [x] + s;
    forall i, j | 0 <= i < j < |r|
      ensures r[i].distanceKm >= r[j].distanceKm
    {
      if i == 0 && j > 1 {
        assert r[j] == s[j - 1];
      }
    }
  }

  /** Insertion keeps a board sorted. */
  lemma {:induction false} InsertSorted(e: Entry, t: seq<Entry>)
    requires SortedDesc(t)
    ensures SortedDesc(Insert(e, t))
  {
    if t == [] || e.distanceKm >= t[0].distanceKm {
      ConsSorted(e, t);
    } else {
      var tail := t[1..];
      InsertSorted(e, tail);
      var rest := Insert(e, tail);
      ConsSorted(t[0], rest);
    }
  }

  /** The sum of all entries' distances. */
  function TotalDistance(s: seq<Entry>): (sum: real)
    ensures (forall i :: 0 <= i < |s| ==> s[i].distanceKm >= 0.0) ==> sum >= 0.0
  {
    if s == [] then 0.0 else s[0].distanceKm + TotalDistance(s[1..])
  }

  lemma {:induction false} WithDistanceAppend(a: seq<Entry>, b: seq<Entry>, km: real)
    ensures WithDistance(a + b, km) == WithDistance(a, km) + WithDistance(b, km)
  {
    if a == [] {
      assert a + b == b;
    } else {
      var h := if a[0].distanceKm == km then [a[0]] else [];
      assert (a + b)[0] == a[0];
      assert (a + b)[1..] == a[1..] + b;
      assert WithDistance(a + b, km) == h + WithDistance(a[1..] + b, km);
      WithDistanceAppend(a[1..], b, km);
    }
  }

  lemma WithDistanceSingle(x: Entry, km: real)
    ensures WithDistance([x], km) == if x.distanceKm == km then [x] else []
  {
    assert [x][1..] == [];
  }

  /** Inserting puts `e` ahead of the entries that tie with it. */
  lemma {:induction false} InsertStable(e: Entry, t: seq<Entry>, km: real)
    ensures WithDistance(Insert(e, t), km) == WithDistance([e], km) + WithDistance(t, km)
  {
    if t == [] || e.distanceKm >= t[0].distanceKm {
      WithDistanceAppend([e], t, km);
    } else {
      var t1 := t[1..];
      InsertStable(e, t1, km);
      assert t == [t[0]] + t1;
      PassHead(t[0], e, Insert(e, t1), t1, km);
    }
  }

  /** A head farther than `e` cannot tie with it, so `e` may pass it. */
  lemma PassHead(head: Entry, e: Entry, rest: seq<Entry>, t1: seq<Entry>, km: real)
    requires e.distanceKm < head.distanceKm
    requires WithDistance(rest, km) == WithDistance([e], km) + WithDistance(t1, km)
    ensures WithDistance([head] + rest, km) == WithDistance([e], km) + WithDistance([head] + t1, km)
  {
    WithDistanceCons(head, rest, km);
    WithDistanceCons(head, t1, km);
    WithDistanceSingle(e, km);
    if e.distanceKm == km {
      assert head.distanceKm != km;
    } else {
    }
  }

  lemma WithDistanceCons(x: Entry, s: seq<Entry>, km: real)
    ensures WithDistance([x] + s, km) == (if x.distanceKm == km then [x] else []) + WithDistance(s, km)
  {
    assert ([x] + s)[0] == x;
    assert ([x] + s)[1..] == s;
  }

  /** The ranking is stable: entries with equal distance keep their relative order. */
  lemma {:induction false} RankStable(results: seq<Entry>)
    ensures StableOf(RankByDistance(results), results)
  {
    if results != [] {
      RankStable(results[1..]);
      forall km: real
        ensures WithDistance(RankByDistance(results), km) == WithDistance(results, km)
      {
        InsertStable(results[0], RankByDistance(results[1..]), km);
        WithDistanceAppend([results[0]], results[1..], km);
        assert [results[0]] + results[1..] == results;
      }
    }
  }

  lemma {:induction false} TotalDistanceAppend(a: seq<Entry>, b: seq<Entry>)
    ensures TotalDistance(a + b) == TotalDistance(a) + TotalDistance(b)
  {
    if a == [] {
      assert a + b == b;
    } else {
      assert (a + b)[0] == a[0];
      assert (a + b)[1..] == a[1..] + b;
      TotalDistanceAppend(a[1..], b);
    }
  }

  /** Taking entry `i` out of `t` takes its distance off the total. */
  lemma TotalDistanceWithout(t: seq<Entry>, i: nat)
    requires i < |t|
    ensures TotalDistance(t) == t[i].distanceKm + TotalDistance(t[..i] + t[i + 1..])
  {
    var a, x, b := t[..i], t[i], t[i + 1..];
    assert t == a + ([x] + b);
    TotalDistanceAppend(a, [x] + b);
    TotalDistanceAppend(a, b);
    assert ([x] + b)[1..] == b;
  }

  lemma MultisetWithout(t: seq<Entry>, i: nat)
    requires i < |t|
    ensures multiset(t[..i] + t[i + 1..]) == multiset(t) - multiset{t[i]}
  {
    assert t == t[..i] + [t[i]] + t[i + 1..];
  }

  /** The total does not depend on the order in which the entries are listed. */
  lemma {:induction false} TotalDistanceOrderFree(s: seq<Entry>, t: seq<Entry>)
    requires multiset(s) == multiset(t)
    ensures TotalDistance(s) == TotalDistance(t)
    decreases |s|
  {
    if s == [] {
    } else {
      var x := s[0];
      assert s == [x] + s[1..];
      assert x in multiset(t);
      var i :| 0 <= i < |t| && t[i] == x;
      MultisetWithout(t, i);
      assert multiset(s[1..]) == multiset(s) - multiset{x};
      TotalDistanceOrderFree(s[1..], t[..i] + t[i + 1..]);
      TotalDistanceWithout(t, i);
    }
  }

  /** The total of the board is the total of the results it ranks. */
  lemma RankedTotal(results: seq<Entry>)
    ensures TotalDistance(RankByDistance(results)) == TotalDistance(results)
  {
    TotalDistanceOrderFree(RankByDistance(results), results);
  }

  /** Every row of the board is one of the results. */
  lemma RankedEntryIsResult(results: seq<Entry>, e: Entry)
    requires e in RankByDistance(results)
    ensures e in results
  {
    assert e in multiset(RankByDistance(results));
  }

  /** The first entry of the board has the greatest distance of all results. */
  lemma LeaderIsFarthest(results: seq<Entry>)
    requires results != []
    ensures RankByDistance(results) != []
    ensures forall e | e in results :: RankByDistance(results)[0].distanceKm >= e.distanceKm
  {
    var board := RankByDistance(results);
    forall e | e in results
      ensures board[0].distanceKm >= e.distanceKm
    {
      assert e in multiset(board);
      var j :| 0 <= j < |board| && board[j] == e;
    }
  }

  lemma {:induction false} WithDistanceMember(s: seq<Entry>, km: real, x: Entry)
    requires x in WithDistance(s, km)
    ensures x in s && x.distanceKm == km
  {
    if s != [] {
      if x != s[0] || s[0].distanceKm != km {
        WithDistanceMember(s[1..], km, x);
      }
    }
  }

  lemma WithDistanceHead(s: seq<Entry>)
    requires s != []
    ensures WithDistance(s, s[0].distanceKm) == [s[0]] + WithDistance(s[1..], s[0].distanceKm)
  {
  }

  /**
   * A sorted, stable rearrangement is unique: any two boards that are sorted
   * by distance and agree on the order of every group of ties are equal.
   */
  lemma {:induction false} SortedStableUnique(a: seq<Entry>, b: seq<Entry>)
    requires SortedDesc(a) && SortedDesc(b) && StableOf(a, b)
    ensures a == b
    decreases |a|
  {
    if b != [] {
      WithDistanceHead(b);
    }
    if a != [] {
      var ka := a[0].distanceKm;
      WithDistanceHead(a);
      assert a[0] in WithDistance(b, ka) by {
        assert WithDistance(a, ka) == WithDistance(b, ka);
      }
      WithDistanceMember(b, ka, a[0]);
      var kb := b[0].distanceKm;
      assert b[0] in WithDistance(a, kb) by {
        assert WithDistance(a, kb) == WithDistance(b, kb);
      }
      WithDistanceMember(a, kb, b[0]);
      assert ka == kb;
      assert a[0] == b[0] by {
        assert WithDistance(a, ka)[0] == a[0];
        assert WithDistance(a, ka) == WithDistance(b, ka);
      }
      var a', b' := a[1..], b[1..];
      forall km: real
        ensures WithDistance(a', km) == WithDistance(b', km)
      {
        var h := if a[0].distanceKm == km then [a[0]] else [];
        assert WithDistance(a, km) == h + WithDistance(a', km);
        assert WithDistance(b, km) == h + WithDistance(b', km);
        assert (h + WithDistance(a', km))[|h|..] == WithDistance(a', km);
        assert (h + WithDistance(b', km))[|h|..] == WithDistance(b', km);
      }
      SortedStableUnique(a', b');
    }
  }


  /**
   * Any board that is sorted by distance and keeps ties in their original
   * order is exactly `RankByDistance(results)`.
   */
  lemma RankIsTheStableSort(results: seq<Entry>, board: seq<Entry>)
    requires SortedDesc(board) && StableOf(board, results)
    ensures board == RankByDistance(results)
  {
    RankStable(results);
    SortedStableUnique(board, RankByDistance(results));
  }
}
