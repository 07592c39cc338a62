/**
 * The local leaderboard of the race-finished scene
 * (client/src/game/scenes/RaceFinishedScene.ts): the new score is pushed onto
 * the stored list, the list is sorted by time, fastest first, and only the
 * first ten entries are kept. `Array.prototype.sort` is stable, so the sort
 * is modelled by insertion sort, which keeps entries with equal times in
 * their original order.
 */
module Leaderboard {
  import opened Wrappers

  /** How many scores the leaderboard keeps. */
  const MaxScores: nat := 10

  datatype Score = Score(username: string, time: real)

  /** The list read back from storage; a missing one counts as empty. */
  function Stored(stored: Option<seq<Score>>): seq<Score>
  {
    if stored.Some? then stored.value else []
  }

  predicate Sorted(s: seq<Score>)
  {
    forall i, j :: 0 <= i < j < |s| ==> s[i].time <= s[j].time
  }

  /** The entries of `s` whose time is `t`, in order. */
  function WithTime(s: seq<Score>, t: real): seq<Score>
  {
    if s == [] then []
    else (if s[0].time == t then [s[0]] else []) + WithTime(s[1..], t)
  }

  /** The number of entries of `s` with time at most `t`. */
  function CountAtMost(s: seq<Score>, t: real): nat
  {
    if s == [] then 0
    else (if s[0].time <= t then 1 else 0) + CountAtMost(s[1..], t)
  }

  /** Places `x` after every entry whose time is not greater than its own. */
  function Insert(s: seq<Score>, x: Score): (r: seq<Score>)
    ensures |r| == |s| + 1
  {
    if s == [] then [x]
    else if x.time < s[0].time then [x] + s
    else [s[0]] + Insert(s[1..], x)
  }

  /** The stable sort by ascending time: each entry in turn inserted after its equals. */
  function SortByTime(s: seq<Score>): (r: seq<Score>)
    ensures |r| == |s|
  {
    if s == [] then [] else Insert(SortByTime(s[..|s| - 1]), s[|s| - 1])
  }

  lemma {:induction false} WithTimeAppend(a: seq<Score>, b: seq<Score>, t: real)
    ensures WithTime(a + b, t) == WithTime(a, t) + WithTime(b, t)
  {
    if a == [] {
      assert a + b == b;
    } else {
      var head := if a[0].time == t then [a[0]] else [];
      WithTimeAppend(a[1..], b, t);
      assert (a + b)[0] == a[0];
      assert (a + b)[1..] == a[1..] + b;
      calc {
        WithTime(a + b, t);
        head + WithTime(a[1..] + b, t);
        head + (WithTime(a[1..], t) + WithTime(b, t));
        (head + WithTime(a[1..], t)) + WithTime(b, t);
      }
    }
  }

  lemma {:induction false} WithTimeAbsent(s: seq<Score>, t: real)
    requires forall i :: 0 <= i < |s| ==> s[i].time != t
    ensures WithTime(s, t) == []
  {
    if s != [] {
      WithTimeAbsent(s[1..], t);
    }
  }

  lemma WithTimeSingle(x: Score, t: real)
    ensures WithTime([x], t) == if x.time == t then [x] else []
  {
    assert [x][1..] == [];
  }

  lemma CountAtMostSingle(x: Score, t: real)
    ensures CountAtMost([x], t) == if x.time <= t then 1 else 0
  {
    assert [x][1..] == [];
  }

  lemma {:induction false} CountAtMostAppend(a: seq<Score>, b: seq<Score>, t: real)
    ensures CountAtMost(a + b, t) == CountAtMost(a, t) + CountAtMost(b, t)
  {
    if a == [] {
      assert a + b == b;
    } else {
      CountAtMostAppend(a[1..], b, t);
      assert (a + b)[1..] == a[1..] + b;
    }
  }

  /** In a sorted list the entries with time at most `t` are exactly a prefix. */
  lemma {:induction false} CountAtMostSplit(s: seq<Score>, t: real)
    requires Sorted(s)
    ensures CountAtMost(s, t) <= |s|
    ensures forall i :: 0 <= i < CountAtMost(s, t) ==> s[i].time <= t
    ensures forall j :: CountAtMost(s, t) <= j < |s| ==> s[j].time > t
  {
    if s != [] {
      CountAtMostSplit(s[1..], t);
    }
  }

  /** Inserting into a sorted list puts `x` right after the entries no slower than it. */
  lemma {:induction false} InsertSplit(s: seq<Score>, x: Score)
    requires Sorted(s)
    ensures CountAtMost(s, x.time) <= |s|
    ensures Insert(s, x) == s[..CountAtMost(s, x.time)] + [x] + s[CountAtMost(s, x.time)..]
  {
    if s == [] {
      return;
    }
    var k := CountAtMost(s, x.time);
    if x.time < s[0].time {
      CountAtMostSplit(s, x.time);
      assert k == 0;
    } else {
      var rest := s[1..];
      assert Sorted(rest);
      InsertSplit(rest, x);
      var k' := CountAtMost(rest, x.time);
      assert k == k' + 1;
      assert [s[0]] + rest[..k'] == s[..k];
      assert rest[k'..] == s[k..];
    }
  }

  /** Two sorted lists, the first no slower anywhere than the second, concatenate to a sorted list. */
  lemma SortedConcat(a: seq<Score>, b: seq<Score>)
    requires Sorted(a) && Sorted(b)
    requires forall i, j :: 0 <= i < |a| && 0 <= j < |b| ==> a[i].time <= b[j].time
    ensures Sorted(a + b)
  {
    forall i, j | 0 <= i < j < |a + b| ensures (a + b)[i].time <= (a + b)[j].time {
      if j < |a| {
        assert (a + b)[i] == a[i] && (a + b)[j] == a[j];
      } else if i >= |a| {
        assert (a + b)[i] == b[i - |a|] && (a + b)[j] == b[j - |a|];
      } else {
        assert (a + b)[i] == a[i] && (a + b)[j] == b[j - |a|];
      }
    }
  }

  /** Inserting into a sorted list keeps it sorted. */
  lemma InsertSorted(s: seq<Score>, x: Score)
    requires Sorted(s)
    ensures Sorted(Insert(s, x))
  {
    InsertSplit(s, x);
    CountAtMostSplit(s, x.time);
    var k := CountAtMost(s, x.time);
    var lo, hi := s[..k], s[k..];
    assert Sorted(lo) && Sorted(hi);
    SortedConcat(lo, [x]);
    SortedConcat(lo + [x], hi);
  }

  /** Inserting adds exactly `x` to the entries, wherever it lands. */
  lemma {:induction false} InsertPermutation(s: seq<Score>, x: Score)
    ensures multiset(Insert(s, x)) == multiset(s) + multiset{x}
  {
    if s != [] && x.time >= s[0].time {
      InsertPermutation(s[1..], x);
      assert s == [s[0]] + s[1..];
    }
  }

  /** Inserting into a sorted list places `x` after every other entry with its time. */
  lemma {:induction false} InsertWithTime(s: seq<Score>, x: Score, t: real)
    requires Sorted(s)
    ensures WithTime(Insert(s, x), t) == WithTime(s, t) + (if x.time == t then [x] else [])
  {
    var own := if x.time == t then [x] else [];
    if s == [] {
      WithTimeSingle(x, t);
    } else if x.time < s[0].time {
      assert ([x] + s)[1..] == s;
      if x.time == t {
        forall i | 0 <= i < |s| ensures s[i].time != t {
          assert s[0].time <= s[i].time;
        }
        WithTimeAbsent(s, t);
      }
    } else {
      var head := if s[0].time == t then [s[0]] else [];
      assert Sorted(s[1..]);
      InsertWithTime(s[1..], x, t);
      assert ([s[0]] + Insert(s[1..], x))[1..] == Insert(s[1..], x);
      calc {
        WithTime(Insert(s, x), t);
        head + WithTime(Insert(s[1..], x), t);
        head + (WithTime(s[1..], t) + own);
        (head + WithTime(s[1..], t)) + own;
      }
    }
  }

  /** Inserting `x` adds one to the count at `t` exactly when `x` is no slower than `t`. */
  lemma {:induction false} InsertCountAtMost(s: seq<Score>, x: Score, t: real)
    ensures CountAtMost(Insert(s, x), t) == CountAtMost(s, t) + (if x.time <= t then 1 else 0)
  {
    if s == [] {
      CountAtMostSingle(x, t);
    } else if x.time < s[0].time {
      assert ([x] + s)[1..] == s;
    } else {
      InsertCountAtMost(s[1..], x, t);
      assert ([s[0]] + Insert(s[1..], x))[1..] == Insert(s[1..], x);
    }
  }

  lemma {:induction false} SortByTimeSorted(s: seq<Score>)
    ensures Sorted(SortByTime(s))
  {
    if s != [] {
      SortByTimeSorted(s[..|s| - 1]);
      InsertSorted(SortByTime(s[..|s| - 1]), s[|s| - 1]);
    }
  }

  lemma {:induction false} SortByTimePermutation(s: seq<Score>)
    ensures multiset(SortByTime(s)) == multiset(s)
  {
    if s != [] {
      var init, x := s[..|s| - 1], s[|s| - 1];
      SortByTimePermutation(init);
      InsertPermutation(SortByTime(init), x);
      assert s == init + [x];
    }
  }

  /** The sort yields an ascending permutation of its input. */
  lemma SortByTimeSortedPermutation(s: seq<Score>)
    ensures Sorted(SortByTime(s))
    ensures multiset(SortByTime(s)) == multiset(s)
    ensures |SortByTime(s)| == |s|
  {
    SortByTimeSorted(s);
    SortByTimePermutation(s);
  }

  /** The sort is stable: for every time, the entries with that time keep their relative order. */
  lemma {:induction false} SortByTimeStable(s: seq<Score>, t: real)
    ensures WithTime(SortByTime(s), t) == WithTime(s, t)
  {
    if s != [] {
      var init, x := s[..|s| - 1], s[|s| - 1];
      SortByTimeStable(init, t);
      SortByTimeSortedPermutation(init);
      InsertWithTime(SortByTime(init), x, t);
      assert s == init + [x];
      WithTimeAppend(init, [x], t);
      WithTimeSingle(x, t);
    }
  }

  /** The sort keeps, for every time, the number of entries at most that time. */
  lemma {:induction false} SortByTimeKeepsCount(s: seq<Score>, t: real)
    ensures CountAtMost(SortByTime(s), t) == CountAtMost(s, t)
  {
    if s != [] {
      var init, x := s[..|s| - 1], s[|s| - 1];
      SortByTimeKeepsCount(init, t);
      InsertCountAtMost(SortByTime(init), x, t);
      assert s == init + [x];
      CountAtMostAppend(init, [x], t);
      CountAtMostSingle(x, t);
    }
  }

  /**
   * The leaderboard after a race: the stored list (a missing one counts as
   * empty) with the new score pushed, sorted by time and cut to ten entries.
   */
  method RecordScore(stored: Option<seq<Score>>, newScore: Score) returns (highscores: seq<Score>)
    ensures Sorted(highscores)
    ensures |highscores| == if |Stored(stored)| + 1 < MaxScores then |Stored(stored)| + 1 else MaxScores
    ensures multiset(highscores) <= multiset(Stored(stored) + [newScore])
    ensures forall d, k :: d in multiset(Stored(stored) + [newScore]) - multiset(highscores) && k in highscores
              ==> k.time <= d.time
    ensures stored.None? ==> highscores == [newScore]
    ensures var pos := CountAtMost(Stored(stored), newScore.time);
            (pos < MaxScores ==> pos < |highscores| && highscores[pos] == newScore)
            && (pos >= MaxScores ==> MaxScores <= |Stored(stored)| && highscores == SortByTime(Stored(stored))[..MaxScores])
  {
    highscores := Stored(stored);
    highscores := highscores + [newScore];
    highscores := SortByTime(highscores);
    highscores := highscores[..if |highscores| < MaxScores then |highscores| else MaxScores];
    KeptPrefixOfSorted(Stored(stored) + [newScore], |highscores|);
    RecordScoreFacts(Stored(stored), newScore);
  }

  /** Cutting the sorted list keeps a sorted sub-multiset whose entries are no slower than the dropped ones. */
  lemma KeptPrefixOfSorted(all: seq<Score>, n: nat)
    requires n <= |all|
    ensures var kept := SortByTime(all)[..n];
            && Sorted(kept)
            && multiset(kept) <= multiset(all)
            && forall d, k :: d in multiset(all) - multiset(kept) && k in kept ==> k.time <= d.time
  {
    SortByTimeSortedPermutation(all);
    TopPrefix(SortByTime(all), n);
  }

  /**
   * Where the new score lands: right after every stored entry no slower than
   * it; so it is kept iff fewer than ten stored entries have a time at most its own.
   */
  lemma NewScorePosition(before: seq<Score>, x: Score)
    ensures var sorted := SortByTime(before + [x]);
            var pos := CountAtMost(before, x.time);
            && pos <= |before|
            && sorted == SortByTime(before)[..pos] + [x] + SortByTime(before)[pos..]
  {
    var all := before + [x];
    assert all[..|all| - 1] == before;
    var sb := SortByTime(before);
    SortByTimeSortedPermutation(before);
    SortByTimeKeepsCount(before, x.time);
    InsertSplit(sb, x);
  }

  /** The facts behind RecordScore's contract, about the pure pipeline. */
  lemma RecordScoreFacts(before: seq<Score>, x: Score)
    ensures var sorted := SortByTime(before + [x]);
            var n := if |sorted| < MaxScores then |sorted| else MaxScores;
            var pos := CountAtMost(before, x.time);
            && (pos < MaxScores ==> pos < n && sorted[..n][pos] == x)
            && (pos >= MaxScores ==> MaxScores <= |before| && sorted[..n] == SortByTime(before)[..MaxScores])
  {
    NewScorePosition(before, x);
    var sorted := SortByTime(before + [x]);
    var pos := CountAtMost(before, x.time);
    if pos < MaxScores {
      assert sorted[pos] == x;
    }
  }

  /** The kept prefix of a sorted list: no dropped entry is faster than a kept one. */
  lemma TopPrefix(sorted: seq<Score>, n: nat)
    requires Sorted(sorted) && n <= |sorted|
    ensures multiset(sorted[..n]) <= multiset(sorted)
    ensures forall d, k :: d in multiset(sorted) - multiset(sorted[..n]) && k in sorted[..n] ==> k.time <= d.time
  {
    assert sorted == sorted[..n] + sorted[n..];
    assert multiset(sorted) == multiset(sorted[..n]) + multiset(sorted[n..]);
    forall d, k | d in multiset(sorted) - multiset(sorted[..n]) && k in sorted[..n] ensures k.time <= d.time {
      assert d in multiset(sorted[n..]);
      var j :| 0 <= j < |sorted[n..]| && sorted[n..][j] == d;
      var i :| 0 <= i < n && sorted[..n][i] == k;
      assert sorted[n + j] == d && sorted[i] == k;
    }
  }
}
