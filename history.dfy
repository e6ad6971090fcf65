/** The history screen (components/History.tsx): the stored logs shown
    newest first, three totals over them, and each session's length in
    whole minutes. */
module History {
  import opened Types
  import opened Sorting
  import Storage

  // ---------------------------------------------------------------------
  // Newest first

  /** The comparator `(a, b) => b.date - a.date` sorts ascending by the
      negated date. */
  function NewestFirstKey(l: WorkoutLog): int { -l.date }

  /** The logs as the screen holds them after mounting: the stored logs,
      sorted in place by the comparator above. */
  function NewestFirst(logs: seq<WorkoutLog>): (r: seq<WorkoutLog>)
    ensures |r| == |logs| && multiset(r) == multiset(logs)
  {
    SortBy(logs, NewestFirstKey)
  }

  /** What the screen lists: the store's logs, newest first. */
  function Shown(store: Storage.Store): (r: seq<WorkoutLog>)
    reads store
    ensures multiset(r) == multiset(store.GetLogs())
  {
    NewestFirst(store.GetLogs())
  }

  /** The list is ordered from the latest date to the earliest. */
  lemma NewestFirstDescending(logs: seq<WorkoutLog>)
    ensures var r := NewestFirst(logs);
      forall i, j :: 0 <= i < j < |r| ==> r[i].date >= r[j].date
  {
    SortBySorted(logs, NewestFirstKey);
    var r := NewestFirst(logs);
    forall i, j | 0 <= i < j < |r| ensures r[i].date >= r[j].date {
      assert NewestFirstKey(r[i]) <= NewestFirstKey(r[j]);
    }
  }

  /** Logs of the same date keep the order in which they were saved: the
      logs of date `d` are those of key `-d`. */
  lemma NewestFirstStable(logs: seq<WorkoutLog>, k: int)
    ensures WithKey(NewestFirst(logs), NewestFirstKey, k) == WithKey(logs, NewestFirstKey, k)
  {
    SortByStable(logs, NewestFirstKey, k);
  }

  /** Logs already ordered from the latest date to the earliest are shown as
      they are; logs of equal date keep their saved order. */
  lemma NewestFirstOfDescending(logs: seq<WorkoutLog>)
    requires forall i, j :: 0 <= i < j < |logs| ==> logs[i].date >= logs[j].date
    ensures NewestFirst(logs) == logs
  {
    assert SortedBy(logs, NewestFirstKey);
    SortBySortedInput(logs, NewestFirstKey);
  }

  // ---------------------------------------------------------------------
  // Totals

  /** `reduce((acc, curr) => acc + f(curr), 0)`. */
  function Sum<T>(s: seq<T>, f: T -> int): (r: int)
    ensures s == [] ==> r == 0
    ensures (forall i :: 0 <= i < |s| ==> f(s[i]) >= 0) ==> r >= 0
  {
    if s == [] then 0 else Sum(s[..|s| - 1], f) + f(s[|s| - 1])
  }

  function DurationOf(l: WorkoutLog): int { l.durationSeconds }

  /** A stored NaN volume comes back from JSON as `null`, which `+` reads as 0. */
  function StoredVolume(l: WorkoutLog): (v: int)
    ensures l.totalVolume.None? ==> v == 0
    ensures l.totalVolume.Some? ==> v == l.totalVolume.value
  {
    match l.totalVolume
    case None => 0
    case Some(v) => v
  }

  datatype Stats = Stats(totalWorkouts: int, totalTime: int, totalVolume: int)

  /** `getStats`: the number of logs, the total seconds and the total volume. */
  function GetStats(logs: seq<WorkoutLog>): (s: Stats)
    ensures s.totalWorkouts == |logs|
    ensures logs == [] ==> s == Stats(0, 0, 0)
  {
    Stats(|logs|, Sum(logs, DurationOf), Sum(logs, StoredVolume))
  }

  /** Sums split over concatenation. */
  lemma {:induction false} SumConcat<T>(a: seq<T>, b: seq<T>, f: T -> int)
    ensures Sum(a + b, f) == Sum(a, f) + Sum(b, f)
  {
    if b == [] {
      assert a + b == a;
    } else {
      var c := a + b;
      assert c[..|c| - 1] == a + b[..|b| - 1];
      assert c[|c| - 1] == b[|b| - 1];
      SumConcat(a, b[..|b| - 1], f);
    }
  }

  /** An element between two parts of a list adds its term to their sums. */
  lemma SumInsert<T>(a: seq<T>, y: T, b: seq<T>, f: T -> int)
    ensures Sum(a + [y] + b, f) == Sum(a + b, f) + f(y)
  {
    SumConcat(a + [y], b, f);
    SumConcat(a, [y], f);
    SumConcat(a, b, f);
    assert Sum([y], f) == f(y) by {
      assert [y][..0] == [];
    }
  }

  /** The multiset of a list with one position cut out. */
  lemma MultisetRemove<T>(t: seq<T>, j: nat)
    requires j < |t|
    ensures multiset(t[..j] + t[j + 1..]) == multiset(t) - multiset{t[j]}
  {
    assert t == t[..j] + [t[j]] + t[j + 1..];
  }

  /** A position holding a member of a list's multiset. */
  lemma PositionOf<T>(t: seq<T>, x: T) returns (j: nat)
    requires x in multiset(t)
    ensures j < |t| && t[j] == x
  {
    assert x in t;
    j :| j < |t| && t[j] == x;
  }

  /** A sum depends only on which elements are summed, not on their order. */
  lemma {:induction false} SumPermutation<T>(s: seq<T>, t: seq<T>, f: T -> int)
    requires multiset(s) == multiset(t)
    ensures Sum(s, f) == Sum(t, f)
    decreases |s|
  {
    if s == [] {
      assert |t| == |multiset(t)| == 0;
    } else {
      var x := s[|s| - 1];
      var init := s[..|s| - 1];
      MultisetRemove(s, |s| - 1);
      assert init + [] == init;
      assert s[|s|..] == [];
      var j := PositionOf(t, x);
      MultisetRemove(t, j);
      SumPermutation(init, t[..j] + t[j + 1..], f);
      assert t == t[..j] + [x] + t[j + 1..];
      SumInsert(t[..j], x, t[j + 1..], f);
    }
  }

  /** The totals do not depend on the order the logs are listed in: sorting
      for display leaves them as computed on the stored order. */
  lemma StatsOfNewestFirst(logs: seq<WorkoutLog>)
    ensures GetStats(NewestFirst(logs)) == GetStats(logs)
  {
    SumPermutation(NewestFirst(logs), logs, DurationOf);
    SumPermutation(NewestFirst(logs), logs, StoredVolume);
  }

  /** Saving one more log adds one workout, its seconds and its volume. */
  lemma StatsAfterSave(logs: seq<WorkoutLog>, log: WorkoutLog)
    ensures var s := GetStats(logs);
      GetStats(logs + [log])
        == Stats(s.totalWorkouts + 1, s.totalTime + log.durationSeconds, s.totalVolume + StoredVolume(log))
  {
    assert (logs + [log])[..|logs|] == logs;
  }

  /** The totals over every log are the totals over any split of them added up. */
  lemma StatsConcat(a: seq<WorkoutLog>, b: seq<WorkoutLog>)
    ensures var sa, sb := GetStats(a), GetStats(b);
      GetStats(a + b)
        == Stats(sa.totalWorkouts + sb.totalWorkouts, sa.totalTime + sb.totalTime, sa.totalVolume + sb.totalVolume)
  {
    SumConcat(a, b, DurationOf);
    SumConcat(a, b, StoredVolume);
  }

  // ---------------------------------------------------------------------
  // Minutes

  /** `Math.floor(durationSeconds / 60)`, shown on each card and exported. */
  function Minutes(durationSeconds: int): (m: int)
    ensures m * 60 <= durationSeconds < m * 60 + 60
  {
    durationSeconds / 60
  }

  /** The minutes of a whole number of minutes plus under a minute are that number. */
  lemma MinutesOf(m: int, s: int)
    requires 0 <= s < 60
    ensures Minutes(m * 60 + s) == m
  {
    var k := Minutes(m * 60 + s);
    assert (k - m) * 60 <= s < (k - m) * 60 + 60;
  }
}
