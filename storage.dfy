/** The local record store (services/storage.ts): three collections kept under
    the fixed keys `titanium_routines`, `titanium_logs` and
    `titanium_body_stats`. The JSON text behind each key is modelled by the
    list it encodes, a missing key by the empty list. */
module Storage {
  import opened Types
  import opened Sorting

  /** The index of the first routine with identifier `id`, or -1 (`Array#findIndex`). */
  function IndexOfId(rs: seq<WorkoutRoutine>, id: string): (k: int)
    ensures -1 <= k < |rs|
    ensures k == -1 <==> forall j :: 0 <= j < |rs| ==> rs[j].id != id
    ensures 0 <= k ==> rs[k].id == id && forall j :: 0 <= j < k ==> rs[j].id != id
  {
    if rs == [] then -1
    else if rs[0].id == id then 0
    else
      var k := IndexOfId(rs[1..], id);
      if k == -1 then -1 else k + 1
  }

  /** The routine list after `saveRoutine(r)`: the first record with `r.id` is
      replaced in place, or `r` is appended when there is none. */
  function Upserted(rs: seq<WorkoutRoutine>, r: WorkoutRoutine): (u: seq<WorkoutRoutine>)
    ensures r in u
    ensures |u| == |rs| || u == rs + [r]
    ensures forall x :: x in u ==> x in rs || x == r
  {
    var k := IndexOfId(rs, r.id);
    if k >= 0 then assert rs[k := r][k] == r; rs[k := r]
    else assert (rs + [r])[|rs|] == r; rs + [r]
  }

  /** The routine list after `deleteRoutine(id)`: every record with another identifier, in order. */
  function Without(rs: seq<WorkoutRoutine>, id: string): (w: seq<WorkoutRoutine>)
    ensures |w| <= |rs|
  {
    if rs == [] then []
    else (if rs[0].id == id then [] else [rs[0]]) + Without(rs[1..], id)
  }

  /** Body stats are ordered by their timestamp. */
  function StatDate(b: BodyStat): int { b.date }

  class Store {
    /** `typeof window !== 'undefined'`: outside a browser every read gives
        the empty list and every write does nothing. */
    const isBrowser: bool
    var routines: seq<WorkoutRoutine>
    var logs: seq<WorkoutLog>
    var bodyStats: seq<BodyStat>

    constructor (isBrowser: bool, routines: seq<WorkoutRoutine>, logs: seq<WorkoutLog>, bodyStats: seq<BodyStat>)
      ensures this.isBrowser == isBrowser
      ensures this.routines == routines && this.logs == logs && this.bodyStats == bodyStats
    {
      this.isBrowser := isBrowser;
      this.routines := routines;
      this.logs := logs;
      this.bodyStats := bodyStats;
    }

    /** `getRoutines`: the stored routines in stored order; nothing outside a browser. */
    function GetRoutines(): (r: seq<WorkoutRoutine>)
      reads this
      ensures !isBrowser ==> r == []
      ensures isBrowser ==> r == routines
    {
      if isBrowser then routines else []
    }

    /** `getLogs`: the stored logs in insertion order; nothing outside a browser. */
    function GetLogs(): (r: seq<WorkoutLog>)
      reads this
      ensures !isBrowser ==> r == []
      ensures isBrowser ==> r == logs
    {
      if isBrowser then logs else []
    }

    /** `getBodyStats`: the stored stats sorted ascending by date, stably. */
    function GetBodyStats(): (r: seq<BodyStat>)
      reads this
      ensures !isBrowser ==> r == []
      ensures isBrowser ==> multiset(r) == multiset(bodyStats)
      ensures SortedBy(r, StatDate)
    {
      SortBySorted(bodyStats, StatDate);
      if isBrowser then SortBy(bodyStats, StatDate) else []
    }

    method SaveRoutine(routine: WorkoutRoutine)
      modifies this
      ensures routines == if isBrowser then Upserted(old(routines), routine) else old(routines)
      ensures logs == old(logs) && bodyStats == old(bodyStats)
    {
      if !isBrowser { return; }
      var rs := GetRoutines();
      var existingIndex := IndexOfId(rs, routine.id);
      if existingIndex >= 0 {
        rs := rs[existingIndex := routine];
      } else {
        rs := rs + [routine];
      }
      routines := rs;
    }

    method DeleteRoutine(id: string)
      modifies this
      ensures routines == if isBrowser then Without(old(routines), id) else old(routines)
      ensures logs == old(logs) && bodyStats == old(bodyStats)
    {
      if !isBrowser { return; }
      routines := Without(GetRoutines(), id);
    }

    method SaveLog(log: WorkoutLog)
      modifies this
      ensures logs == if isBrowser then old(logs) + [log] else old(logs)
      ensures routines == old(routines) && bodyStats == old(bodyStats)
    {
      if !isBrowser { return; }
      var ls := GetLogs();
      ls := ls + [log];
      logs := ls;
    }

    /** Stores the sorted list followed by the new stat, so the stored list
        need not be sorted; every read sorts again. */
    method SaveBodyStat(stat: BodyStat)
      modifies this
      ensures bodyStats == if isBrowser then SortBy(old(bodyStats), StatDate) + [stat] else old(bodyStats)
      ensures routines == old(routines) && logs == old(logs)
      ensures GetBodyStats() == if isBrowser then SortBy(old(bodyStats) + [stat], StatDate) else []
    {
      if !isBrowser { return; }
      var stats := GetBodyStats();
      stats := stats + [stat];
      bodyStats := stats;
      SortByAppendSorted(old(bodyStats), stat, StatDate);
    }
  }

  /** The first index holding `id` is the one `IndexOfId` finds. */
  lemma IndexOfIdAt(rs: seq<WorkoutRoutine>, id: string, k: int)
    requires 0 <= k < |rs| && rs[k].id == id
    requires forall j :: 0 <= j < k ==> rs[j].id != id
    ensures IndexOfId(rs, id) == k
  {
    var i := IndexOfId(rs, id);
    assert i != -1;
  }

  /** Upserting a routine whose identifier is present replaces the first
      record with that identifier and leaves the length and every other record alone. */
  lemma UpsertReplaces(rs: seq<WorkoutRoutine>, r: WorkoutRoutine)
    requires exists j :: 0 <= j < |rs| && rs[j].id == r.id
    ensures var k := IndexOfId(rs, r.id);
      && |Upserted(rs, r)| == |rs|
      && 0 <= k && Upserted(rs, r)[k] == r
      && forall j :: 0 <= j < |rs| && j != k ==> Upserted(rs, r)[j] == rs[j]
  {
  }

  /** Upserting a routine with a new identifier appends it after the earlier records. */
  lemma UpsertAppends(rs: seq<WorkoutRoutine>, r: WorkoutRoutine)
    requires forall j :: 0 <= j < |rs| ==> rs[j].id != r.id
    ensures Upserted(rs, r) == rs + [r]
  {
  }

  /** After an upsert, looking the identifier up finds exactly the saved routine. */
  lemma UpsertFinds(rs: seq<WorkoutRoutine>, r: WorkoutRoutine)
    ensures var u := Upserted(rs, r);
      var k := IndexOfId(u, r.id);
      0 <= k && u[k] == r
  {
    var u := Upserted(rs, r);
    var k := IndexOfId(rs, r.id);
    if k >= 0 {
      IndexOfIdAt(u, r.id, k);
    } else {
      IndexOfIdAt(u, r.id, |rs|);
    }
  }

  /** Saving the same routine twice stores the same list as saving it once. */
  lemma UpsertIdempotent(rs: seq<WorkoutRoutine>, r: WorkoutRoutine)
    ensures Upserted(Upserted(rs, r), r) == Upserted(rs, r)
  {
    var u := Upserted(rs, r);
    UpsertFinds(rs, r);
    var k := IndexOfId(rs, r.id);
    if k >= 0 {
      IndexOfIdAt(u, r.id, k);
    } else {
      IndexOfIdAt(u, r.id, |rs|);
    }
  }

  /** A routine is kept by `Without` exactly when it was there and has another identifier. */
  lemma {:induction false} WithoutMembers(rs: seq<WorkoutRoutine>, id: string, x: WorkoutRoutine)
    ensures x in Without(rs, id) <==> x in rs && x.id != id
  {
    if rs != [] {
      WithoutMembers(rs[1..], id, x);
      assert rs == [rs[0]] + rs[1..];
    }
  }

  /** Deleting an identifier that is not stored leaves the list as it is. */
  lemma {:induction false} WithoutAbsent(rs: seq<WorkoutRoutine>, id: string)
    requires forall j :: 0 <= j < |rs| ==> rs[j].id != id
    ensures Without(rs, id) == rs
  {
    if rs != [] {
      WithoutAbsent(rs[1..], id);
      assert rs == [rs[0]] + rs[1..];
    }
  }

  /** Deletion keeps order: it distributes over concatenation. */
  lemma {:induction false} WithoutConcat(a: seq<WorkoutRoutine>, b: seq<WorkoutRoutine>, id: string)
    ensures Without(a + b, id) == Without(a, id) + Without(b, id)
  {
    if a != [] {
      assert (a + b)[1..] == a[1..] + b;
      WithoutConcat(a[1..], b, id);
    } else {
      assert a + b == b;
    }
  }

  /** Replacing a record by one with the same identifier is invisible once that identifier is deleted. */
  lemma {:induction false} WithoutReplaced(rs: seq<WorkoutRoutine>, k: nat, r: WorkoutRoutine)
    requires k < |rs| && rs[k].id == r.id
    ensures Without(rs[k := r], r.id) == Without(rs, r.id)
  {
    var u := rs[k := r];
    assert u[1..] == if k == 0 then rs[1..] else rs[1..][k - 1 := r];
    if k > 0 {
      WithoutReplaced(rs[1..], k - 1, r);
    }
  }

  /** Deleting the identifier of an upserted routine gives the same list as
      deleting it before the upsert: no other record is touched. */
  lemma WithoutUpserted(rs: seq<WorkoutRoutine>, r: WorkoutRoutine)
    ensures Without(Upserted(rs, r), r.id) == Without(rs, r.id)
  {
    var k := IndexOfId(rs, r.id);
    if k >= 0 {
      WithoutReplaced(rs, k, r);
    } else {
      WithoutConcat(rs, [r], r.id);
      assert Without([r], r.id) == [];
    }
  }
}
