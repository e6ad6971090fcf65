/** The active-workout screen (components/ActiveWorkout.tsx): the session
    state machine, the rest countdown, the volume estimate and the clock
    display. Time enters as explicit `now` timestamps (milliseconds, what
    `Date.now()` returns) and the one-second interval as `Tick()`. */
module ActiveWorkout {
  import opened Types
  import opened JsString
  import Storage

  // ---------------------------------------------------------------------
  // Volume estimate

  /** `parseInt(reps.split('-')[0] || '0')`: the leading number of the rep
      specification. Only an empty first piece becomes 0; text `parseInt`
      cannot read is NaN, written `None`. */
  function RepCount(reps: string): (n: Option<int>)
    ensures reps == [] || reps[0] == '-' ==> n == Some(0)
  {
    var first := BeforeFirst(reps, '-');
    ParseIntShowInt(0, []);
    assert ShowInt(0) + [] == "0";
    ParseInt(if first == [] then "0" else first)
  }

  /** `weight * sets * reps` for one exercise; NaN when the reps are NaN. */
  function ExerciseVolume(e: Exercise): (v: Option<int>)
    ensures v.Some? <==> RepCount(e.reps).Some?
  {
    match RepCount(e.reps)
    case None => None
    case Some(n) => Some(e.weight * e.sets * n)
  }

  /** Number addition in which NaN absorbs everything. */
  function AddVolume(x: Option<int>, y: Option<int>): (z: Option<int>)
    ensures z.Some? <==> x.Some? && y.Some?
    ensures z.Some? ==> z.value == x.value + y.value
  {
    match (x, y)
    case (Some(a), Some(b)) => Some(a + b)
    case _ => None
  }

  /** `reduce((acc, x) => acc + f(x), 0)`: a left fold of NaN-absorbing sums. */
  function SumVolumes<T>(s: seq<T>, f: T -> Option<int>): (r: Option<int>)
    ensures s == [] ==> r == Some(0)
    ensures r.Some? <==> forall i :: 0 <= i < |s| ==> f(s[i]).Some?
  {
    if s == [] then Some(0)
    else AddVolume(SumVolumes(s[..|s| - 1], f), f(s[|s| - 1]))
  }

  /** The `reduce` that computes `totalVolume`: summed over every exercise of
      the routine, completed or not. */
  function RoutineVolume(exs: seq<Exercise>): (v: Option<int>)
    ensures exs == [] ==> v == Some(0)
    ensures v.Some? <==> forall i :: 0 <= i < |exs| ==> RepCount(exs[i].reps).Some?
  {
    SumVolumes(exs, ExerciseVolume)
  }

  /** `Math.floor((now - start) / 1000)`: whole seconds elapsed, rounded down. */
  function ElapsedSeconds(now: int, start: int): (d: int)
    ensures d * 1000 <= now - start < d * 1000 + 1000
  {
    (now - start) / 1000
  }

  /** The log `finishWorkout` saves for routine `r` started at `start`. The
      two `Date.now()` readings and the `new Date()` of the source are one
      `now` here. */
  function FinishedLog(r: WorkoutRoutine, start: int, completed: set<int>, now: int): (log: WorkoutLog)
    ensures log.routineId == r.id && log.routineName == r.name && log.date == now
    ensures ParseInt(log.id) == Some(now)
    ensures log.durationSeconds * 1000 <= now - start < log.durationSeconds * 1000 + 1000
    ensures log.exercisesCompleted == |completed| && log.totalVolume == RoutineVolume(r.exercises)
  {
    ParseIntShowInt(now, []);
    assert ShowInt(now) + [] == ShowInt(now);
    WorkoutLog(
      ShowInt(now), r.id, r.name, now,
      ElapsedSeconds(now, start), |completed|, RoutineVolume(r.exercises))
  }

  // ---------------------------------------------------------------------
  // Clock display

  /** `formatTime`: minutes rounded down, a colon, then the `%` remainder
      padded to two characters with zeros. */
  function FormatTime(seconds: int): (t: string)
    ensures var m := BeforeFirst(t, ':');
      && |m| < |t|
      && ParseInt(m) == Some(seconds / 60)
      && ParseInt(t[|m| + 1..]) == Some(Rem(seconds, 60))
  {
    var m := ShowInt(seconds / 60);
    var ss := PadStart(ShowInt(Rem(seconds, 60)), 2, '0');
    assert ':' !in m by {
      assert forall i :: 0 <= i < |m| ==> m[i] != ':' by {
        if seconds / 60 < 0 { assert m == [m[0]] + m[1..]; }
      }
    }
    BeforeFirstOf(m, ':', ss);
    ParseIntShowInt(seconds / 60, []);
    assert m + [] == m;
    ParsePaddedRemainder(Rem(seconds, 60));
    assert (m + ":" + ss)[|m| + 1..] == ss;
    m + ":" + ss
  }

  /** A remainder by 60, padded to two characters, reads back as itself; a
      negative one is written with its sign and is not padded. */
  lemma ParsePaddedRemainder(x: int)
    requires -60 < x < 60
    ensures ParseInt(PadStart(ShowInt(x), 2, '0')) == Some(x)
  {
    if 0 <= x < 10 {
      var p := PadStart(ShowInt(x), 2, '0');
      assert p == ['0', DigitChar(x)];
      DigitPrefixOfDigits(p, [], false);
      assert p + [] == p;
      assert p[..1] == ['0'] && ['0'][..0] == [];
      assert DigitsValue(p, 10) == x;
      ParseIntUnsigned(p, x);
    } else {
      if x >= 10 {
        assert ShowNat(x) == ShowNat(x / 10) + [DigitChar(x % 10)];
      }
      assert |ShowInt(x)| >= 2;
      ParseIntShowInt(x, []);
      assert ShowInt(x) + [] == ShowInt(x);
    }
  }

  /** Reads an `m:ss` display back into seconds; the inverse of `FormatTime`. */
  function ParseClock(t: string): Option<int>
  {
    var m := BeforeFirst(t, ':');
    if |m| == |t| then None
    else
      var ss := t[|m| + 1..];
      if m != [] && AllDigits(m) && |ss| == 2 && IsDigit(ss[0]) && IsDigit(ss[1])
      then Some(DigitsValue(m, 10) * 60 + DigitsValue(ss, 10))
      else None
  }

  // ---------------------------------------------------------------------
  // Rest countdown

  /** The rest countdown: seconds left and whether the rest overlay is up. */
  datatype Rest = Rest(timer: int, isResting: bool)

  /** The timer effect's second branch: a rest at zero ends. */
  function Settle(r: Rest): (q: Rest)
    ensures q.isResting ==> q.timer != 0
    ensures q.timer == r.timer && (q.isResting ==> r.isResting)
    ensures r.isResting && r.timer != 0 ==> q == r
  {
    if r.isResting && r.timer == 0 then r.(isResting := false) else r
  }

  /** One interval callback, then the effect run it triggers. An interval
      exists only while resting with time left. */
  function TickRest(r: Rest): (q: Rest)
    ensures q.timer == if r.isResting && r.timer > 0 then r.timer - 1 else r.timer
    ensures q.isResting ==> r.isResting
    ensures (r.isResting ==> r.timer != 0) ==> (q.isResting ==> q.timer != 0)
  {
    if r.isResting && r.timer > 0 then Settle(Rest(r.timer - 1, true)) else r
  }

  function TicksRest(r: Rest, n: nat): Rest
    decreases n
  {
    if n == 0 then r else TicksRest(TickRest(r), n - 1)
  }

  // ---------------------------------------------------------------------
  // Session state machine

  /** A card is drawn when it is the cursor, is done, or is the next one. */
  predicate CardShown(idx: int, cursor: int, completed: set<int>)
  {
    idx == cursor || idx in completed || idx == cursor + 1
  }

  class Session {
    const store: Storage.Store
    var routines: seq<WorkoutRoutine>
    var activeRoutine: Option<WorkoutRoutine>
    var currentExerciseIndex: int
    var completedExercises: set<int>
    var startTime: int
    var timer: int
    var isResting: bool
    var aiTip: string

    /** The timer effect has run on the current values: a rest never sits at zero. */
    ghost predicate Settled()
      reads this
    {
      isResting ==> timer != 0
    }

    ghost function RestState(): Rest
      reads this
    {
      Rest(timer, isResting)
    }

    /** Mounting the screen loads the routines; no session is active. */
    constructor (store: Storage.Store)
      ensures this.store == store && routines == store.GetRoutines()
      ensures activeRoutine == None && currentExerciseIndex == 0 && completedExercises == {}
      ensures startTime == 0 && timer == 0 && !isResting && aiTip == ""
      ensures Settled()
    {
      this.store := store;
      routines := store.GetRoutines();
      activeRoutine := None;
      currentExerciseIndex := 0;
      completedExercises := {};
      startTime := 0;
      timer := 0;
      isResting := false;
      aiTip := "";
    }

    /** The timer effect's second branch, run after `timer` or `isResting` change. */
    method RunTimerEffect()
      modifies this
      ensures RestState() == Settle(old(RestState()))
      ensures Settled()
      ensures activeRoutine == old(activeRoutine) && currentExerciseIndex == old(currentExerciseIndex)
      ensures completedExercises == old(completedExercises) && startTime == old(startTime)
      ensures routines == old(routines) && aiTip == old(aiTip)
    {
      if timer == 0 && isResting {
        isResting := false;
      }
    }

    /** `startRoutine`: a fresh session; the rest countdown is left as it is. */
    method StartRoutine(routine: WorkoutRoutine, now: int)
      requires Settled()
      modifies this
      ensures Settled()
      ensures activeRoutine == Some(routine) && startTime == now
      ensures currentExerciseIndex == 0 && completedExercises == {} && aiTip == ""
      ensures timer == old(timer) && isResting == old(isResting) && routines == old(routines)
    {
      activeRoutine := Some(routine);
      startTime := now;
      currentExerciseIndex := 0;
      completedExercises := {};
      aiTip := "";
    }

    /** `finishWorkout`: with a session, saves one log, ends the session and
        leaves for the history screen. Leaving unmounts the screen: its state
        is dropped and the interval cleared, so the object is left as the
        next mount starts. Without a session, does nothing. */
    method FinishWorkout(now: int)
      requires Settled()
      modifies this, store
      ensures Settled()
      ensures store.routines == old(store.routines) && store.bodyStats == old(store.bodyStats)
      ensures old(activeRoutine).None? ==>
        && store.logs == old(store.logs) && activeRoutine == None
        && currentExerciseIndex == old(currentExerciseIndex) && completedExercises == old(completedExercises)
        && startTime == old(startTime) && RestState() == old(RestState())
        && routines == old(routines) && aiTip == old(aiTip)
      ensures old(activeRoutine).Some? ==>
        var log := FinishedLog(old(activeRoutine).value, old(startTime), old(completedExercises), now);
        && store.logs == (if store.isBrowser then old(store.logs) + [log] else old(store.logs))
        && routines == store.GetRoutines() && activeRoutine == None
        && currentExerciseIndex == 0 && completedExercises == {} && startTime == 0
        && RestState() == Rest(0, false) && aiTip == ""
    {
      if activeRoutine.None? { return; }
      var routine := activeRoutine.value;
      var log := FinishedLog(routine, startTime, completedExercises, now);
      store.SaveLog(log);
      Leave();
    }

    /** `setActiveRoutine(null)` then `setView(ViewState.HISTORY)`: the screen
        unmounts, and a later visit mounts it afresh with the stored routines. */
    method Leave()
      modifies this
      ensures Settled()
      ensures routines == store.GetRoutines() && activeRoutine == None
      ensures currentExerciseIndex == 0 && completedExercises == {} && startTime == 0
      ensures RestState() == Rest(0, false) && aiTip == ""
    {
      routines := store.GetRoutines();
      activeRoutine := None;
      currentExerciseIndex := 0;
      completedExercises := {};
      startTime := 0;
      timer := 0;
      isResting := false;
      aiTip := "";
    }

    /** `handleExerciseComplete`: the index joins the completed set whether or
        not an exercise sits there; an existing exercise starts its rest. */
    method HandleExerciseComplete(index: int)
      requires Settled()
      modifies this
      ensures Settled()
      ensures completedExercises == old(completedExercises) + {index}
      ensures old(activeRoutine).Some? && 0 <= index < |old(activeRoutine).value.exercises| ==>
        RestState() == Settle(Rest(old(activeRoutine).value.exercises[index].restTime, true))
      ensures !(old(activeRoutine).Some? && 0 <= index < |old(activeRoutine).value.exercises|) ==>
        RestState() == old(RestState())
      ensures activeRoutine == old(activeRoutine) && currentExerciseIndex == old(currentExerciseIndex)
      ensures startTime == old(startTime) && routines == old(routines) && aiTip == old(aiTip)
    {
      if activeRoutine.Some? && 0 <= index < |activeRoutine.value.exercises| {
        var exercise := activeRoutine.value.exercises[index];
        timer := exercise.restTime;
        isResting := true;
      }
      completedExercises := completedExercises + {index};
      RunTimerEffect();
    }

    /** One second of the rest interval. */
    method Tick()
      requires Settled()
      modifies this
      ensures Settled()
      ensures RestState() == TickRest(old(RestState()))
      ensures activeRoutine == old(activeRoutine) && currentExerciseIndex == old(currentExerciseIndex)
      ensures completedExercises == old(completedExercises) && startTime == old(startTime)
      ensures routines == old(routines) && aiTip == old(aiTip)
    {
      if isResting && timer > 0 {
        timer := timer - 1;
        RunTimerEffect();
      }
    }

    /** "Pular Descanso": the rest ends at once. */
    method SkipRest()
      requires Settled()
      modifies this
      ensures Settled()
      ensures RestState() == Rest(0, false)
      ensures activeRoutine == old(activeRoutine) && currentExerciseIndex == old(currentExerciseIndex)
      ensures completedExercises == old(completedExercises) && startTime == old(startTime)
      ensures routines == old(routines) && aiTip == old(aiTip)
    {
      isResting := false;
      timer := 0;
    }

    /** "Sair": leaves the session without a log; nothing else is reset. */
    method Exit()
      requires Settled()
      modifies this
      ensures Settled()
      ensures activeRoutine == None
      ensures RestState() == old(RestState()) && currentExerciseIndex == old(currentExerciseIndex)
      ensures completedExercises == old(completedExercises) && startTime == old(startTime)
      ensures routines == old(routines) && aiTip == old(aiTip)
    {
      activeRoutine := None;
    }

    /** A click on a card of the active routine that is drawn makes it the cursor. */
    method SelectExercise(idx: int)
      requires Settled()
      requires activeRoutine.Some? && 0 <= idx < |activeRoutine.value.exercises|
      requires CardShown(idx, currentExerciseIndex, completedExercises)
      modifies this
      ensures Settled()
      ensures activeRoutine == old(activeRoutine) && RestState() == old(RestState())
      ensures currentExerciseIndex == idx && 0 <= currentExerciseIndex < |activeRoutine.value.exercises|
      ensures completedExercises == old(completedExercises) && startTime == old(startTime)
      ensures routines == old(routines) && aiTip == old(aiTip)
    {
      currentExerciseIndex := idx;
    }
  }

  // ---------------------------------------------------------------------
  // Properties

  /** Worked example: 3 sets of "10-12" at 20 kg is 600 kg. */
  lemma VolumeExample()
    ensures RoutineVolume([Exercise("1", "Supino", 3, "10-12", 20, 60, None)]) == Some(600)
  {
    var e := Exercise("1", "Supino", 3, "10-12", 20, 60, None);
    assert ShowNat(10) + "-" + "12" == e.reps;
    RepCountRange(10, "12");
    SingleRoutineVolume(e);
  }

  /** The volume of a routine of one exercise is that exercise's volume. */
  lemma SingleRoutineVolume(e: Exercise)
    ensures RoutineVolume([e]) == ExerciseVolume(e)
  {
    assert [e][..0] == [];
  }

  /** An empty rep specification counts 0. */
  lemma RepCountEmpty()
    ensures RepCount("") == Some(0)
  {
    ParseIntShowInt(0, []);
    assert ShowInt(0) + [] == "0";
  }

  /** A specification that starts with `-` has an empty first piece and counts 0. */
  lemma RepCountLeadingDash(rest: string)
    ensures RepCount("-" + rest) == Some(0)
  {
    assert BeforeFirst("-" + rest, '-') == [];
    ParseIntShowInt(0, []);
    assert ShowInt(0) + [] == "0";
  }

  /** A plain number such as the default "12" counts itself. */
  lemma RepCountNumber(n: nat)
    ensures RepCount(ShowNat(n)) == Some(n)
  {
    ShowNatOnlyDigits(n, '-');
    BeforeFirstAbsent(ShowNat(n), '-');
    ParseIntShowInt(n, []);
    assert ShowInt(n) + [] == ShowNat(n);
  }

  /** A range such as "10-12" counts its lower bound. */
  lemma RepCountRange(n: nat, rest: string)
    ensures RepCount(ShowNat(n) + "-" + rest) == Some(n)
  {
    ShowNatOnlyDigits(n, '-');
    BeforeFirstOf(ShowNat(n), '-', rest);
    ParseIntShowInt(n, []);
    assert ShowInt(n) + [] == ShowNat(n);
  }

  /** Text that starts with a letter and has no `-` is NaN, not 0. */
  lemma RepCountWord(word: string)
    requires word != [] && 'a' <= word[0] <= 'z' && '-' !in word
    ensures RepCount(word) == None
  {
    BeforeFirstAbsent(word, '-');
    assert !IsWhiteSpace(word[0]);
    assert TrimStart(word) == word;
    ParseIntRejects(word);
  }

  lemma AddVolumeAssociative(x: Option<int>, y: Option<int>, z: Option<int>)
    ensures AddVolume(AddVolume(x, y), z) == AddVolume(x, AddVolume(y, z))
  {
  }

  /** A sum of volumes splits over any split of its list. */
  lemma {:induction false} SumVolumesConcat<T>(a: seq<T>, b: seq<T>, f: T -> Option<int>)
    ensures SumVolumes(a + b, f) == AddVolume(SumVolumes(a, f), SumVolumes(b, f))
  {
    if b == [] {
      assert a + b == a;
    } else {
      var c := a + b;
      assert c[..|c| - 1] == a + b[..|b| - 1];
      assert c[|c| - 1] == b[|b| - 1];
      SumVolumesConcat(a, b[..|b| - 1], f);
      AddVolumeAssociative(SumVolumes(a, f), SumVolumes(b[..|b| - 1], f), f(b[|b| - 1]));
    }
  }

  /** The routine volume splits over any split of the exercise list: the
      volume of a routine is the sum of the volumes of its parts. */
  lemma RoutineVolumeConcat(a: seq<Exercise>, b: seq<Exercise>)
    ensures RoutineVolume(a + b) == AddVolume(RoutineVolume(a), RoutineVolume(b))
  {
    SumVolumesConcat(a, b, ExerciseVolume);
  }

  /** A session that lasted at least zero milliseconds has a non-negative duration. */
  lemma DurationNonNegative(now: int, start: int)
    requires start <= now
    ensures ElapsedSeconds(now, start) >= 0
  {
  }

  /** A set of indices of a list of `n` exercises has at most `n` members. */
  lemma {:induction false} CompletedAtMost(completed: set<int>, n: nat)
    requires forall i :: i in completed ==> 0 <= i < n
    ensures |completed| <= n
  {
    if n == 0 {
      assert forall i :: i !in completed;
      assert completed == {};
    } else {
      CompletedAtMost(completed - {n - 1}, n - 1);
    }
  }

  /** A session that did not end before it started saves a non-negative
      duration, and at most as many completed exercises as the routine has
      when every completion was of one of its exercises. */
  lemma FinishedLogBounds(r: WorkoutRoutine, start: int, completed: set<int>, now: int)
    requires start <= now
    requires forall i :: i in completed ==> 0 <= i < |r.exercises|
    ensures var log := FinishedLog(r, start, completed, now);
      0 <= log.durationSeconds && log.exercisesCompleted <= |r.exercises|
  {
    CompletedAtMost(completed, |r.exercises|);
  }

  /** Two digits `PadStart` gives to a remainder below 60. */
  lemma PadTwoDigits(x: nat)
    requires x < 60
    ensures PadStart(ShowInt(x), 2, '0') == [DigitChar(x / 10), DigitChar(x % 10)]
  {
    if x >= 10 {
      assert ShowNat(x) == ShowNat(x / 10) + [DigitChar(x % 10)];
    }
  }

  /** For a non-negative count, the display is the minutes, a colon and
      exactly two digits of seconds below 60. */
  lemma FormatTimeShape(seconds: int)
    requires seconds >= 0
    ensures FormatTime(seconds)
         == ShowNat(seconds / 60) + ":" + [DigitChar(seconds % 60 / 10), DigitChar(seconds % 60 % 10)]
  {
    var q := seconds / 60;
    assert q >= 0;
    assert ShowInt(q) == ShowNat(q);
    assert Rem(seconds, 60) == seconds % 60;
    PadTwoDigits(seconds % 60);
  }

  /** A clock made of minute digits, a colon and two second digits reads as
      minutes times 60 plus seconds. */
  lemma ParseClockOf(ms: string, ss: string)
    requires ms != [] && AllDigits(ms)
    requires |ss| == 2 && IsDigit(ss[0]) && IsDigit(ss[1])
    ensures ParseClock(ms + ":" + ss) == Some(DigitsValue(ms, 10) * 60 + DigitsValue(ss, 10))
  {
    var t := ms + ":" + ss;
    assert ':' !in ms by {
      assert forall i :: 0 <= i < |ms| ==> ms[i] != ':';
    }
    BeforeFirstOf(ms, ':', ss);
    assert BeforeFirst(t, ':') == ms;
    assert t[|ms| + 1..] == ss;
  }

  /** The two digits of a number below 100 read back as that number. */
  lemma TwoDigitsValue(r: nat)
    requires r < 100
    ensures DigitsValue([DigitChar(r / 10), DigitChar(r % 10)], 10) == r
  {
    var ss := [DigitChar(r / 10), DigitChar(r % 10)];
    var hi := [DigitChar(r / 10)];
    assert ss[..1] == hi && hi[..0] == [];
    assert DigitsValue(hi, 10) == r / 10;
    assert DigitsValue(ss, 10) == (r / 10) * 10 + r % 10;
  }

  /** The display of a non-negative count of seconds reads back as that count:
      minutes times 60 plus the two-digit seconds. */
  lemma FormatTimeRoundTrip(seconds: int)
    requires seconds >= 0
    ensures ParseClock(FormatTime(seconds)) == Some(seconds)
  {
    var q, r := seconds / 60, seconds % 60;
    assert q * 60 + r == seconds;
    FormatTimeShape(seconds);
    ClockReadsBack(FormatTime(seconds), q, r);
  }

  /** Minute digits, a colon and the two digits of `r` read as `q * 60 + r`. */
  lemma ClockReadsBack(t: string, q: nat, r: nat)
    requires r < 60
    requires t == ShowNat(q) + ":" + [DigitChar(r / 10), DigitChar(r % 10)]
    ensures ParseClock(t) == Some(q * 60 + r)
  {
    var ms, ss := ShowNat(q), [DigitChar(r / 10), DigitChar(r % 10)];
    ParseClockOf(ms, ss);
    DigitsValueShowNat(q);
    TwoDigitsValue(r);
  }

  /** A rest of `t > 0` seconds counts down one second per tick and ends
      after exactly `t` ticks. */
  lemma {:induction false} RestCountsDown(t: nat, k: nat)
    requires 0 < t && k <= t
    ensures TicksRest(Rest(t, true), k) == if k < t then Rest(t - k, true) else Rest(0, false)
  {
    if k > 0 {
      var r1 := TickRest(Rest(t, true));
      if t == 1 {
        assert r1 == Rest(0, false);
        assert TicksRest(r1, k - 1) == r1;
      } else {
        assert r1 == Rest(t - 1, true);
        RestCountsDown(t - 1, k - 1);
      }
    }
  }

  /** A negative rest time (a form value the editor does not check) never
      ends by itself: no interval runs and the overlay stays until skipped. */
  lemma {:induction false} NegativeRestStays(t: int, n: nat)
    requires t < 0
    ensures TicksRest(Rest(t, true), n) == Rest(t, true)
  {
    if n > 0 {
      NegativeRestStays(t, n - 1);
    }
  }

  /** A zero rest time never shows the rest overlay; a positive one shows it
      with that many seconds. */
  lemma CompletionRest(restTime: int)
    ensures Settle(Rest(restTime, true)) == if restTime == 0 then Rest(0, false) else Rest(restTime, true)
  {
  }
}
