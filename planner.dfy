/** The routine editor (components/Planner.tsx): the list of saved routines,
    and an editor holding one routine being changed. The edits to the
    exercise list build new lists and are functions; the handlers that flip
    the editor state and write the store are methods of `Editor`. The
    `confirm` dialog enters as a boolean, `alert` as the message returned. */
module Planner {
  import opened Types
  import opened JsString
  import Storage
  import ActiveWorkout

  // ---------------------------------------------------------------------
  // New records

  /** The routine `handleCreateNew` starts from: named after its timestamp
      `now`, called "Novo Treino", with no exercises. */
  function NewRoutine(now: int): (r: WorkoutRoutine)
    ensures r.name == "Novo Treino" && r.exercises == []
    ensures ParseInt(r.id) == Some(now)
  {
    ParseIntShowInt(now, []);
    assert ShowInt(now) + [] == ShowInt(now);
    WorkoutRoutine(ShowInt(now), "Novo Treino", [])
  }

  /** The exercise `addExercise` appends: blank name, 3 sets of "12", no
      weight, 60 seconds of rest, no notes. */
  function DefaultExercise(now: int): (e: Exercise)
    ensures ParseInt(e.id) == Some(now)
    ensures e.name == "" && e.sets == 3 && e.reps == "12" && e.weight == 0 && e.restTime == 60 && e.notes == None
  {
    ParseIntShowInt(now, []);
    assert ShowInt(now) + [] == ShowInt(now);
    Exercise(ShowInt(now), "", 3, "12", 0, 60, None)
  }

  // ---------------------------------------------------------------------
  // Save-time validation

  const NameRequired: string := "Nome do treino é obrigatório"
  const ExerciseRequired: string := "Adicione pelo menos um exercício"

  /** What `saveCurrentRoutine` checks, in order: a name that is not blank
      after `trim`, then at least one exercise. `Rejected` carries the alert. */
  datatype Validation = Accepted | Rejected(message: string)

  function Validate(r: WorkoutRoutine): (v: Validation)
    ensures v.Rejected? ==> v.message == NameRequired || v.message == ExerciseRequired
    ensures Trim(r.name) == [] ==> v == Rejected(NameRequired)
    ensures v == Accepted ==> |r.exercises| > 0
  {
    if Trim(r.name) == [] then Rejected(NameRequired)
    else if |r.exercises| == 0 then Rejected(ExerciseRequired)
    else Accepted
  }

  /** A name is blank when every character of it is white space. */
  predicate Blank(name: string)
  {
    forall i :: 0 <= i < |name| ==> IsWhiteSpace(name[i])
  }

  /** A routine is accepted exactly when its name has a character other than
      white space and it has an exercise; a blank name is reported first. */
  lemma ValidateCases(r: WorkoutRoutine)
    ensures Validate(r) == Accepted <==> !Blank(r.name) && |r.exercises| > 0
    ensures Blank(r.name) ==> Validate(r) == Rejected(NameRequired)
    ensures !Blank(r.name) && r.exercises == [] ==> Validate(r) == Rejected(ExerciseRequired)
  {
    TrimBlank(r.name);
  }

  // ---------------------------------------------------------------------
  // Edits of the exercise list

  /** `addExercise`: the default exercise goes at the end. */
  function AppendDefault(exs: seq<Exercise>, now: int): (r: seq<Exercise>)
    ensures |r| == |exs| + 1 && r[..|exs|] == exs && r[|exs|] == DefaultExercise(now)
  {
    exs + [DefaultExercise(now)]
  }

  /** A field of an exercise with its new value: the five the editor form
      changes, and the notes. */
  datatype Edit =
    | SetName(name: string)
    | SetSets(sets: int)
    | SetReps(reps: string)
    | SetWeight(weight: int)
    | SetRestTime(restTime: int)
    | SetNotes(notes: Option<string>)

  /** `{ ...e, [field]: value }`: the edited field holds the new value and
      every other field, the identifier included, is kept. */
  function Apply(e: Exercise, edit: Edit): (a: Exercise)
    ensures a.id == e.id
    ensures a.name == (if edit.SetName? then edit.name else e.name)
    ensures a.sets == (if edit.SetSets? then edit.sets else e.sets)
    ensures a.reps == (if edit.SetReps? then edit.reps else e.reps)
    ensures a.weight == (if edit.SetWeight? then edit.weight else e.weight)
    ensures a.restTime == (if edit.SetRestTime? then edit.restTime else e.restTime)
    ensures a.notes == (if edit.SetNotes? then edit.notes else e.notes)
  {
    match edit
    case SetName(v) => e.(name := v)
    case SetSets(v) => e.(sets := v)
    case SetReps(v) => e.(reps := v)
    case SetWeight(v) => e.(weight := v)
    case SetRestTime(v) => e.(restTime := v)
    case SetNotes(v) => e.(notes := v)
  }

  /** `updateExercise(index, field, value)` on a copy of the list. */
  function UpdateAt(exs: seq<Exercise>, index: int, edit: Edit): (r: seq<Exercise>)
    requires 0 <= index < |exs|
    ensures |r| == |exs|
    ensures r[index] == Apply(exs[index], edit)
    ensures forall j :: 0 <= j < |exs| && j != index ==> r[j] == exs[j]
  {
    exs[index := Apply(exs[index], edit)]
  }

  /** `filter((_, i) => i !== index)`: every exercise at another position, in order. */
  function RemoveAt(exs: seq<Exercise>, index: int): (r: seq<Exercise>)
    ensures |r| == if 0 <= index < |exs| then |exs| - 1 else |exs|
  {
    if exs == [] then []
    else RemoveAt(exs[..|exs| - 1], index) + (if |exs| - 1 == index then [] else [exs[|exs| - 1]])
  }

  /** Removing a position the list does not have leaves the list as it is. */
  lemma {:induction false} RemoveAtOutside(exs: seq<Exercise>, index: int)
    requires index < 0 || |exs| <= index
    ensures RemoveAt(exs, index) == exs
  {
    if exs != [] {
      var init := exs[..|exs| - 1];
      RemoveAtOutside(init, index);
      assert RemoveAt(exs, index) == init + [exs[|exs| - 1]];
      assert init + [exs[|exs| - 1]] == exs;
    }
  }

  /** Removing a position the list has cuts out exactly that exercise and
      keeps the others in their order. */
  lemma {:induction false} RemoveAtInside(exs: seq<Exercise>, index: int)
    requires 0 <= index < |exs|
    ensures RemoveAt(exs, index) == exs[..index] + exs[index + 1..]
  {
    var init := exs[..|exs| - 1];
    if index == |exs| - 1 {
      RemoveAtOutside(init, index);
    } else {
      RemoveAtInside(init, index);
      assert init[..index] == exs[..index];
      assert init[index + 1..] + [exs[|exs| - 1]] == exs[index + 1..];
    }
  }

  /** Removing what `addExercise` appended gives back the list before. */
  lemma RemoveAdded(exs: seq<Exercise>, now: int)
    ensures RemoveAt(AppendDefault(exs, now), |exs|) == exs
  {
    RemoveAtInside(AppendDefault(exs, now), |exs|);
  }

  /** The default exercise counts 12 repetitions at no weight: volume 0. */
  lemma DefaultExerciseVolume(now: int)
    ensures ActiveWorkout.RepCount(DefaultExercise(now).reps) == Some(12)
    ensures ActiveWorkout.ExerciseVolume(DefaultExercise(now)) == Some(0)
  {
    var e := DefaultExercise(now);
    assert ShowNat(12) == e.reps by {
      assert ShowNat(12) == ShowNat(1) + [DigitChar(2)];
    }
    ActiveWorkout.RepCountNumber(12);
  }

  /** Once a routine with a non-blank name has an exercise, it can be saved. */
  lemma AddedRoutineValid(r: WorkoutRoutine, now: int)
    requires !Blank(r.name)
    ensures Validate(r.(exercises := AppendDefault(r.exercises, now))) == Accepted
  {
    ValidateCases(r.(exercises := AppendDefault(r.exercises, now)));
  }

  /** A fresh routine has a valid name but must get an exercise before it can be saved. */
  lemma NewRoutineNeedsExercise(now: int)
    ensures Validate(NewRoutine(now)) == Rejected(ExerciseRequired)
  {
    var r := NewRoutine(now);
    assert r.name[0] == 'N' && !IsWhiteSpace(r.name[0]);
    ValidateCases(r);
  }

  // ---------------------------------------------------------------------
  // The editor

  class Editor {
    const store: Storage.Store
    /** The list shown when not editing, as last read from the store. */
    var routines: seq<WorkoutRoutine>
    var isEditing: bool
    var currentRoutine: Option<WorkoutRoutine>

    /** Mounting reads the saved routines; nothing is being edited. */
    constructor (store: Storage.Store)
      ensures this.store == store && routines == store.GetRoutines()
      ensures !isEditing && currentRoutine == None
    {
      this.store := store;
      routines := store.GetRoutines();
      isEditing := false;
      currentRoutine := None;
    }

    /** `handleCreateNew`: a fresh routine enters the editor. */
    method HandleCreateNew(now: int)
      modifies this
      ensures currentRoutine == Some(NewRoutine(now)) && isEditing
      ensures routines == old(routines)
    {
      currentRoutine := Some(NewRoutine(now));
      isEditing := true;
    }

    /** `handleEdit`: a copy of a listed routine enters the editor. */
    method HandleEdit(routine: WorkoutRoutine)
      modifies this
      ensures currentRoutine == Some(routine) && isEditing
      ensures routines == old(routines)
    {
      currentRoutine := Some(routine);
      isEditing := true;
    }

    /** `handleDelete`: only a confirmed delete removes the routine from the
        store, and then the list is read again. */
    method HandleDelete(id: string, confirmed: bool)
      modifies this, store
      ensures confirmed ==> store.routines == (if store.isBrowser then Storage.Without(old(store.routines), id) else old(store.routines))
      ensures confirmed ==> routines == store.GetRoutines()
      ensures !confirmed ==> store.routines == old(store.routines) && routines == old(routines)
      ensures store.logs == old(store.logs) && store.bodyStats == old(store.bodyStats)
      ensures isEditing == old(isEditing) && currentRoutine == old(currentRoutine)
    {
      if confirmed {
        store.DeleteRoutine(id);
        routines := store.GetRoutines();
      }
    }

    /** `saveCurrentRoutine`: a routine that fails validation is reported and
        nothing changes; a valid one is upserted into the store, the list is
        read again and the editor closes. Without a routine nothing happens. */
    method SaveCurrentRoutine() returns (alert: Option<string>)
      modifies this, store
      ensures old(currentRoutine).None? ==> alert == None
      ensures old(currentRoutine).Some? && Validate(old(currentRoutine).value).Rejected? ==>
        alert == Some(Validate(old(currentRoutine).value).message)
      ensures old(currentRoutine).None? || Validate(old(currentRoutine).value).Rejected? ==>
        && store.routines == old(store.routines) && routines == old(routines)
        && isEditing == old(isEditing) && currentRoutine == old(currentRoutine)
      ensures old(currentRoutine).Some? && Validate(old(currentRoutine).value) == Accepted ==>
        && alert == None
        && store.routines == (if store.isBrowser then Storage.Upserted(old(store.routines), old(currentRoutine).value) else old(store.routines))
        && routines == store.GetRoutines()
        && !isEditing && currentRoutine == None
      ensures store.logs == old(store.logs) && store.bodyStats == old(store.bodyStats)
    {
      alert := None;
      if currentRoutine.None? { return; }
      var routine := currentRoutine.value;
      if Trim(routine.name) == [] {
        alert := Some(NameRequired);
        return;
      }
      if |routine.exercises| == 0 {
        alert := Some(ExerciseRequired);
        return;
      }
      store.SaveRoutine(routine);
      routines := store.GetRoutines();
      isEditing := false;
      currentRoutine := None;
    }

    /** The name field of the editor. */
    method Rename(name: string)
      requires currentRoutine.Some?
      modifies this
      ensures currentRoutine == Some(old(currentRoutine).value.(name := name))
      ensures isEditing == old(isEditing) && routines == old(routines)
    {
      currentRoutine := Some(currentRoutine.value.(name := name));
    }

    /** `addExercise`; without a routine nothing happens. */
    method AddExercise(now: int)
      modifies this
      ensures currentRoutine == match old(currentRoutine)
        case None => None
        case Some(r) => Some(r.(exercises := AppendDefault(r.exercises, now)))
      ensures isEditing == old(isEditing) && routines == old(routines)
    {
      if currentRoutine.None? { return; }
      var r := currentRoutine.value;
      currentRoutine := Some(r.(exercises := AppendDefault(r.exercises, now)));
    }

    /** `updateExercise` from a field of the card at `index`; without a routine nothing happens. */
    method UpdateExercise(index: int, edit: Edit)
      requires currentRoutine.Some? ==> 0 <= index < |currentRoutine.value.exercises|
      modifies this
      ensures currentRoutine == match old(currentRoutine)
        case None => None
        case Some(r) => Some(r.(exercises := UpdateAt(r.exercises, index, edit)))
      ensures isEditing == old(isEditing) && routines == old(routines)
    {
      if currentRoutine.None? { return; }
      var r := currentRoutine.value;
      currentRoutine := Some(r.(exercises := UpdateAt(r.exercises, index, edit)));
    }

    /** `removeExercise`; without a routine nothing happens. */
    method RemoveExercise(index: int)
      modifies this
      ensures currentRoutine == match old(currentRoutine)
        case None => None
        case Some(r) => Some(r.(exercises := RemoveAt(r.exercises, index)))
      ensures isEditing == old(isEditing) && routines == old(routines)
    {
      if currentRoutine.None? { return; }
      var r := currentRoutine.value;
      currentRoutine := Some(r.(exercises := RemoveAt(r.exercises, index)));
    }

    /** The close button: leaves the editor; the routine being edited is kept
        but no longer shown, and nothing is saved. */
    method Close()
      modifies this
      ensures !isEditing
      ensures currentRoutine == old(currentRoutine) && routines == old(routines)
    {
      isEditing := false;
    }
  }
}
