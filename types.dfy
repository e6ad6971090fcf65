/** The records of the application (types.ts), as immutable values.
    Dates are millisecond timestamps: the source stores ISO 8601 strings
    produced by `toISOString` and only ever compares them through `getTime()`. */
module Types {

  datatype Option<+T> = None | Some(value: T)

  /** One exercise of a routine. `reps` stays a string because it may hold
      a range such as "10-12"; weights are whole kilograms in this model. */
  datatype Exercise = Exercise(
    id: string,
    name: string,
    sets: int,
    reps: string,
    weight: int,
    restTime: int,
    notes: Option<string>)

  datatype WorkoutRoutine = WorkoutRoutine(id: string, name: string, exercises: seq<Exercise>)

  /** A finished session. `totalVolume` is `None` when the volume computed at
      finish time is NaN (a rep count that `parseInt` cannot read); JSON stores
      such a number as `null`. */
  datatype WorkoutLog = WorkoutLog(
    id: string,
    routineId: string,
    routineName: string,
    date: int,
    durationSeconds: int,
    exercisesCompleted: int,
    totalVolume: Option<int>)

  datatype BodyStat = BodyStat(
    id: string,
    date: int,
    weight: int,
    bodyFatPercentage: Option<int>,
    muscleMass: Option<int>,
    fatMass: Option<int>,
    visceralFat: Option<int>)
}
