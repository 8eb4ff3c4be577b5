/** The typed plan hierarchy Plan -> Week -> Day -> Session -> Movement, and
    the request a plan is generated for. The session variants are the four
    the parser constructs; the tag each carries is determined by its variant. */
module Workouts {
  import opened Wrappers
  import Text

  const WodTag := "WOD"
  const StrengthTag := "Strength"
  const RestDayTag := "Rest Day"
  const ActiveRecoveryTag := "Active Recovery"

  /** The four session tags the parser dispatches on, compared exactly (after stripping). */
  predicate IsRecognisedTag(tag: string)
  {
    tag == WodTag || tag == StrengthTag || tag == RestDayTag || tag == ActiveRecoveryTag
  }

  datatype Movement = Movement(description: string, resources: string)

  /** A prescribed number of sets or reps: the generator writes either a
      number (`5`) or a text (`"1+2"`). */
  datatype Count = Whole(n: int) | Words(s: string)
  {
    /** How an f-string renders the value. */
    function Render(): string
    {
      match this
      case Whole(n) => Text.IntToString(n)
      case Words(s) => s
    }
  }

  datatype Session =
    | Wod(description: string, intendedStimulus: string, scalingOptions: string, movements: seq<Movement>)
    | Strength(description: string, sets: Count, reps: Count, intensity: string, rest: string, notes: string)
    | RestDay(description: string, notes: string)
    | ActiveRecovery(description: string, activities: seq<string>, duration: string, intensity: string)
  {
    /** The `type` field of the source's `Session`. */
    function Tag(): (t: string)
      ensures IsRecognisedTag(t)
    {
      match this
      case Wod(_, _, _, _) => WodTag
      case Strength(_, _, _, _, _, _) => StrengthTag
      case RestDay(_, _) => RestDayTag
      case ActiveRecovery(_, _, _, _) => ActiveRecoveryTag
    }
  }

  datatype Day = Day(sessions: seq<Session>)

  datatype Week = Week(days: seq<Day>)

  datatype Plan = Plan(name: string, weeks: seq<Week>)

  /** The athlete's request. `constraints` is `None` when not given. */
  datatype WorkoutRequest = WorkoutRequest(
    name: string,
    age: int,
    experience: string,
    goals: seq<string>,
    equipment: seq<string>,
    injuries: seq<string>,
    avoidExercises: seq<string>,
    sessionsPerWeek: int,
    duration: int,
    constraints: Option<string>)
}
