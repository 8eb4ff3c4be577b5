/** The prompt for one week: fixed prose with twelve values interpolated
    into it. The prose itself is a parameter (a `Template`); what is modelled
    is which value goes into which slot, the fallbacks for empty fields, and
    the retrieval query. */
module PromptBuilder {
  import opened Wrappers
  import opened Workouts
  import Text

  /** How many reference workouts are requested. */
  const TopK := 5
  const NoneText := "None"
  const DefaultDuration := "75-90 minutes"
  const Baseline := "No data from previous weeks provided. Start with baseline workouts for week 1."

  /** The interpolated values, in the order they appear in the prompt. */
  const SlotCount := 12
  const NameSlot := 0
  const AgeSlot := 1
  const ExperienceSlot := 2
  const GoalsSlot := 3
  const RetrievedSlot := 4
  const EquipmentSlot := 5
  const InjuriesSlot := 6
  const AvoidSlot := 7
  const SessionsSlot := 8
  const DurationSlot := 9
  const ContinuitySlot := 10
  const WeekSlot := 11

  /** The fixed prose: the text before the first value, between each two
      consecutive values, and after the last one. */
  datatype Template = Template(pieces: seq<string>)
  {
    predicate Valid()
    {
      |pieces| == SlotCount + 1
    }
  }

  /** The query handed to the retrieval step: the goals, comma separated. */
  function RetrievalQuery(req: WorkoutRequest): string
  {
    Text.Join(req.goals, ", ")
  }

  /** A list rendered for the prompt, `"None"` when empty. */
  function ListOrNone(xs: seq<string>): string
  {
    if xs == [] then NoneText else Text.Join(xs, ", ")
  }

  /** `constraints or '75-90 minutes'`: both a missing and an empty text fall back. */
  function DurationText(constraints: Option<string>): string
  {
    match constraints
    case Some(c) => if c == "" then DefaultDuration else c
    case None => DefaultDuration
  }

  /** `previous_weeks_summary or <baseline sentence>`. */
  function ContinuityText(previous: string): string
  {
    if previous == "" then Baseline else previous
  }

  function Slots(req: WorkoutRequest, week: int, previous: string, retrieved: string): (r: seq<string>)
    ensures |r| == SlotCount
  {
    [ req.name, Text.IntToString(req.age), req.experience, Text.Join(req.goals, ", "),
      retrieved, Text.Join(req.equipment, ", "), ListOrNone(req.injuries),
      ListOrNone(req.avoidExercises), Text.IntToString(req.sessionsPerWeek),
      DurationText(req.constraints), ContinuityText(previous), Text.IntToString(week) ]
  }

  /** Interleaves the prose pieces with the values. */
  function Fill(pieces: seq<string>, values: seq<string>): string
    requires |pieces| == |values| + 1
    decreases |values|
  {
    if |values| == 0 then pieces[0] else pieces[0] + values[0] + Fill(pieces[1..], values[1..])
  }

  /** `build_prompt(user_input, week, previous_weeks_summary)`, with the
      retrieval step as the oracle `retrieve(query, top_k)`. */
  function BuildPrompt(t: Template, retrieve: (string, int) -> string, req: WorkoutRequest,
                       week: int, previous: string): (r: string)
    requires t.Valid()
    ensures forall k :: 0 <= k < SlotCount
              ==> Text.Contains(r, Slots(req, week, previous, retrieve(RetrievalQuery(req), TopK))[k])
  {
    var values := Slots(req, week, previous, retrieve(RetrievalQuery(req), TopK));
    FillShowsAll(t.pieces, values);
    Fill(t.pieces, values)
  }

  /** `FillShows` for every slot at once. */
  lemma FillShowsAll(pieces: seq<string>, values: seq<string>)
    requires |pieces| == |values| + 1
    ensures forall k :: 0 <= k < |values| ==> Text.Contains(Fill(pieces, values), values[k])
  {
    forall k | 0 <= k < |values|
      ensures Text.Contains(Fill(pieces, values), values[k])
    {
      FillShows(pieces, values, k);
    }
  }

  /** The filled text is the part up to slot `k`, the value of slot `k`,
      and the part after it. */
  lemma {:induction false} FillSplit(pieces: seq<string>, values: seq<string>, k: int)
    requires |pieces| == |values| + 1
    requires 0 <= k < |values|
    ensures Fill(pieces, values)
         == Fill(pieces[..k + 1], values[..k]) + values[k] + Fill(pieces[k + 1..], values[k + 1..])
    decreases k
  {
    if k > 0 {
      FillSplit(pieces[1..], values[1..], k - 1);
      assert pieces[..k + 1][1..] == pieces[1..][..k];
      assert values[..k][1..] == values[1..][..k - 1];
      assert pieces[1..][k..] == pieces[k + 1..];
      assert values[1..][k..] == values[k + 1..];
    } else {
      assert pieces[..1][0] == pieces[0];
    }
  }

  /** Every value appears verbatim in the filled text. */
  lemma FillShows(pieces: seq<string>, values: seq<string>, k: int)
    requires |pieces| == |values| + 1
    requires 0 <= k < |values|
    ensures Text.Contains(Fill(pieces, values), values[k])
  {
    FillSplit(pieces, values, k);
    Text.ContainsInfix(Fill(pieces[..k + 1], values[..k]), values[k], Fill(pieces[k + 1..], values[k + 1..]));
  }

  /** Two fillings of the same prose whose values differ at most in slot `k`
      are equal only if they agree in slot `k` too. */
  lemma SlotDetermined(pieces: seq<string>, v1: seq<string>, v2: seq<string>, k: int)
    requires |pieces| == |v1| + 1 && |v1| == |v2|
    requires 0 <= k < |v1|
    requires v1[..k] == v2[..k] && v1[k + 1..] == v2[k + 1..]
    requires Fill(pieces, v1) == Fill(pieces, v2)
    ensures v1[k] == v2[k]
  {
    FillSplit(pieces, v1, k);
    FillSplit(pieces, v2, k);
    Text.CancelAround(Fill(pieces[..k + 1], v1[..k]), v1[k], v2[k], Fill(pieces[k + 1..], v1[k + 1..]));
  }

  /** The previous summary is included verbatim; an empty one is replaced by
      the week-1 baseline sentence. */
  lemma PromptCarriesSummary(t: Template, retrieve: (string, int) -> string, req: WorkoutRequest,
                             week: int, previous: string)
    requires t.Valid()
    ensures previous != "" ==> Text.Contains(BuildPrompt(t, retrieve, req, week, previous), previous)
    ensures previous == "" ==> Text.Contains(BuildPrompt(t, retrieve, req, week, previous), Baseline)
  {
    FillShows(t.pieces, Slots(req, week, previous, retrieve(RetrievalQuery(req), TopK)), ContinuitySlot);
  }

  /** Different non-empty summaries give different prompts, everything else equal. */
  lemma PromptDeterminesSummary(t: Template, retrieve: (string, int) -> string, req: WorkoutRequest,
                                week: int, p1: string, p2: string)
    requires t.Valid()
    requires p1 != "" && p2 != ""
    requires BuildPrompt(t, retrieve, req, week, p1) == BuildPrompt(t, retrieve, req, week, p2)
    ensures p1 == p2
  {
    var r := retrieve(RetrievalQuery(req), TopK);
    SlotDetermined(t.pieces, Slots(req, week, p1, r), Slots(req, week, p2, r), ContinuitySlot);
  }

  /** The week number is rendered into the prompt, so prompts for different
      weeks differ. */
  lemma PromptDeterminesWeek(t: Template, retrieve: (string, int) -> string, req: WorkoutRequest,
                             w1: int, w2: int, previous: string)
    requires t.Valid()
    requires BuildPrompt(t, retrieve, req, w1, previous) == BuildPrompt(t, retrieve, req, w2, previous)
    ensures w1 == w2
  {
    var r := retrieve(RetrievalQuery(req), TopK);
    SlotDetermined(t.pieces, Slots(req, w1, previous, r), Slots(req, w2, previous, r), WeekSlot);
    Text.IntToStringInjective(w1, w2);
  }

  /** A missing or empty constraint reads as the default session duration;
      any other constraint text is shown as given. */
  lemma PromptDurationFallback(t: Template, retrieve: (string, int) -> string, req: WorkoutRequest,
                               week: int, previous: string)
    requires t.Valid()
    ensures req.constraints == None || req.constraints == Some("")
            ==> Text.Contains(BuildPrompt(t, retrieve, req, week, previous), DefaultDuration)
    ensures req.constraints.Some? && req.constraints.value != ""
            ==> Text.Contains(BuildPrompt(t, retrieve, req, week, previous), req.constraints.value)
  {
    FillShows(t.pieces, Slots(req, week, previous, retrieve(RetrievalQuery(req), TopK)), DurationSlot);
  }

  /** Empty injury and avoid lists read as "None"; non-empty ones are shown
      comma separated. */
  lemma PromptListFallbacks(t: Template, retrieve: (string, int) -> string, req: WorkoutRequest,
                            week: int, previous: string)
    requires t.Valid()
    ensures req.injuries == [] ==> Text.Contains(BuildPrompt(t, retrieve, req, week, previous), NoneText)
    ensures req.injuries != []
            ==> Text.Contains(BuildPrompt(t, retrieve, req, week, previous), Text.Join(req.injuries, ", "))
    ensures req.avoidExercises == [] ==> Text.Contains(BuildPrompt(t, retrieve, req, week, previous), NoneText)
    ensures req.avoidExercises != []
            ==> Text.Contains(BuildPrompt(t, retrieve, req, week, previous), Text.Join(req.avoidExercises, ", "))
  {
    var values := Slots(req, week, previous, retrieve(RetrievalQuery(req), TopK));
    FillShows(t.pieces, values, InjuriesSlot);
    FillShows(t.pieces, values, AvoidSlot);
  }

  /** The retrieval step is asked for five workouts matching the goals, and
      both the goals and what it returns appear in the prompt. */
  lemma PromptShowsRetrieval(t: Template, retrieve: (string, int) -> string, req: WorkoutRequest,
                             week: int, previous: string)
    requires t.Valid()
    ensures Text.Contains(BuildPrompt(t, retrieve, req, week, previous), retrieve(Text.Join(req.goals, ", "), 5))
    ensures Text.Contains(BuildPrompt(t, retrieve, req, week, previous), Text.Join(req.goals, ", "))
  {
    var values := Slots(req, week, previous, retrieve(RetrievalQuery(req), TopK));
    FillShows(t.pieces, values, RetrievedSlot);
    FillShows(t.pieces, values, GoalsSlot);
  }

  /** The closing instruction names the week. */
  lemma PromptNamesWeek(t: Template, retrieve: (string, int) -> string, req: WorkoutRequest,
                        week: int, previous: string)
    requires t.Valid()
    ensures Text.Contains(BuildPrompt(t, retrieve, req, week, previous), Text.IntToString(week))
  {
    FillShows(t.pieces, Slots(req, week, previous, retrieve(RetrievalQuery(req), TopK)), WeekSlot);
  }
}
