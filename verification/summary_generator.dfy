/** The digest of one week that is handed to the next week's prompt: one
    segment per day, "Day i:" followed by a fixed-format text per session,
    segments joined by single spaces. */
module SummaryGenerator {
  import opened Workouts
  import Text

  const RestDayText := " Rest Day - Recovery & Rest."

  /** The text one session adds to its day's segment. */
  function SessionText(s: Session): string
  {
    match s
    case Wod(description, stimulus, _, _) =>
      " WOD - " + description + " | Stimulus: " + stimulus + ";"
    case Strength(description, sets, reps, intensity, _, notes) =>
      " Strength - " + description + ", " + sets.Render() + "x" + reps.Render()
      + " at " + intensity + " | Notes: " + notes + ";"
    case RestDay(_, _) =>
      RestDayText
    case ActiveRecovery(_, activities, duration, _) =>
      " Active Recovery - " + Text.Join(activities, ", ") + ", Duration: " + duration + ";"
  }

  /** The texts of a day's sessions, in order, run together. */
  function SessionsText(ss: seq<Session>): string
  {
    if |ss| == 0 then "" else SessionText(ss[0]) + SessionsText(ss[1..])
  }

  function DayHeader(index: int): string
  {
    "Day " + Text.IntToString(index) + ":"
  }

  /** The segment for the day numbered `index` (counting from 1). */
  function DayText(index: int, d: Day): string
  {
    DayHeader(index) + SessionsText(d.sessions)
  }

  /** The segments of `days`, numbered from `first`. */
  function DayTexts(days: seq<Day>, first: int): seq<string>
  {
    seq(|days|, k requires 0 <= k < |days| => DayText(first + k, days[k]))
  }

  /** `summarize_week_for_next_prompt`. */
  function SummarizeWeek(w: Week): (r: string)
    ensures |w.days| == 0 ==> r == ""
    ensures |w.days| > 0 ==> Text.StartsWith(r, "Day 1:")
  {
    var parts := DayTexts(w.days, 1);
    if |parts| > 0 then
      Text.JoinStartsWithFirst(parts, " ");
      assert Text.IntToString(1) == "1";
      assert parts[0][..6] == "Day 1:";
      Text.Join(parts, " ")
    else
      Text.Join(parts, " ")
  }

  /** Every session's text opens with a space, its tag and " - ", so the
      summary names each session's kind. */
  lemma SessionTextNamesTag(s: Session)
    ensures Text.StartsWith(SessionText(s), " " + s.Tag() + " - ")
  {
    TagHeadSpelling(s);
    match s
    case Wod(description, stimulus, _, _) =>
      var h := " WOD - ";
      Text.PrefixOfConcat(h, description);
      Text.PrefixStays(h + description, h, " | Stimulus: ");
      Text.PrefixStays(h + description + " | Stimulus: ", h, stimulus);
      Text.PrefixStays(h + description + " | Stimulus: " + stimulus, h, ";");
    case Strength(description, sets, reps, intensity, _, notes) =>
      var h := " Strength - ";
      Text.PrefixOfConcat(h, description);
      Text.PrefixStays(h + description, h, ", ");
      Text.PrefixStays(h + description + ", ", h, sets.Render());
      Text.PrefixStays(h + description + ", " + sets.Render(), h, "x");
      Text.PrefixStays(h + description + ", " + sets.Render() + "x", h, reps.Render());
      var u := h + description + ", " + sets.Render() + "x" + reps.Render();
      Text.PrefixStays(u, h, " at ");
      Text.PrefixStays(u + " at ", h, intensity);
      Text.PrefixStays(u + " at " + intensity, h, " | Notes: ");
      Text.PrefixStays(u + " at " + intensity + " | Notes: ", h, notes);
      Text.PrefixStays(u + " at " + intensity + " | Notes: " + notes, h, ";");
    case RestDay(_, _) =>
      Text.PrefixOfConcat(" Rest Day - ", "Recovery & Rest.");
    case ActiveRecovery(_, activities, duration, _) =>
      var h := " Active Recovery - ";
      var joined := Text.Join(activities, ", ");
      Text.PrefixOfConcat(h, joined);
      Text.PrefixStays(h + joined, h, ", Duration: ");
      Text.PrefixStays(h + joined + ", Duration: ", h, duration);
      Text.PrefixStays(h + joined + ", Duration: " + duration, h, ";");
  }

  /** The literal each session text opens with is the tag between a space and " - ". */
  lemma TagHeadSpelling(s: Session)
    ensures s.Wod? ==> " " + s.Tag() + " - " == " WOD - "
    ensures s.Strength? ==> " " + s.Tag() + " - " == " Strength - "
    ensures s.RestDay? ==> " " + s.Tag() + " - " == " Rest Day - "
    ensures s.ActiveRecovery? ==> " " + s.Tag() + " - " == " Active Recovery - "
  {
  }

  /** A rest day contributes the same fixed text whatever its details. */
  lemma RestDayTextIsFixed(description: string, notes: string, description': string, notes': string)
    ensures SessionText(RestDay(description, notes)) == SessionText(RestDay(description', notes'))
    ensures SessionText(RestDay(description, notes)) == " Rest Day - Recovery & Rest."
  {
  }

  lemma {:induction false} SessionsTextAppend(ss: seq<Session>, s: Session)
    ensures SessionsText(ss + [s]) == SessionsText(ss) + SessionText(s)
  {
    if |ss| == 0 {
      assert ss + [s] == [s];
    } else {
      assert (ss + [s])[1..] == ss[1..] + [s];
      SessionsTextAppend(ss[1..], s);
    }
  }

  /** A day's segment is its header followed by its sessions' texts in
      order; a day without sessions is just its header. */
  lemma DayTextGrowsBySession(index: int, ss: seq<Session>, s: Session)
    ensures DayText(index, Day([])) == "Day " + Text.IntToString(index) + ":"
    ensures DayText(index, Day(ss + [s])) == DayText(index, Day(ss)) + SessionText(s)
  {
    SessionsTextAppend(ss, s);
  }

  /** The summary of an empty week is empty and the summary of a one-day
      week is that day's segment. */
  lemma SummaryOfShortWeeks(d: Day)
    ensures SummarizeWeek(Week([])) == ""
    ensures SummarizeWeek(Week([d])) == DayText(1, d)
  {
  }

  /** Appending a day appends its segment, numbered one past the last. */
  lemma DayTextsAppend(days: seq<Day>, first: int, d: Day)
    ensures DayTexts(days + [d], first) == DayTexts(days, first) + [DayText(first + |days|, d)]
  {
    var l := DayTexts(days + [d], first);
    var r := DayTexts(days, first) + [DayText(first + |days|, d)];
    forall k | 0 <= k < |l|
      ensures l[k] == r[k]
    {
      if k < |days| {
        assert (days + [d])[k] == days[k];
      } else {
        assert (days + [d])[k] == d;
      }
    }
    assert l == r;
  }

  /** Adding a day to a non-empty week appends one space and that day's
      segment, numbered one past the previous last day. With the two cases
      above this determines the summary of every week. */
  lemma SummaryGrowsByDay(days: seq<Day>, d: Day)
    requires |days| > 0
    ensures SummarizeWeek(Week(days + [d])) == SummarizeWeek(Week(days)) + " " + DayText(|days| + 1, d)
  {
    DayTextsAppend(days, 1, d);
    Text.JoinAppend(DayTexts(days, 1), " ", DayText(|days| + 1, d));
  }

  /** A week with at least one day has a non-empty summary: it opens with "Day 1:". */
  lemma SummaryOpensWithFirstDay(w: Week)
    requires |w.days| > 0
    ensures Text.StartsWith(SummarizeWeek(w), "Day 1:")
    ensures SummarizeWeek(w) != ""
  {
    var parts := DayTexts(w.days, 1);
    Text.JoinStartsWithFirst(parts, " ");
    assert Text.IntToString(1) == "1";
    assert parts[0][..6] == "Day 1:";
  }

  /** One day's segment built the way the source builds it: the header,
      then each session's text appended in turn. */
  method DayTextByLoop(index: int, day: Day) returns (text: string)
    ensures text == DayText(index, day)
  {
    text := DayHeader(index);
    var j := 0;
    while j < |day.sessions|
      invariant 0 <= j <= |day.sessions|
      invariant text == DayText(index, Day(day.sessions[..j]))
    {
      DayTextGrowsBySession(index, day.sessions[..j], day.sessions[j]);
      assert day.sessions[..j + 1] == day.sessions[..j] + [day.sessions[j]];
      text := text + SessionText(day.sessions[j]);
      j := j + 1;
    }
    assert day.sessions[..j] == day.sessions;
  }

  /** The summary built the way the source builds it: a list of day
      segments, each grown session by session, joined at the end. */
  method SummarizeWeekByLoop(w: Week) returns (summary: string)
    ensures summary == SummarizeWeek(w)
  {
    var parts: seq<string> := [];
    var i := 0;
    while i < |w.days|
      invariant 0 <= i <= |w.days|
      invariant parts == DayTexts(w.days[..i], 1)
    {
      var text := DayTextByLoop(i + 1, w.days[i]);
      DayTextsAppend(w.days[..i], 1, w.days[i]);
      assert w.days[..i + 1] == w.days[..i] + [w.days[i]];
      parts := parts + [text];
      i := i + 1;
    }
    assert w.days[..i] == w.days;
    summary := Text.Join(parts, " ");
  }
}
