/** `get_workout_category`: a workout's title and score type, normalised
    by lower-casing and stripping, decide one of four labels. Warm-up
    keywords are checked before cool-down keywords. */
module WorkoutCategory {
  import Text

  const WarmupKeywords: seq<string> := ["pre-wod", "warmup", "mobility"]
  const CooldownKeywords: seq<string> := ["cooldown", "recovery", "stretch"]

  const WarmupLabel := "warmup"
  const CooldownLabel := "cooldown"
  const WorkoutLabel := "workout"
  const OtherLabel := "other"

  predicate IsLabel(s: string)
  {
    s == WarmupLabel || s == CooldownLabel || s == WorkoutLabel || s == OtherLabel
  }

  /** `any(kw in s for kw in keywords)`. */
  predicate AnyIn(keywords: seq<string>, s: string)
  {
    |keywords| > 0 && (Text.Contains(s, keywords[0]) || AnyIn(keywords[1..], s))
  }

  /** `AnyIn` holds exactly when one of the keywords occurs in `s`. */
  lemma {:induction false} AnyInIff(keywords: seq<string>, s: string)
    ensures AnyIn(keywords, s) <==> exists i :: 0 <= i < |keywords| && Text.Contains(s, keywords[i])
  {
    if |keywords| > 0 {
      AnyInIff(keywords[1..], s);
      if exists i :: 0 <= i < |keywords| && Text.Contains(s, keywords[i]) {
        var i :| 0 <= i < |keywords| && Text.Contains(s, keywords[i]);
        if i > 0 {
          assert keywords[1..][i - 1] == keywords[i];
        }
      }
      if AnyIn(keywords[1..], s) {
        var i :| 0 <= i < |keywords[1..]| && Text.Contains(s, keywords[1..][i]);
        assert keywords[i + 1] == keywords[1..][i];
      }
    }
  }

  /** The decision on the normalised title and score type. */
  function Classify(t: string, s: string): (r: string)
    ensures IsLabel(r)
  {
    if AnyIn(WarmupKeywords, t) then WarmupLabel
    else if AnyIn(CooldownKeywords, t) then CooldownLabel
    else if s != "" then WorkoutLabel
    else OtherLabel
  }

  /** `get_workout_category(workout)` in backend/services/workout_category.py:
      the title is lower-cased then stripped, the score type stripped then
      lower-cased. */
  function Category(title: string, scoreType: string): (r: string)
    ensures IsLabel(r)
  {
    Classify(Text.Strip(Text.Lower(title)), Text.Lower(Text.Strip(scoreType)))
  }

  /** The label in terms of keyword occurrences in the normalised title:
      each label together with the condition that selects it. */
  lemma CategoryCases(title: string, scoreType: string)
    ensures var t := Text.Normalize(title);
      && (Category(title, scoreType) == WarmupLabel <==> exists i :: 0 <= i < |WarmupKeywords| && Text.Contains(t, WarmupKeywords[i]))
      && (Category(title, scoreType) == CooldownLabel <==>
            (forall i :: 0 <= i < |WarmupKeywords| ==> !Text.Contains(t, WarmupKeywords[i]))
            && exists i :: 0 <= i < |CooldownKeywords| && Text.Contains(t, CooldownKeywords[i]))
      && (Category(title, scoreType) == WorkoutLabel <==>
            (forall i :: 0 <= i < |WarmupKeywords| ==> !Text.Contains(t, WarmupKeywords[i]))
            && (forall i :: 0 <= i < |CooldownKeywords| ==> !Text.Contains(t, CooldownKeywords[i]))
            && Text.Normalize(scoreType) != "")
  {
    var t := Text.Normalize(title);
    AnyInIff(WarmupKeywords, t);
    AnyInIff(CooldownKeywords, t);
    Text.LowerStripCommute(scoreType);
  }

  /** A warm-up keyword wins over any cool-down keyword in the same title. */
  lemma WarmupTakesPrecedence(title: string, scoreType: string, i: int)
    requires 0 <= i < |WarmupKeywords|
    requires Text.Contains(Text.Normalize(title), WarmupKeywords[i])
    ensures Category(title, scoreType) == WarmupLabel
  {
    CategoryCases(title, scoreType);
  }

  /** Classification does not see case (of ASCII letters) or surrounding
      whitespace: normalising the inputs first changes nothing. */
  lemma CategoryOfNormalized(title: string, scoreType: string)
    ensures Category(Text.Normalize(title), Text.Normalize(scoreType)) == Category(title, scoreType)
  {
    var t := Text.Normalize(title);
    var s := Text.Normalize(scoreType);
    Text.NormalizeIdempotent(title);
    Text.NormalizeIdempotent(scoreType);
    Text.LowerStripCommute(scoreType);
    Text.LowerStripCommute(s);
    assert Category(t, s) == Classify(t, s);
  }
}
