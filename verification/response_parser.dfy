/** Turning the generator's decoded JSON into a typed Plan.

    Two versions of the parser exist side by side in the source. The older
    one skips a session whose tag it does not recognise and names an unnamed
    plan "Generated Workout Plan"; the active one requires a top-level
    `name`. The active one builds sessions with a `Session.from_dict` that is
    not part of this model; here it uses the same variant constructors as the
    older one but rejects an unrecognised tag instead of skipping it. */
module ResponseParser {
  import opened Wrappers
  import opened Exceptions
  import opened Json
  import opened Workouts
  import Text

  datatype Version = Lenient | Strict

  const ErrorPrefix := "Failed to parse OpenAI response"
  const DefaultPlanName := "Generated Workout Plan"
  const RestDayDefault := "Take the day off to recover."
  const RecoveryDescriptionDefault := "Recovery session"
  const RecoveryDurationDefault := "30-60 minutes"
  const RecoveryIntensityDefault := "Low"

  /** The exceptions the parsing steps can raise. */
  predicate Raisable(e: Exception)
  {
    e.ValueError? || e.KeyError? || e.AttributeError? || e.TypeError?
  }

  /** The text stored under `key`, or `default` when the key is absent. */
  function TextOr(v: JValue, key: string, default: string): string
  {
    if v.JObj? && key in v.fields && v.fields[key].JStr? then v.fields[key].s else default
  }

  /** `key` is absent or holds a string: the field is acceptable as an optional text. */
  predicate OptionalText(v: JValue, key: string)
  {
    v.JObj? && (key !in v.fields || v.fields[key].JStr?)
  }

  /** A text field of a typed record: anything but a JSON string is rejected. */
  function TextField(field: string, v: JValue): (r: Result<string, Exception>)
    ensures r.Success? <==> v.JStr?
    ensures r.Success? ==> r.value == v.s
    ensures r.Failure? ==> r.error.ValueError?
  {
    if v.JStr? then Success(v.s) else Failure(ValueError(field + ": input should be a valid string"))
  }

  /** The sets or reps of a strength session: a number or a text. */
  function CountField(field: string, v: JValue): (r: Result<Count, Exception>)
    ensures r.Success? <==> v.JNum? || v.JStr?
    ensures v.JNum? ==> r == Success(Whole(v.n))
    ensures v.JStr? ==> r == Success(Words(v.s))
    ensures r.Failure? ==> r.error.ValueError?
  {
    match v
    case JNum(n) => Success(Whole(n))
    case JStr(s) => Success(Words(s))
    case _ => Failure(ValueError(field + ": input should be a number or a string"))
  }

  /** A list of texts: a JSON array of strings. */
  function TextListField(field: string, v: JValue): (r: Result<seq<string>, Exception>)
    ensures r.Success? <==> v.JArr? && forall i :: 0 <= i < |v.items| ==> v.items[i].JStr?
    ensures r.Success? ==> |r.value| == |v.items| && forall i :: 0 <= i < |r.value| ==> r.value[i] == v.items[i].s
    ensures r.Failure? ==> r.error.ValueError?
  {
    if v.JArr? && forall i :: 0 <= i < |v.items| ==> v.items[i].JStr? then
      Success(seq(|v.items|, i requires 0 <= i < |v.items| && v.items[i].JStr? => v.items[i].s))
    else
      Failure(ValueError(field + ": input should be a list of strings"))
  }

  /** `key` is absent from the object `v`. */
  predicate Absent(v: JValue, key: string)
  {
    v.JObj? && key !in v.fields
  }

  /** One movement of a WOD; a missing `description` or `resources` is "". */
  function ParseMovement(v: JValue): (r: Result<Movement, Exception>)
    ensures r.Success? <==> OptionalText(v, "description") && OptionalText(v, "resources")
    ensures r.Success? ==> r.value == Movement(TextOr(v, "description", ""), TextOr(v, "resources", ""))
    ensures r.Failure? ==> Raisable(r.error)
  {
    var m :- AsObject(v);
    var d :- TextField("description", Lookup(m, "description", JStr("")));
    var s :- TextField("resources", Lookup(m, "resources", JStr("")));
    Success(Movement(d, s))
  }

  /** The details of a WOD: one movement per input movement, in order. */
  function ParseWod(d: JValue): (r: Result<Session, Exception>)
    ensures r.Success? ==> r.value.Wod?
    ensures r.Success? ==>
      && r.value.description == TextOr(d, "description", "")
      && r.value.intendedStimulus == TextOr(d, "intended_stimulus", "")
      && r.value.scalingOptions == TextOr(d, "scaling_options", "")
    ensures r.Success? ==>
      var items := Children(d, "movements");
      && items.Success?
      && |r.value.movements| == |items.value|
      && forall i :: 0 <= i < |items.value| ==> ParseMovement(items.value[i]) == Success(r.value.movements[i])
    ensures r.Failure? ==> Raisable(r.error)
  {
    var m :- AsObject(d);
    var items :- Elements(Lookup(m, "movements", EmptyList));
    var movements :- MapAll(items, ParseMovement);
    var description :- TextField("description", Lookup(m, "description", JStr("")));
    var stimulus :- TextField("intended_stimulus", Lookup(m, "intended_stimulus", JStr("")));
    var scaling :- TextField("scaling_options", Lookup(m, "scaling_options", JStr("")));
    Success(Wod(description, stimulus, scaling, movements))
  }

  /** `key` is absent or holds a number or a text: acceptable as an optional count. */
  predicate OptionalCount(v: JValue, key: string)
  {
    v.JObj? && (key !in v.fields || v.fields[key].JNum? || v.fields[key].JStr?)
  }

  /** `key` is absent or holds a list of texts. */
  predicate OptionalTextList(v: JValue, key: string)
  {
    v.JObj? && (key !in v.fields || (v.fields[key].JArr? && forall i :: 0 <= i < |v.fields[key].items| ==> v.fields[key].items[i].JStr?))
  }

  /** The details of a strength session; `sets` and `reps` default to 0. */
  function ParseStrength(d: JValue): (r: Result<Session, Exception>)
    ensures r.Success? ==> r.value.Strength?
    ensures r.Success? ==>
      && r.value.description == TextOr(d, "description", "")
      && r.value.intensity == TextOr(d, "intensity", "")
      && r.value.rest == TextOr(d, "rest", "")
      && r.value.notes == TextOr(d, "notes", "")
    ensures r.Success? && Absent(d, "sets") ==> r.value.sets == Whole(0)
    ensures r.Success? && Absent(d, "reps") ==> r.value.reps == Whole(0)
    ensures r.Success? && d.JObj? && "sets" in d.fields ==> CountField("sets", d.fields["sets"]) == Success(r.value.sets)
    ensures r.Success? && d.JObj? && "reps" in d.fields ==> CountField("reps", d.fields["reps"]) == Success(r.value.reps)
    ensures r.Success? <==>
      && OptionalText(d, "description") && OptionalCount(d, "sets") && OptionalCount(d, "reps")
      && OptionalText(d, "intensity") && OptionalText(d, "rest") && OptionalText(d, "notes")
    ensures r.Failure? ==> Raisable(r.error)
  {
    var m :- AsObject(d);
    var description :- TextField("description", Lookup(m, "description", JStr("")));
    var sets :- CountField("sets", Lookup(m, "sets", JNum(0)));
    var reps :- CountField("reps", Lookup(m, "reps", JNum(0)));
    var intensity :- TextField("intensity", Lookup(m, "intensity", JStr("")));
    var rest :- TextField("rest", Lookup(m, "rest", JStr("")));
    var notes :- TextField("notes", Lookup(m, "notes", JStr("")));
    Success(Strength(description, sets, reps, intensity, rest, notes))
  }

  /** The details of a rest day; both texts default to the recovery message. */
  function ParseRestDay(d: JValue): (r: Result<Session, Exception>)
    ensures r.Success? <==> OptionalText(d, "description") && OptionalText(d, "notes")
    ensures r.Success? ==>
      r.value == RestDay(TextOr(d, "description", RestDayDefault), TextOr(d, "notes", RestDayDefault))
    ensures r.Failure? ==> Raisable(r.error)
  {
    var m :- AsObject(d);
    var description :- TextField("description", Lookup(m, "description", JStr(RestDayDefault)));
    var notes :- TextField("notes", Lookup(m, "notes", JStr(RestDayDefault)));
    Success(RestDay(description, notes))
  }

  /** The details of an active-recovery session, with its four defaults. */
  function ParseActiveRecovery(d: JValue): (r: Result<Session, Exception>)
    ensures r.Success? ==> r.value.ActiveRecovery?
    ensures r.Success? ==>
      && r.value.description == TextOr(d, "description", RecoveryDescriptionDefault)
      && r.value.duration == TextOr(d, "duration", RecoveryDurationDefault)
      && r.value.intensity == TextOr(d, "intensity", RecoveryIntensityDefault)
    ensures r.Success? && Absent(d, "activities") ==> r.value.activities == []
    ensures r.Success? && d.JObj? && "activities" in d.fields
            ==> TextListField("activities", d.fields["activities"]) == Success(r.value.activities)
    ensures r.Success? <==>
      && OptionalText(d, "description") && OptionalTextList(d, "activities")
      && OptionalText(d, "duration") && OptionalText(d, "intensity")
    ensures r.Failure? ==> Raisable(r.error)
  {
    var m :- AsObject(d);
    var description :- TextField("description", Lookup(m, "description", JStr(RecoveryDescriptionDefault)));
    var activities :- TextListField("activities", Lookup(m, "activities", EmptyList));
    var duration :- TextField("duration", Lookup(m, "duration", JStr(RecoveryDurationDefault)));
    var intensity :- TextField("intensity", Lookup(m, "intensity", JStr(RecoveryIntensityDefault)));
    Success(ActiveRecovery(description, activities, duration, intensity))
  }

  /** The stripped `type` of a session object, when reading it does not raise. */
  function TagOf(v: JValue): Option<string>
  {
    if !v.JObj? then None
    else if "type" !in v.fields then Some("")
    else if v.fields["type"].JStr? then Some(Text.Strip(v.fields["type"].s))
    else None
  }

  /** Dispatch on a stripped tag: `None` when the tag is none of the four. */
  function ParseDetails(tag: string, details: JValue): (r: Result<Option<Session>, Exception>)
    ensures !IsRecognisedTag(tag) <==> r == Success(None)
    ensures r.Success? && r.value.Some? ==> r.value.value.Tag() == tag
    ensures tag == WodTag ==> (r.Success? <==> ParseWod(details).Success?)
                              && (r.Success? ==> r.value == Some(ParseWod(details).value))
    ensures tag == StrengthTag ==> (r.Success? <==> ParseStrength(details).Success?)
                                   && (r.Success? ==> r.value == Some(ParseStrength(details).value))
    ensures tag == RestDayTag ==> (r.Success? <==> ParseRestDay(details).Success?)
                                  && (r.Success? ==> r.value == Some(ParseRestDay(details).value))
    ensures tag == ActiveRecoveryTag ==> (r.Success? <==> ParseActiveRecovery(details).Success?)
                                         && (r.Success? ==> r.value == Some(ParseActiveRecovery(details).value))
    ensures r.Failure? ==> Raisable(r.error)
  {
    if tag == WodTag then
      var s :- ParseWod(details); Success(Some(s))
    else if tag == StrengthTag then
      var s :- ParseStrength(details); Success(Some(s))
    else if tag == RestDayTag then
      var s :- ParseRestDay(details); Success(Some(s))
    else if tag == ActiveRecoveryTag then
      var s :- ParseActiveRecovery(details); Success(Some(s))
    else
      Success(None)
  }

  /** One session: the stripped tag selects the variant. An unrecognised
      tag gives `None` in the lenient version and an error in the strict one;
      the details are not read at all for an unrecognised tag. */
  function ParseSession(version: Version, v: JValue): (r: Result<Option<Session>, Exception>)
    ensures r.Success? ==> TagOf(v).Some?
    ensures r.Success? && r.value.Some? ==> r.value.value.Tag() == TagOf(v).value
    ensures version == Lenient ==>
      (r == Success(None) <==> TagOf(v).Some? && !IsRecognisedTag(TagOf(v).value))
    ensures version == Strict ==> (r.Success? ==> r.value.Some?)
    ensures version == Strict && TagOf(v).Some? && !IsRecognisedTag(TagOf(v).value) ==>
      r.Failure? && r.error.ValueError?
    ensures TagOf(v).Some? && IsRecognisedTag(TagOf(v).value) ==>
      ParseDetails(TagOf(v).value, Lookup(v.fields, "details", EmptyObject)) == r
    ensures r.Failure? ==> Raisable(r.error)
  {
    var m :- AsObject(v);
    var tag :- StripValue(Lookup(m, "type", JStr("")));
    SessionFromTag(version, tag, Lookup(m, "details", EmptyObject))
  }

  /** The session for an already stripped tag and its details. */
  function SessionFromTag(version: Version, tag: string, details: JValue): (r: Result<Option<Session>, Exception>)
    ensures r.Success? && r.value.Some? ==> r.value.value.Tag() == tag
    ensures version == Lenient ==> (r == Success(None) <==> !IsRecognisedTag(tag))
    ensures version == Strict ==> (r.Success? ==> r.value.Some?)
    ensures version == Strict && !IsRecognisedTag(tag) ==> r.Failure? && r.error.ValueError?
    ensures IsRecognisedTag(tag) ==> r == ParseDetails(tag, details)
    ensures r.Failure? ==> Raisable(r.error)
  {
    var parsed :- ParseDetails(tag, details);
    if parsed.None? && version == Strict then
      Failure(ValueError("Unrecognized session type: " + tag))
    else
      Success(parsed)
  }

  /** One day: its sessions in input order, minus the skipped ones. */
  function ParseDay(version: Version, v: JValue): (r: Result<Day, Exception>)
    ensures r.Success? ==> Children(v, "sessions").Success?
    ensures r.Success? ==>
      var items := Children(v, "sessions").value;
      exists parsed: seq<Option<Session>> ::
        && |parsed| == |items|
        && (forall i :: 0 <= i < |items| ==> ParseSession(version, items[i]) == Success(parsed[i]))
        && r.value.sessions == Somes(parsed)
    ensures version == Strict && r.Success? ==>
      var items := Children(v, "sessions").value;
      && |r.value.sessions| == |items|
      && forall i :: 0 <= i < |items| ==> ParseSession(Strict, items[i]) == Success(Some(r.value.sessions[i]))
    ensures r.Failure? ==> Raisable(r.error)
  {
    var items :- Children(v, "sessions");
    var parsed :- MapAll(items, s => ParseSession(version, s));
    StrictKeepsAll(version, items, parsed);
    Success(Day(Somes(parsed)))
  }

  lemma StrictKeepsAll(version: Version, items: seq<JValue>, parsed: seq<Option<Session>>)
    requires |parsed| == |items|
    requires forall i :: 0 <= i < |items| ==> ParseSession(version, items[i]) == Success(parsed[i])
    ensures version == Strict ==>
      && |Somes(parsed)| == |items|
      && forall i :: 0 <= i < |items| ==> parsed[i] == Some(Somes(parsed)[i])
  {
    if version == Strict {
      AllPresent(parsed);
    }
  }

  lemma {:induction false} AllPresent<T>(xs: seq<Option<T>>)
    requires forall i :: 0 <= i < |xs| ==> xs[i].Some?
    ensures |Somes(xs)| == |xs|
    ensures forall i :: 0 <= i < |xs| ==> xs[i] == Some(Somes(xs)[i])
  {
    if |xs| > 0 {
      AllPresent(xs[1..]);
      assert forall i :: 1 <= i < |xs| ==> xs[i] == xs[1..][i - 1];
    }
  }

  /** One week: one Day per input day, in order. */
  function ParseWeek(version: Version, v: JValue): (r: Result<Week, Exception>)
    ensures r.Success? ==>
      var items := Children(v, "days");
      && items.Success?
      && |r.value.days| == |items.value|
      && forall i :: 0 <= i < |items.value| ==> ParseDay(version, items.value[i]) == Success(r.value.days[i])
    ensures r.Failure? ==> Raisable(r.error)
  {
    var items :- Children(v, "days");
    var days :- MapAll(items, d => ParseDay(version, d));
    Success(Week(days))
  }

  /** The decoded top-level object: one Week per input week, in order, then the name. */
  function ParseTree(version: Version, v: JValue): (r: Result<Plan, Exception>)
    ensures r.Success? ==>
      var items := Children(v, "weeks");
      && items.Success?
      && |r.value.weeks| == |items.value|
      && forall i :: 0 <= i < |items.value| ==> ParseWeek(version, items.value[i]) == Success(r.value.weeks[i])
    ensures version == Strict && r.Success? ==> "name" in v.fields && v.fields["name"] == JStr(r.value.name)
    ensures version == Lenient && r.Success? ==> r.value.name == TextOr(v, "name", DefaultPlanName)
    ensures r.Failure? ==> Raisable(r.error)
  {
    var items :- Children(v, "weeks");
    var weeks :- MapAll(items, w => ParseWeek(version, w));
    var nameValue :- if version == Strict then Index(v, "name") else Get(v, "name", JStr(DefaultPlanName));
    var name :- TextField("name", nameValue);
    Success(Plan(name, weeks))
  }

  /** The except clause: a ValueError or KeyError is re-raised as a
      ValueError carrying the fixed prefix; anything else escapes as it is. */
  function Rewrap(e: Exception): (r: Exception)
    ensures e.ValueError? || e.KeyError? ==> r.ValueError? && Text.StartsWith(r.message, ErrorPrefix)
    ensures !(e.ValueError? || e.KeyError?) ==> r == e
  {
    if e.ValueError? || e.KeyError? then
      Text.PrefixOfConcat3(ErrorPrefix, ": ", Describe(e));
      ValueError(ErrorPrefix + ": " + Describe(e))
    else e
  }

  /** Decodes the raw text (an abstract step that may fail) and parses the tree.
      No partial plan: the result is a whole Plan or an exception. */
  function Parse(version: Version, raw: string, decode: string -> Result<JValue, string>): (r: Result<Plan, Exception>)
    ensures decode(raw).Failure? ==> r == Failure(ValueError(ErrorPrefix + ": " + decode(raw).error))
    ensures r.Success? ==> decode(raw).Success? && ParseTree(version, decode(raw).value) == r
    ensures r.Failure? ==>
      || (r.error.ValueError? && Text.StartsWith(r.error.message, ErrorPrefix))
      || r.error.AttributeError?
      || r.error.TypeError?
  {
    match decode(raw)
    case Failure(message) =>
      Text.PrefixOfConcat3(ErrorPrefix, ": ", message);
      Failure(ValueError(ErrorPrefix + ": " + message))
    case Success(tree) =>
      match ParseTree(version, tree)
      case Success(plan) => Success(plan)
      case Failure(e) => Failure(Rewrap(e))
  }

  /** `parse_openai_response_old`. */
  function ParseOld(raw: string, decode: string -> Result<JValue, string>): (r: Result<Plan, Exception>)
    ensures decode(raw).Failure? ==> r == Failure(ValueError(ErrorPrefix + ": " + decode(raw).error))
    ensures r.Success? ==> decode(raw).Success?
                           && r.value.name == TextOr(decode(raw).value, "name", DefaultPlanName)
                           && Children(decode(raw).value, "weeks").Success?
                           && |r.value.weeks| == |Children(decode(raw).value, "weeks").value|
  {
    Parse(Lenient, raw, decode)
  }

  /** `parse_openai_response`. */
  function ParseActive(raw: string, decode: string -> Result<JValue, string>): (r: Result<Plan, Exception>)
    ensures decode(raw).Failure? ==> r == Failure(ValueError(ErrorPrefix + ": " + decode(raw).error))
    ensures r.Success? ==> decode(raw).Success? && decode(raw).value.JObj?
                           && "name" in decode(raw).value.fields
                           && decode(raw).value.fields["name"] == JStr(r.value.name)
                           && Children(decode(raw).value, "weeks").Success?
                           && |r.value.weeks| == |Children(decode(raw).value, "weeks").value|
  {
    Parse(Strict, raw, decode)
  }

  /** The tags of a sequence of sessions, in order. */
  function Tags(ss: seq<Session>): seq<string>
  {
    if |ss| == 0 then [] else [ss[0].Tag()] + Tags(ss[1..])
  }

  /** The stripped tags of the input sessions that carry one of the four recognised tags, in order. */
  function RecognisedTags(items: seq<JValue>): seq<string>
  {
    if |items| == 0 then []
    else
      var t := TagOf(items[0]);
      (if t.Some? && IsRecognisedTag(t.value) then [t.value] else []) + RecognisedTags(items[1..])
  }

  lemma {:induction false} TagsOfSomes(items: seq<JValue>, parsed: seq<Option<Session>>)
    requires |parsed| == |items|
    requires forall i :: 0 <= i < |items| ==> ParseSession(Lenient, items[i]) == Success(parsed[i])
    ensures Tags(Somes(parsed)) == RecognisedTags(items)
  {
    if |items| > 0 {
      TagsOfSomes(items[1..], parsed[1..]);
      var head := match parsed[0] case Some(x) => [x] case None => [];
      assert Somes(parsed) == head + Somes(parsed[1..]);
      TagsAppend(head, Somes(parsed[1..]));
    }
  }

  lemma {:induction false} TagsAppend(a: seq<Session>, b: seq<Session>)
    ensures Tags(a + b) == Tags(a) + Tags(b)
  {
    if |a| > 0 {
      assert (a + b)[1..] == a[1..] + b;
      TagsAppend(a[1..], b);
    } else {
      assert a + b == b;
    }
  }

  /** The older parser keeps exactly the sessions with a recognised tag, in
      input order, and drops the rest. */
  lemma LenientDayKeepsRecognisedSessions(v: JValue)
    requires ParseDay(Lenient, v).Success?
    ensures Tags(ParseDay(Lenient, v).value.sessions) == RecognisedTags(Children(v, "sessions").value)
  {
    var items := Children(v, "sessions").value;
    var parsed: seq<Option<Session>> :| |parsed| == |items|
      && (forall i :: 0 <= i < |items| ==> ParseSession(Lenient, items[i]) == Success(parsed[i]))
      && ParseDay(Lenient, v).value.sessions == Somes(parsed);
    TagsOfSomes(items, parsed);
  }

  /** In the strict parser one session with an unrecognised tag fails the whole day. */
  lemma StrictDayRejectsUnknownTag(v: JValue, i: int)
    requires Children(v, "sessions").Success?
    requires 0 <= i < |Children(v, "sessions").value|
    requires var t := TagOf(Children(v, "sessions").value[i]); t.Some? && !IsRecognisedTag(t.value)
    ensures ParseDay(Strict, v).Failure?
  {
    var items := Children(v, "sessions").value;
    assert ParseSession(Strict, items[i]).Failure?;
  }

  /** Missing `weeks`, `days`, `sessions` and `details` keys read as empty. */
  lemma MissingKeysReadAsEmpty(version: Version, name: string)
    ensures ParseDay(version, EmptyObject) == Success(Day([]))
    ensures ParseWeek(version, EmptyObject) == Success(Week([]))
    ensures ParseTree(Lenient, EmptyObject) == Success(Plan(DefaultPlanName, []))
    ensures ParseTree(Strict, JObj(map["name" := JStr(name)])) == Success(Plan(name, []))
  {
    assert Somes<Session>([]) == [];
  }

  /** Empty details give every default of each variant. */
  lemma EmptyDetailsGetDefaults()
    ensures ParseWod(EmptyObject) == Success(Wod("", "", "", []))
    ensures ParseStrength(EmptyObject) == Success(Strength("", Whole(0), Whole(0), "", "", ""))
    ensures ParseRestDay(EmptyObject) == Success(RestDay(RestDayDefault, RestDayDefault))
    ensures ParseActiveRecovery(EmptyObject)
         == Success(ActiveRecovery(RecoveryDescriptionDefault, [], RecoveryDurationDefault, RecoveryIntensityDefault))
  {
    assert MapAll([], ParseMovement) == Success([]);
  }

  /** A session object holding only its tag is parsed as its variant with empty details. */
  lemma BareSessionUsesEmptyDetails(version: Version, tag: string)
    requires IsRecognisedTag(Text.Strip(tag))
    ensures ParseSession(version, JObj(map["type" := JStr(tag)]))
         == ParseDetails(Text.Strip(tag), EmptyObject)
  {
    var m: map<string, JValue> := map[];
    SessionWithTag(version, m, tag);
    assert m["type" := JStr(tag)] == map["type" := JStr(tag)];
    assert Lookup(m, "details", EmptyObject) == EmptyObject;
  }

  /** A session object holding only its tag gets every default of its variant. */
  lemma BareSessionsGetDefaults(version: Version, tag: string)
    ensures var v := JObj(map["type" := JStr(tag)]);
      && (Text.Strip(tag) == WodTag ==> ParseSession(version, v) == Success(Some(Wod("", "", "", []))))
      && (Text.Strip(tag) == StrengthTag ==>
            ParseSession(version, v) == Success(Some(Strength("", Whole(0), Whole(0), "", "", ""))))
      && (Text.Strip(tag) == RestDayTag ==>
            ParseSession(version, v) == Success(Some(RestDay(RestDayDefault, RestDayDefault))))
      && (Text.Strip(tag) == ActiveRecoveryTag ==>
            ParseSession(version, v) == Success(Some(ActiveRecovery(
              RecoveryDescriptionDefault, [], RecoveryDurationDefault, RecoveryIntensityDefault))))
  {
    if IsRecognisedTag(Text.Strip(tag)) {
      BareSessionUsesEmptyDetails(version, tag);
      EmptyDetailsGetDefaults();
    }
  }

  /** Surrounding whitespace in the tag changes nothing: a session parses as
      it would with its tag already stripped. */
  lemma TagWhitespaceIgnored(version: Version, m: map<string, JValue>, tag: string)
    ensures ParseSession(version, JObj(m["type" := JStr(tag)]))
         == ParseSession(version, JObj(m["type" := JStr(Text.Strip(tag))]))
  {
    SessionWithTag(version, m, tag);
    SessionWithTag(version, m, Text.Strip(tag));
    Text.StripIdempotent(tag);
  }

  /** A session object whose `type` is a string parses as its stripped tag
      dispatched on its details. */
  lemma SessionWithTag(version: Version, m: map<string, JValue>, tag: string)
    ensures ParseSession(version, JObj(m["type" := JStr(tag)]))
         == SessionFromTag(version, Text.Strip(tag), Lookup(m, "details", EmptyObject))
  {
    var m1 := m["type" := JStr(tag)];
    assert Lookup(m1, "details", EmptyObject) == Lookup(m, "details", EmptyObject);
    assert StripValue(Lookup(m1, "type", JStr(""))) == Success(Text.Strip(tag));
  }

  /** The active parser refuses a plan without `name`; with no weeks to
      fail first, the error is the wrapped KeyError. */
  lemma ActiveParserRequiresName(raw: string, decode: string -> Result<JValue, string>, m: map<string, JValue>)
    requires decode(raw) == Success(JObj(m))
    requires "name" !in m
    ensures ParseActive(raw, decode).Failure?
    ensures "weeks" !in m ==>
      ParseActive(raw, decode) == Failure(ValueError("Failed to parse OpenAI response: 'name'"))
  {
    if "weeks" !in m {
      assert Children(JObj(m), "weeks") == Success([]);
      assert MapAll([], w => ParseWeek(Strict, w)) == Success([]);
      assert ParseTree(Strict, JObj(m)) == Failure(KeyError("name"));
      assert Rewrap(KeyError("name")) == ValueError(ErrorPrefix + ": " + "'name'");
      assert ErrorPrefix + ": " + "'name'" == "Failed to parse OpenAI response: 'name'";
      assert ParseActive(raw, decode) == Parse(Strict, raw, decode);
    }
  }

  /** The older parser names an unnamed plan, and both parsers copy a given name verbatim. */
  lemma PlanNames(raw: string, decode: string -> Result<JValue, string>)
    requires decode(raw).Success? && decode(raw).value.JObj?
    ensures var m := decode(raw).value.fields;
      ParseOld(raw, decode).Success? && "name" !in m ==> ParseOld(raw, decode).value.name == DefaultPlanName
    ensures var m := decode(raw).value.fields;
      ParseActive(raw, decode).Success? ==> "name" in m && m["name"] == JStr(ParseActive(raw, decode).value.name)
  {
  }
}
