/** The week-by-week generation loop. Each week is looked up in a cache of
    raw responses; on a miss the prompt is built, the generator is called
    once, and its text is written to the cache before it is parsed. The
    summary of each week is carried into the next week's prompt. */
module GenerateWorkout {
  import opened Wrappers
  import opened Exceptions
  import opened Json
  import opened Workouts
  import Text
  import ResponseParser
  import SummaryGenerator
  import PromptBuilder

  const CacheDir := "workout_cache"

  /** Raw responses by file name; an absent key is a file that does not exist. */
  type Cache = map<string, string>

  /** `os.path.join(CACHE_DIR, f"week_{week}.json")`. */
  function CacheKey(week: int): string
  {
    CacheDir + "/week_" + Text.IntToString(week) + ".json"
  }

  /** Different weeks are cached under different names. */
  lemma CacheKeyInjective(a: int, b: int)
    requires CacheKey(a) == CacheKey(b)
    ensures a == b
  {
    Text.CancelAround(CacheDir + "/week_", Text.IntToString(a), Text.IntToString(b), ".json");
    Text.IntToStringInjective(a, b);
  }

  /** `if cached_response:` -- a missing entry and an empty text both miss. */
  predicate Hit(cache: Cache, week: int)
  {
    CacheKey(week) in cache && cache[CacheKey(week)] != ""
  }

  /** The collaborators, as the loop sees them: `build_prompt`, the
      generator (its `n`-th call with a prompt), `parse_openai_response` and
      `summarize_week_for_next_prompt`. `Wire` binds them to the models of
      those functions. */
  datatype Env = Env(
    prompt: (WorkoutRequest, int, string) -> string,
    generate: (nat, string) -> Result<string, Exception>,
    parse: string -> Result<Plan, Exception>,
    summarize: Week -> string)

  /** The collaborators of the running program: the prompt builder with its
      fixed prose and retrieval step, the active parser over `decode`, and
      the week summariser. */
  function Wire(template: PromptBuilder.Template, retrieve: (string, int) -> string,
                generate: (nat, string) -> Result<string, Exception>,
                decode: string -> Result<JValue, string>): (env: Env)
    requires template.Valid()
    ensures forall req, week, previous :: env.prompt(req, week, previous)
              == PromptBuilder.BuildPrompt(template, retrieve, req, week, previous)
    ensures forall text :: env.parse(text) == ResponseParser.ParseActive(text, decode)
    ensures forall w :: env.summarize(w) == SummaryGenerator.SummarizeWeek(w)
    ensures env.generate == generate
  {
    Env((req, week, previous) => PromptBuilder.BuildPrompt(template, retrieve, req, week, previous),
        generate,
        text => ResponseParser.ParseActive(text, decode),
        w => SummaryGenerator.SummarizeWeek(w))
  }

  /** One generator call: the week it was made for and the prompt it was given. */
  datatype Call = Call(week: int, prompt: string)

  /** `parse_openai_response(text).weeks[0]`: a plan without weeks fails on the index. */
  function FirstWeek(env: Env, text: string): (r: Result<Week, Exception>)
    ensures r.Success? <==> env.parse(text).Success? && |env.parse(text).value.weeks| > 0
    ensures r.Success? ==> r.value == env.parse(text).value.weeks[0]
    ensures env.parse(text).Failure? ==> r == Failure(env.parse(text).error)
    ensures env.parse(text).Success? && env.parse(text).value.weeks == []
            ==> r == Failure(IndexError("list index out of range"))
  {
    var plan :- env.parse(text);
    if |plan.weeks| == 0 then Failure(IndexError("list index out of range")) else Success(plan.weeks[0])
  }

  /** What generating one week produced. */
  datatype WeekOutcome = WeekOutcome(result: Result<Week, Exception>, cache: Cache, call: Option<Call>)

  /** `generate_weekly_workout(user_input, week, previous_summary)`, as the
      `n`-th generator call if it needs one. */
  function GenerateWeekly(env: Env, req: WorkoutRequest, week: int, previous: string, cache: Cache, n: nat)
    : (o: WeekOutcome)
    ensures o.call.None? <==> Hit(cache, week)
    ensures o.call.None? ==> o.cache == cache
    ensures o.call.Some? ==> o.call.value == Call(week, env.prompt(req, week, previous))
    ensures forall key :: key in o.cache && key != CacheKey(week) ==> key in cache && o.cache[key] == cache[key]
    ensures forall key :: key in cache ==> key in o.cache
    ensures o.result.Success? ==> CacheKey(week) in o.cache && FirstWeek(env, o.cache[CacheKey(week)]) == o.result
    ensures o.call.Some? && env.generate(n, o.call.value.prompt).Success?
            ==> CacheKey(week) in o.cache && o.cache[CacheKey(week)] == env.generate(n, o.call.value.prompt).value
    ensures o.call.Some? && env.generate(n, o.call.value.prompt).Failure?
            ==> o.result == Failure(env.generate(n, o.call.value.prompt).error) && o.cache == cache
    ensures !(o.call.Some? && env.generate(n, o.call.value.prompt).Failure?)
            ==> CacheKey(week) in o.cache && FirstWeek(env, o.cache[CacheKey(week)]) == o.result
  {
    var key := CacheKey(week);
    if Hit(cache, week) then
      WeekOutcome(FirstWeek(env, cache[key]), cache, None)
    else
      var prompt := env.prompt(req, week, previous);
      match env.generate(n, prompt)
      case Failure(e) => WeekOutcome(Failure(e), cache, Some(Call(week, prompt)))
      case Success(text) =>
        var saved := cache[key := text];
        WeekOutcome(FirstWeek(env, text), saved, Some(Call(week, prompt)))
  }

  /** How many of the weeks 1..n miss the cache. */
  function Misses(cache: Cache, n: int): (r: nat)
    ensures r <= if n > 0 then n else 0
    decreases n
  {
    if n <= 0 then 0 else Misses(cache, n - 1) + (if Hit(cache, n) then 0 else 1)
  }

  /** Every one of the weeks 1..n is cached. */
  predicate Warm(cache: Cache, n: int)
  {
    forall w :: 1 <= w <= n ==> Hit(cache, w)
  }

  /** A cache is warm for the first n weeks exactly when none of them misses. */
  lemma {:induction false} WarmIffNoMisses(cache: Cache, n: int)
    ensures Warm(cache, n) <==> Misses(cache, n) == 0
    decreases n
  {
    if n > 0 {
      WarmIffNoMisses(cache, n - 1);
      if Misses(cache, n) == 0 {
        assert Warm(cache, n - 1);
        assert forall w :: 1 <= w <= n ==> Hit(cache, w) by {
          forall w | 1 <= w <= n ensures Hit(cache, w) {
            if w < n {
              assert 1 <= w <= n - 1;
            }
          }
        }
      }
    }
  }

  /** The cache names of the weeks the calls were made for. */
  function Keys(calls: seq<Call>): set<string>
  {
    set i | 0 <= i < |calls| :: CacheKey(calls[i].week)
  }

  /** The summary week `w` is given: none for the first week, otherwise the
      summary of the week before. */
  function Previous(env: Env, weeks: seq<Week>, w: int): string
  {
    if 2 <= w <= |weeks| + 1 then env.summarize(weeks[w - 2]) else ""
  }

  function PlanName(req: WorkoutRequest): string
  {
    req.name + "'s Plan"
  }

  /** The generator calls were made only for weeks among 1..n that missed
      the initial cache, in increasing week order. */
  predicate CallsForMissedWeeks(cache0: Cache, n: int, calls: seq<Call>)
  {
    && (forall i :: 0 <= i < |calls| ==> 1 <= calls[i].week <= n && !Hit(cache0, calls[i].week))
    && (forall i, j :: 0 <= i < j < |calls| ==> calls[i].week < calls[j].week)
  }

  /** Every call except possibly the last was answered. */
  predicate AnsweredButLast(env: Env, calls: seq<Call>)
  {
    forall i :: 0 <= i < |calls| - 1 ==> env.generate(i, calls[i].prompt).Success?
  }

  predicate AllAnswered(env: Env, calls: seq<Call>)
  {
    forall i :: 0 <= i < |calls| ==> env.generate(i, calls[i].prompt).Success?
  }

  /** Every answer was written to its week's cache entry. */
  predicate AnswersCached(env: Env, cache: Cache, calls: seq<Call>)
  {
    forall i :: 0 <= i < |calls| && env.generate(i, calls[i].prompt).Success?
      ==> CacheKey(calls[i].week) in cache && cache[CacheKey(calls[i].week)] == env.generate(i, calls[i].prompt).value
  }

  /** Entries other than those of the called weeks are as they were. */
  predicate OnlyCallsWrite(cache0: Cache, cache: Cache, calls: seq<Call>)
  {
    && cache.Keys - Keys(calls) == cache0.Keys - Keys(calls)
    && (forall key :: key in cache && key in cache0 && key !in Keys(calls) ==> cache[key] == cache0[key])
  }

  /** Week k of the plan (counting from 1) is the first week of the text cached for it. */
  predicate WeeksFromCache(env: Env, cache: Cache, weeks: seq<Week>)
  {
    forall k :: 1 <= k <= |weeks|
      ==> CacheKey(k) in cache && FirstWeek(env, cache[CacheKey(k)]) == Success(weeks[k - 1])
  }

  /** Each call's prompt was built for its week with the summary of the week before. */
  predicate PromptsThreadSummaries(env: Env, req: WorkoutRequest, weeks: seq<Week>, calls: seq<Call>)
  {
    forall i :: 0 <= i < |calls| ==> calls[i].prompt == env.prompt(req, calls[i].week, Previous(env, weeks, calls[i].week))
  }

  /** Every week 1..n is cached with a text whose first week parses. */
  predicate WarmAndParseable(env: Env, cache: Cache, n: int)
  {
    forall w :: 1 <= w <= n ==> Hit(cache, w) && FirstWeek(env, cache[CacheKey(w)]).Success?
  }

  function Extend(calls: seq<Call>, call: Option<Call>): seq<Call>
  {
    if call.Some? then calls + [call.value] else calls
  }

  /** The number of weeks a plan for `duration` has. */
  function WeekCount(duration: int): nat
  {
    if duration > 0 then duration else 0
  }

  /** What the loop has built before the current week. */
  datatype Progress = Progress(weeks: seq<Week>, cache: Cache, calls: seq<Call>)

  /** The loop invariant: the weeks before `week` are done, each call and
      cache write accounted for. */
  predicate Sound(env: Env, req: WorkoutRequest, cache0: Cache, week: int, p: Progress)
  {
    && 1 <= week <= WeekCount(req.duration) + 1
    && |p.weeks| == week - 1
    && |p.calls| == Misses(cache0, week - 1)
    && CallsForMissedWeeks(cache0, week - 1, p.calls)
    && AllAnswered(env, p.calls)
    && AnswersCached(env, p.cache, p.calls)
    && OnlyCallsWrite(cache0, p.cache, p.calls)
    && WeeksFromCache(env, p.cache, p.weeks)
    && PromptsThreadSummaries(env, req, p.weeks, p.calls)
    && (Warm(cache0, req.duration) ==> p.calls == [] && p.cache == cache0)
  }

  /** What holds of the calls and the cache however the run ends. */
  predicate Settled(env: Env, cache0: Cache, duration: int, cache: Cache, calls: seq<Call>)
  {
    && |calls| <= Misses(cache0, duration)
    && CallsForMissedWeeks(cache0, duration, calls)
    && AnsweredButLast(env, calls)
    && AnswersCached(env, cache, calls)
    && OnlyCallsWrite(cache0, cache, calls)
    && (Warm(cache0, duration) ==> calls == [] && cache == cache0)
  }

  /** Every week before `w` has a cached text whose first week parses. */
  predicate EarlierWeeksParse(env: Env, cache: Cache, w: int)
  {
    forall k :: 1 <= k < w ==> CacheKey(k) in cache && FirstWeek(env, cache[CacheKey(k)]).Success?
  }

  /** Week `w` failed with `e`: either the generator raised on the last
      call, made for `w`, or the text cached for `w` does not give a week. */
  predicate FailedWeek(env: Env, cache: Cache, calls: seq<Call>, w: int, e: Exception)
  {
    || (|calls| > 0 && calls[|calls| - 1].week == w
        && env.generate(|calls| - 1, calls[|calls| - 1].prompt) == Failure(e))
    || (CacheKey(w) in cache && FirstWeek(env, cache[CacheKey(w)]) == Failure(e))
  }

  /** In a cache warm for weeks 1..n, `w` is the first week whose cached
      text does not give a week. */
  predicate FirstUnparseable(env: Env, cache: Cache, n: int, w: int)
  {
    && Warm(cache, n) && 1 <= w <= n && Hit(cache, w)
    && FirstWeek(env, cache[CacheKey(w)]).Failure?
    && EarlierWeeksParse(env, cache, w)
  }

  /** A failed run failed at some week of the plan, after every earlier
      week had parsed. */
  predicate FailureExplained(env: Env, duration: int, cache: Cache, calls: seq<Call>, e: Exception)
  {
    exists w :: 1 <= w <= duration && FailedWeek(env, cache, calls, w, e) && EarlierWeeksParse(env, cache, w)
  }

  /** In a warm cache, the run ends with the error of the first week whose
      cached text does not give a week: nothing is regenerated. */
  predicate FailsAtFirstUnparseable(env: Env, cache0: Cache, duration: int, result: Result<Plan, Exception>)
  {
    forall w :: 1 <= w <= duration && FirstUnparseable(env, cache0, duration, w)
                ==> result == Failure(FirstWeek(env, cache0[CacheKey(w)]).error)
  }

  /** `generate_workout_with_ai(user_input)`: weeks 1..duration in order;
      the first failure ends the run with no plan, leaving in the cache
      whatever was written before it. */
  method GenerateWorkoutWithAI(env: Env, req: WorkoutRequest, cache0: Cache)
    returns (result: Result<Plan, Exception>, cache: Cache, calls: seq<Call>)
    ensures Settled(env, cache0, req.duration, cache, calls)
    ensures WarmAndParseable(env, cache0, req.duration) ==> result.Success?
    ensures result.Success? ==> result.value.name == PlanName(req)
    ensures result.Success? ==> |result.value.weeks| == WeekCount(req.duration)
    ensures result.Success? ==> |calls| == Misses(cache0, req.duration)
    ensures result.Success? ==> WeeksFromCache(env, cache, result.value.weeks)
    ensures result.Success? ==> PromptsThreadSummaries(env, req, result.value.weeks, calls)
    ensures result.Success? ==> AllAnswered(env, calls)
    ensures result.Failure? ==> FailureExplained(env, req.duration, cache, calls, result.error)
    ensures FailsAtFirstUnparseable(env, cache0, req.duration, result)
  {
    var p := Progress([], cache0, []);
    var previous := "";
    var week := 1;
    while week <= req.duration
      invariant Sound(env, req, cache0, week, p)
      invariant previous == Previous(env, p.weeks, week)
      decreases req.duration - week
    {
      var o := GenerateWeekly(env, req, week, previous, p.cache, |p.calls|);
      if o.result.Failure? {
        Abort(env, req, cache0, week, p, o);
        AbortReason(env, req, cache0, week, p, o);
        return Failure(o.result.error), o.cache, Extend(p.calls, o.call);
      }
      Advance(env, req, cache0, week, p, o);
      p := Progress(p.weeks + [o.result.value], o.cache, Extend(p.calls, o.call));
      previous := env.summarize(o.result.value);
      week := week + 1;
    }
    Finish(env, req, cache0, week, p);
    NoUnparseableWeek(env, req, cache0, week, p);
    return Success(Plan(PlanName(req), p.weeks)), p.cache, p.calls;
  }

  /** A successful week moves the invariant one week on. */
  lemma Advance(env: Env, req: WorkoutRequest, cache0: Cache, week: int, p: Progress, o: WeekOutcome)
    requires Sound(env, req, cache0, week, p) && week <= req.duration
    requires o == GenerateWeekly(env, req, week, Previous(env, p.weeks, week), p.cache, |p.calls|)
    requires o.result.Success?
    ensures Sound(env, req, cache0, week + 1, Progress(p.weeks + [o.result.value], o.cache, Extend(p.calls, o.call)))
  {
    var previous := Previous(env, p.weeks, week);
    CallsStep(env, req, cache0, week, previous, p.cache, p.calls, o);
    AnsweredStep(env, req, week, previous, p.cache, p.calls, o);
    CacheStep(env, req, cache0, week, previous, p.cache, p.calls, o);
    WarmStep(env, req, cache0, week, previous, p.cache, p.calls, o);
    WeeksStep(env, req, week, p.weeks, previous, p.cache, p.calls, o);
    PromptsStep(env, req, cache0, week, p.weeks, p.cache, p.calls, o);
  }

  /** A failed week leaves the calls and the cache settled, and cannot
      happen when every week is cached with a parseable text. */
  lemma Abort(env: Env, req: WorkoutRequest, cache0: Cache, week: int, p: Progress, o: WeekOutcome)
    requires Sound(env, req, cache0, week, p) && week <= req.duration
    requires o == GenerateWeekly(env, req, week, Previous(env, p.weeks, week), p.cache, |p.calls|)
    requires o.result.Failure?
    ensures Settled(env, cache0, req.duration, o.cache, Extend(p.calls, o.call))
    ensures !WarmAndParseable(env, cache0, req.duration)
  {
    var previous := Previous(env, p.weeks, week);
    CallsStep(env, req, cache0, week, previous, p.cache, p.calls, o);
    AnsweredStep(env, req, week, previous, p.cache, p.calls, o);
    CacheStep(env, req, cache0, week, previous, p.cache, p.calls, o);
    WarmStep(env, req, cache0, week, previous, p.cache, p.calls, o);
    MissesMonotone(cache0, week, req.duration);
  }

  /** A failed week is the week the run fails at: the weeks before it
      still parse from the cache, and the error is the generator's or the
      parse's. In a warm cache it is the first unparseable week. */
  lemma AbortReason(env: Env, req: WorkoutRequest, cache0: Cache, week: int, p: Progress, o: WeekOutcome)
    requires Sound(env, req, cache0, week, p) && week <= req.duration
    requires o == GenerateWeekly(env, req, week, Previous(env, p.weeks, week), p.cache, |p.calls|)
    requires o.result.Failure?
    ensures FailureExplained(env, req.duration, o.cache, Extend(p.calls, o.call), o.result.error)
    ensures FailsAtFirstUnparseable(env, cache0, req.duration, Failure(o.result.error))
  {
    var calls' := Extend(p.calls, o.call);
    forall k | 1 <= k < week
      ensures CacheKey(k) in o.cache && FirstWeek(env, o.cache[CacheKey(k)]).Success?
    {
      if CacheKey(k) == CacheKey(week) {
        CacheKeyInjective(k, week);
      }
      assert FirstWeek(env, p.cache[CacheKey(k)]) == Success(p.weeks[k - 1]);
    }
    if o.call.Some? && env.generate(|p.calls|, o.call.value.prompt).Failure? {
      assert calls'[|calls'| - 1] == o.call.value;
    }
    assert FailedWeek(env, o.cache, calls', week, o.result.error);
    assert EarlierWeeksParse(env, o.cache, week);
    forall w | FirstUnparseable(env, cache0, req.duration, w)
      ensures o.result.error == FirstWeek(env, cache0[CacheKey(w)]).error
    {
      assert p.cache == cache0 && o.call.None? && o.cache == cache0;
    }
  }

  /** A run that reaches the end meets no unparseable week. */
  lemma NoUnparseableWeek(env: Env, req: WorkoutRequest, cache0: Cache, week: int, p: Progress)
    requires Sound(env, req, cache0, week, p) && week > req.duration
    ensures FailsAtFirstUnparseable(env, cache0, req.duration, Success(Plan(PlanName(req), p.weeks)))
  {
    forall w | 1 <= w <= req.duration && Warm(cache0, req.duration)
      ensures FirstWeek(env, cache0[CacheKey(w)]).Success?
    {
      assert FirstWeek(env, p.cache[CacheKey(w)]) == Success(p.weeks[w - 1]);
    }
  }

  /** After the last week the invariant gives the plan's properties. */
  lemma Finish(env: Env, req: WorkoutRequest, cache0: Cache, week: int, p: Progress)
    requires Sound(env, req, cache0, week, p) && week > req.duration
    ensures Settled(env, cache0, req.duration, p.cache, p.calls)
    ensures |p.weeks| == WeekCount(req.duration)
    ensures |p.calls| == Misses(cache0, req.duration)
  {
    assert week - 1 == WeekCount(req.duration);
  }

  /** One week keeps the count and order of the generator calls. */
  lemma CallsStep(env: Env, req: WorkoutRequest, cache0: Cache, week: int, previous: string,
                  cache: Cache, calls: seq<Call>, o: WeekOutcome)
    requires 1 <= week
    requires |calls| == Misses(cache0, week - 1)
    requires CallsForMissedWeeks(cache0, week - 1, calls)
    requires AllAnswered(env, calls)
    requires OnlyCallsWrite(cache0, cache, calls)
    requires o == GenerateWeekly(env, req, week, previous, cache, |calls|)
    ensures |Extend(calls, o.call)| == Misses(cache0, week)
    ensures CallsForMissedWeeks(cache0, week, Extend(calls, o.call))
  {
    UnwrittenWeek(calls, week);
    var key := CacheKey(week);
    assert (key in cache) == (key in cache.Keys - Keys(calls));
    assert (key in cache0) == (key in cache0.Keys - Keys(calls));
    assert Hit(cache, week) == Hit(cache0, week);
  }

  /** Only the newest call can be unanswered, and only when the week failed. */
  lemma AnsweredStep(env: Env, req: WorkoutRequest, week: int, previous: string,
                     cache: Cache, calls: seq<Call>, o: WeekOutcome)
    requires AllAnswered(env, calls)
    requires o == GenerateWeekly(env, req, week, previous, cache, |calls|)
    ensures AnsweredButLast(env, Extend(calls, o.call))
    ensures o.result.Success? ==> AllAnswered(env, Extend(calls, o.call))
  {
  }

  /** One week writes at most its own cache entry, and writes the answer there. */
  lemma CacheStep(env: Env, req: WorkoutRequest, cache0: Cache, week: int, previous: string,
                  cache: Cache, calls: seq<Call>, o: WeekOutcome)
    requires 1 <= week
    requires forall i :: 0 <= i < |calls| ==> calls[i].week < week
    requires AnswersCached(env, cache, calls)
    requires OnlyCallsWrite(cache0, cache, calls)
    requires o == GenerateWeekly(env, req, week, previous, cache, |calls|)
    ensures AnswersCached(env, o.cache, Extend(calls, o.call))
    ensures OnlyCallsWrite(cache0, o.cache, Extend(calls, o.call))
  {
    EarlierKeysDiffer(calls, week);
    AnswersStep(env, req, week, previous, cache, calls, o);
    WritesStep(env, req, cache0, week, previous, cache, calls, o);
  }

  /** Weeks called before `week` have keys other than its own. */
  lemma EarlierKeysDiffer(calls: seq<Call>, week: int)
    requires 1 <= week
    requires forall i :: 0 <= i < |calls| ==> calls[i].week < week
    ensures forall i :: 0 <= i < |calls| ==> CacheKey(calls[i].week) != CacheKey(week)
  {
    forall i | 0 <= i < |calls|
      ensures CacheKey(calls[i].week) != CacheKey(week)
    {
      if CacheKey(calls[i].week) == CacheKey(week) {
        CacheKeyInjective(calls[i].week, week);
      }
    }
  }

  /** The week's answer joins the earlier answers, which stay where they were. */
  lemma AnswersStep(env: Env, req: WorkoutRequest, week: int, previous: string,
                    cache: Cache, calls: seq<Call>, o: WeekOutcome)
    requires forall i :: 0 <= i < |calls| ==> CacheKey(calls[i].week) != CacheKey(week)
    requires AnswersCached(env, cache, calls)
    requires o == GenerateWeekly(env, req, week, previous, cache, |calls|)
    ensures AnswersCached(env, o.cache, Extend(calls, o.call))
  {
    if o.call.Some? {
      var calls' := Extend(calls, o.call);
      assert forall i :: 0 <= i < |calls| ==> calls'[i] == calls[i];
      assert calls'[|calls|].week == week;
    }
  }

  /** Apart from the keys of the calls, the cache keeps the entries it started with. */
  lemma WritesStep(env: Env, req: WorkoutRequest, cache0: Cache, week: int, previous: string,
                   cache: Cache, calls: seq<Call>, o: WeekOutcome)
    requires OnlyCallsWrite(cache0, cache, calls)
    requires o == GenerateWeekly(env, req, week, previous, cache, |calls|)
    ensures OnlyCallsWrite(cache0, o.cache, Extend(calls, o.call))
  {
    if o.call.Some? {
      var key := CacheKey(week);
      var calls' := Extend(calls, o.call);
      assert forall i :: 0 <= i < |calls| ==> calls'[i] == calls[i];
      assert calls'[|calls|].week == week;
      assert Keys(calls') == Keys(calls) + {key};
      assert o.cache.Keys - Keys(calls') == cache.Keys - Keys(calls');
      assert cache.Keys - Keys(calls') == (cache.Keys - Keys(calls)) - {key};
      assert cache0.Keys - Keys(calls') == (cache0.Keys - Keys(calls)) - {key};
    }
  }

  /** A week of a warm cache makes no call, and it parses when the cached text does. */
  lemma WarmStep(env: Env, req: WorkoutRequest, cache0: Cache, week: int, previous: string,
                 cache: Cache, calls: seq<Call>, o: WeekOutcome)
    requires 1 <= week
    requires Warm(cache0, req.duration) ==> calls == [] && cache == cache0
    requires o == GenerateWeekly(env, req, week, previous, cache, |calls|)
    ensures Warm(cache0, req.duration) && week <= req.duration ==> o.call.None? && o.cache == cache0
    ensures WarmAndParseable(env, cache0, req.duration) && week <= req.duration ==> o.result.Success?
  {
  }

  /** A successful week is the first week of what is now cached for it,
      and the earlier weeks' entries are untouched. */
  lemma WeeksStep(env: Env, req: WorkoutRequest, week: int, weeks: seq<Week>, previous: string,
                  cache: Cache, calls: seq<Call>, o: WeekOutcome)
    requires |weeks| == week - 1
    requires WeeksFromCache(env, cache, weeks)
    requires o == GenerateWeekly(env, req, week, previous, cache, |calls|)
    requires o.result.Success?
    ensures WeeksFromCache(env, o.cache, weeks + [o.result.value])
  {
    var weeks' := weeks + [o.result.value];
    forall k | 1 <= k <= |weeks|
      ensures CacheKey(k) in cache && CacheKey(k) in o.cache && o.cache[CacheKey(k)] == cache[CacheKey(k)]
    {
      if CacheKey(k) == CacheKey(week) {
        CacheKeyInjective(k, week);
      }
    }
    assert forall k :: 0 <= k < |weeks| ==> weeks'[k] == weeks[k];
  }

  /** Appending a week keeps the summaries earlier prompts were given, and
      the new call, if any, was given the summary of the week before. */
  lemma PromptsStep(env: Env, req: WorkoutRequest, cache0: Cache, week: int, weeks: seq<Week>,
                    cache: Cache, calls: seq<Call>, o: WeekOutcome)
    requires 1 <= week
    requires |weeks| == week - 1
    requires CallsForMissedWeeks(cache0, week - 1, calls)
    requires PromptsThreadSummaries(env, req, weeks, calls)
    requires o == GenerateWeekly(env, req, week, Previous(env, weeks, week), cache, |calls|)
    requires o.result.Success?
    ensures PromptsThreadSummaries(env, req, weeks + [o.result.value], Extend(calls, o.call))
  {
    var weeks' := weeks + [o.result.value];
    var calls' := Extend(calls, o.call);
    assert forall i :: 0 <= i < |calls| ==> Previous(env, weeks', calls[i].week) == Previous(env, weeks, calls[i].week);
    assert Previous(env, weeks', week) == Previous(env, weeks, week);
    if o.call.Some? {
      assert forall i :: 0 <= i < |calls| ==> calls'[i] == calls[i];
    }
  }

  /** With the program's own collaborators, the prompt of a call for the
      first week carries the baseline sentence, and the prompt of a call for
      a later week carries the summary of the week before (every week with
      at least one day has a non-empty summary). */
  lemma WiredPromptsCarrySummaries(template: PromptBuilder.Template, retrieve: (string, int) -> string,
                                   generate: (nat, string) -> Result<string, Exception>,
                                   decode: string -> Result<JValue, string>,
                                   req: WorkoutRequest, weeks: seq<Week>, calls: seq<Call>, i: int)
    requires template.Valid()
    requires PromptsThreadSummaries(Wire(template, retrieve, generate, decode), req, weeks, calls)
    requires 0 <= i < |calls| && 1 <= calls[i].week <= |weeks| + 1
    ensures calls[i].week == 1 ==> Text.Contains(calls[i].prompt, PromptBuilder.Baseline)
    ensures calls[i].week >= 2 && |weeks[calls[i].week - 2].days| > 0
            ==> Text.Contains(calls[i].prompt, SummaryGenerator.SummarizeWeek(weeks[calls[i].week - 2]))
  {
    var env := Wire(template, retrieve, generate, decode);
    var w := calls[i].week;
    var previous := Previous(env, weeks, w);
    assert calls[i].prompt == PromptBuilder.BuildPrompt(template, retrieve, req, w, previous);
    if w == 1 {
      assert previous == "";
      PromptBuilder.PromptCarriesSummary(template, retrieve, req, w, previous);
    } else if |weeks[w - 2].days| > 0 {
      var summary := SummaryGenerator.SummarizeWeek(weeks[w - 2]);
      assert previous == env.summarize(weeks[w - 2]) == summary;
      SummaryGenerator.SummaryOpensWithFirstDay(weeks[w - 2]);
      PromptBuilder.PromptCarriesSummary(template, retrieve, req, w, previous);
    }
  }

  /** The cache entry of a week that has not been reached yet was written by none of the calls. */
  lemma UnwrittenWeek(calls: seq<Call>, week: int)
    requires forall i :: 0 <= i < |calls| ==> calls[i].week < week
    ensures CacheKey(week) !in Keys(calls)
  {
    if CacheKey(week) in Keys(calls) {
      var i :| 0 <= i < |calls| && CacheKey(calls[i].week) == CacheKey(week);
      CacheKeyInjective(calls[i].week, week);
    }
  }

  lemma {:induction false} MissesMonotone(cache: Cache, a: int, b: int)
    requires a <= b
    ensures Misses(cache, a) <= Misses(cache, b)
    decreases b - a
  {
    if a < b {
      MissesMonotone(cache, a, b - 1);
    }
  }
}
