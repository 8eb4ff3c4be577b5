# workout_ai: a Dafny model of the plan-generation pipeline

This project models the core of a workout-plan generator in Dafny and
proves properties of the model. The generator asks a language model for
one training week at a time. Its pieces are:

- **Plan parser** (`ResponseParser`). The model's JSON answer becomes a
  `Plan` of `Week`s, `Day`s and `Session`s, where a session is a WOD, a
  Strength session, a Rest Day or an Active Recovery session. There are
  two parsers:
  - the older one skips unknown session tags and names unnamed plans;
  - the active one requires a `name`.
  Both wrap errors in a `ValueError` with a fixed prefix.
- **Week summariser** (`SummaryGenerator`). A fixed text fold over a week.
  It feeds the next week's prompt.
- **Prompt composer** (`PromptBuilder`). Which request field goes into
  which place of the prompt, the fallbacks for empty fields, and the
  retrieval query.
- **Throttle** (`OpenAIClient`). Requests to the completion service are
  kept at least 20 seconds apart.
- **Orchestrator** (`GenerateWorkout`). The loop over weeks `1..duration`.
  It uses a cache of raw answers keyed by week, calls the generator once
  per cache miss, and writes each answer to the cache before parsing it.
  Each week's summary is passed to the next week.
- **Classifiers and search bucketing** (`WorkoutCategory`, `Search`,
  `Embeddings`):
  - the workout-category classifier, which exists in two copies;
  - the distribution of search hits into results, warm-ups and
    cool-downs;
  - the workout-type rule, the record-to-`Workout` mapping and the text
    that is embedded.
- **Ingest** (`Extract`). The tiling of a date range by seven-day fetch
  windows, and the track-name mapping.

Supporting modules:

- `Wrappers`: `Option`, `Result`, and order-preserving map and filter
  helpers.
- `Exceptions`: the Python exceptions that the code raises or lets
  escape.
- `Json`: decoded JSON values and the dict operations the code applies to
  them.
- `Text`: ASCII lower-casing, Python's `strip`, joining, substring search
  and decimal rendering.
- `Workouts`: the plan and request types.

External services and I/O are not modelled as code. They are parameters:

- JSON decoding is a function `decode: string -> Result<JValue, string>`;
- the generator is a function of the call number and the prompt;
- the retrieval step is a function of the query and `top_k`;
- the clock is the `now` of each request;
- the search index's answer is given as its positions and distances.

Two behaviours of the code are modelled as written:

- A cached entry that does not parse makes the orchestrator fail. It is
  not regenerated.
- The "for quality" bucket of the search is never filled. This is listed
  under Findings.

`Session.from_dict` is not modelled. The active parser's session decoding
is modelled as the older parser's per-variant decoding, except that an
unknown tag raises a `ValueError` instead of being skipped.

## Model

| member | source | states |
|---|---|---|
| ResponseParser.TextField | backend/core/response_parser.py:40-42 | a text field must be a JSON string and is taken verbatim; anything else is a ValueError |
| ResponseParser.CountField | backend/core/response_parser.py:59-60 | sets and reps accept a number or a string and keep it as given; anything else is a ValueError |
| ResponseParser.TextListField | backend/core/response_parser.py:81 | activities must be a list of strings, kept element for element in order |
| ResponseParser.ParseMovement | backend/core/response_parser.py:44-47 | a movement succeeds exactly when its description and resources are absent or strings; absent ones become "" |
| ResponseParser.ParseWod | backend/core/response_parser.py:35-52 | a WOD has one movement per input movement, in order, and "" for each missing text |
| ResponseParser.ParseStrength | backend/core/response_parser.py:53-66 | a Strength session succeeds exactly when each present field has an accepted type; present sets and reps are kept as given, absent ones become 0 and absent texts "" |
| ResponseParser.ParseRestDay | backend/core/response_parser.py:67-73 | a Rest Day defaults description and notes to "Take the day off to recover." |
| ResponseParser.ParseActiveRecovery | backend/core/response_parser.py:74-86 | Active Recovery succeeds exactly when each present field has an accepted type; present activities are kept in order; absent fields default to "Recovery session", no activities, "30-60 minutes" and "Low" |
| ResponseParser.ParseDetails | backend/core/response_parser.py:35-88 | exactly the four tags are recognised; each recognised tag succeeds and fails exactly as its variant's decoder and gives that decoder's session |
| ResponseParser.ParseSession | backend/core/response_parser.py:32-33 | the tag is read stripped; a recognised tag is dispatched on the details, which default to {}; the older parser drops unknown tags, the active one raises a ValueError |
| ResponseParser.SessionFromTag | backend/core/response_parser.py:35-88 | a recognised tag gives the variant decoder's result; an unrecognised one gives nothing in the older parser and a ValueError in the active one |
| ResponseParser.ParseDay | backend/core/response_parser.py:31-90 | a day's sessions are read from "sessions"; the active parser keeps every one, in order |
| ResponseParser.StrictKeepsAll | backend/core/response_parser.py:111 | when every session parses, the active parser keeps all of them in input order |
| ResponseParser.AllPresent | backend/core/response_parser.py:111 | keeping the present values of a list with none missing keeps all of them in order |
| ResponseParser.ParseWeek | backend/core/response_parser.py:29-91 | a week has one day per input day, in order |
| ResponseParser.ParseTree | backend/core/response_parser.py:26-94 | a plan has one week per input week, in order; the active parser copies "name" and the older one defaults it to "Generated Workout Plan" |
| ResponseParser.Parse | backend/core/response_parser.py:96-97 | a decode failure, KeyError or ValueError becomes a ValueError prefixed "Failed to parse OpenAI response"; a success is the tree parse of the decoded text |
| ResponseParser.Rewrap | backend/core/response_parser.py:96-97 | a KeyError or ValueError becomes a ValueError starting "Failed to parse OpenAI response"; any other exception escapes unchanged |
| ResponseParser.ParseOld | backend/core/response_parser.py:15-97 | a decode failure is the prefixed ValueError; a plan has "name" or "Generated Workout Plan" as its name and one week per input week |
| ResponseParser.ParseActive | backend/core/response_parser.py:102-118 | a decode failure is the prefixed ValueError; a plan's name is the string under "name" and it has one week per input week |
| ResponseParser.TagsOfSomes | backend/core/response_parser.py:87-88 | the sessions kept by the older parser are the recognised ones, in order |
| ResponseParser.TagsAppend | backend/core/response_parser.py:31-36 | the tags of appended session lists are the appended tag lists |
| ResponseParser.LenientDayKeepsRecognisedSessions | backend/core/response_parser.py:87-88 | the older parser's day has exactly the input sessions with recognised tags, in order |
| ResponseParser.StrictDayRejectsUnknownTag | backend/core/response_parser.py:111 | one unknown tag anywhere in a day makes the active parser fail |
| ResponseParser.MissingKeysReadAsEmpty | backend/core/response_parser.py:27-31 | missing "weeks", "days" and "sessions" read as empty lists, not errors |
| ResponseParser.EmptyDetailsGetDefaults | backend/core/response_parser.py:40-83 | with empty details every variant gets all its default values |
| ResponseParser.BareSessionUsesEmptyDetails | backend/core/response_parser.py:33 | missing details read as an empty object |
| ResponseParser.BareSessionsGetDefaults | backend/core/response_parser.py:32-83 | a session with only a type gets its variant's defaults |
| ResponseParser.TagWhitespaceIgnored | backend/core/response_parser.py:32 | whitespace around the tag does not change the parse |
| ResponseParser.SessionWithTag | backend/core/response_parser.py:32-33 | a session whose type is a string is dispatched on that string stripped and on its details |
| ResponseParser.ActiveParserRequiresName | backend/core/response_parser.py:115-118 | without "name" the active parser fails, with the wrapped KeyError "'name'" |
| ResponseParser.PlanNames | backend/core/response_parser.py:94 | the older parser names an unnamed plan "Generated Workout Plan"; the active parser copies "name" verbatim |
| SummaryGenerator.SessionTextNamesTag | backend/core/summary_genertor.py:18-38 | each session's text starts with its tag followed by " - " |
| SummaryGenerator.RestDayTextIsFixed | backend/core/summary_genertor.py:31-32 | a Rest Day contributes " Rest Day - Recovery & Rest." whatever its details |
| SummaryGenerator.SessionsTextAppend | backend/core/summary_genertor.py:17 | the sessions' texts are concatenated in order |
| SummaryGenerator.DayTextGrowsBySession | backend/core/summary_genertor.py:16-38 | a day's segment is "Day i:" followed by its sessions' texts in order |
| SummaryGenerator.SummaryOfShortWeeks | backend/core/summary_genertor.py:14-41 | an empty week summarises to ""; a one-day week to that day's segment |
| SummaryGenerator.DayTextsAppend | backend/core/summary_genertor.py:15 | adding a day adds one segment numbered one past the last |
| SummaryGenerator.SummaryGrowsByDay | backend/core/summary_genertor.py:39-41 | segments are separated by a single space |
| SummaryGenerator.SummaryOpensWithFirstDay | backend/core/summary_genertor.py:15-16 | a non-empty week's summary opens with "Day 1:" |
| SummaryGenerator.SummarizeWeekByLoop | backend/core/summary_genertor.py:4-41 | the loop that builds each day's text session by session agrees with the day-by-day definition |
| SummaryGenerator.DayTextByLoop | backend/core/summary_genertor.py:16-38 | the loop that appends each session's text to "Day i:" gives the day's segment |
| SummaryGenerator.SummarizeWeek | backend/core/summary_genertor.py:4-41 | an empty week summarises to ""; any other week's summary opens with "Day 1:" |
| SummaryGenerator.TagHeadSpelling | backend/core/summary_genertor.py:18-38 | the literal each session text opens with is the session's tag between a space and " - " |
| PromptBuilder.Slots | backend/core/prompt_builder.py:13-105 | twelve values are interpolated |
| PromptBuilder.FillSplit | backend/core/prompt_builder.py:13-106 | the prompt is the prose up to a value, the value, and the prose after it |
| PromptBuilder.FillShows | backend/core/prompt_builder.py:13-106 | every interpolated value appears verbatim in the prompt |
| PromptBuilder.SlotDetermined | backend/core/prompt_builder.py:13-106 | two prompts that differ only in one value are equal only if that value is equal |
| PromptBuilder.PromptCarriesSummary | backend/core/prompt_builder.py:36 | a non-empty previous summary appears verbatim; an empty one is replaced by the week-1 baseline sentence |
| PromptBuilder.PromptDeterminesSummary | backend/core/prompt_builder.py:36 | different non-empty summaries give different prompts |
| PromptBuilder.PromptDeterminesWeek | backend/core/prompt_builder.py:105 | different weeks give different prompts |
| PromptBuilder.PromptDurationFallback | backend/core/prompt_builder.py:32 | a missing or empty constraint shows "75-90 minutes"; any other is shown as given |
| PromptBuilder.PromptListFallbacks | backend/core/prompt_builder.py:29-30 | empty injury and avoid lists show "None"; non-empty ones are shown comma separated |
| PromptBuilder.PromptShowsRetrieval | backend/core/prompt_builder.py:11-20 | retrieval is asked for 5 workouts with the goals joined by ", ", and both the goals and the retrieved text appear |
| PromptBuilder.PromptNamesWeek | backend/core/prompt_builder.py:105 | the week number appears in the prompt |
| PromptBuilder.BuildPrompt | backend/core/prompt_builder.py:5-106 | each of the twelve interpolated values, including the retrieved workouts, appears verbatim in the prompt |
| PromptBuilder.FillShowsAll | backend/core/prompt_builder.py:13-106 | every value filled into the template appears in the result |
| OpenAIClient.Wait | backend/core/openai_client.py:26-29 | no wait once 20 seconds have elapsed; otherwise the wait ends exactly 20 seconds after the last request |
| OpenAIClient.Call | backend/core/openai_client.py:17-39 | a request goes out no earlier than 20 seconds after the last one; a reply sets the last-request time to the issue time plus the latency and is returned stripped; an error leaves the state unchanged |
| OpenAIClient.Run | backend/core/openai_client.py:18-38 | a run has one outcome per request, starting from the given state |
| OpenAIClient.RunChains | backend/core/openai_client.py:38 | each call starts from the state the previous call left |
| OpenAIClient.IssuesAreSpaced | backend/core/openai_client.py:26-38 | after a reply, the next request goes out at least 20 seconds after the previous one was issued |
| OpenAIClient.IssuesFollowStart | backend/core/openai_client.py:18-29 | every request goes out at least 20 seconds after the starting state's time |
| GenerateWorkout.CacheKeyInjective | backend/services/generate_workout.py:9-15 | different weeks use different cache files |
| GenerateWorkout.Wire | backend/services/generate_workout.py:2-6 | the collaborators are the prompt builder, the generator, the active parser and the summariser |
| GenerateWorkout.FirstWeek | backend/services/generate_workout.py:21 | the first week of the parsed text; a parse failure propagates and a plan without weeks is an IndexError |
| GenerateWorkout.GenerateWeekly | backend/services/generate_workout.py:11-32 | a non-empty cache entry is used with no call; otherwise one call with the week's prompt, whose answer is cached before parsing; a failed call caches nothing |
| GenerateWorkout.Misses | backend/services/generate_workout.py:18-19 | at most one miss per week |
| GenerateWorkout.WarmIffNoMisses | backend/services/generate_workout.py:18-21 | no week misses exactly when every week has a non-empty entry |
| GenerateWorkout.GenerateWorkoutWithAI | backend/services/generate_workout.py:34-46 | on success: the name is "<name>'s Plan", the plan has max(duration, 0) weeks, one call per missed week, every call answered, week k is the first week of entry k, and each prompt gets the previous week's summary; on failure: some week failed with that error after all earlier weeks parsed; with every week cached, the error is that of the first entry that does not parse |
| GenerateWorkout.Advance | backend/services/generate_workout.py:41-44 | one successful week keeps every loop fact |
| GenerateWorkout.Abort | backend/services/generate_workout.py:41-43 | a failed week ends the run with only answered calls written to the cache |
| GenerateWorkout.Finish | backend/services/generate_workout.py:41-46 | after the last week the counts of weeks and calls are final |
| GenerateWorkout.CallsStep | backend/services/generate_workout.py:18-26 | a call is made exactly for a week that misses |
| GenerateWorkout.AnsweredStep | backend/services/generate_workout.py:26-32 | every call except possibly the last was answered |
| GenerateWorkout.CacheStep | backend/services/generate_workout.py:28-30 | only answered calls write to the cache, each to its own week's key |
| GenerateWorkout.WarmStep | backend/services/generate_workout.py:18-21 | a warm cache is read without calls or writes |
| GenerateWorkout.WeeksStep | backend/services/generate_workout.py:21-32 | each produced week is the first week of that week's cached text |
| GenerateWorkout.PromptsStep | backend/services/generate_workout.py:39-44 | week 1 gets "" and week w+1 gets the summary of week w |
| GenerateWorkout.WiredPromptsCarrySummaries | backend/services/generate_workout.py:39-44 | week 1's prompt carries the baseline sentence; a later prompt carries the previous week's summary verbatim |
| GenerateWorkout.UnwrittenWeek | backend/services/generate_workout.py:15-30 | no earlier call wrote the current week's key |
| GenerateWorkout.MissesMonotone | backend/services/generate_workout.py:41 | more weeks never mean fewer misses |
| GenerateWorkout.AbortReason | backend/services/generate_workout.py:41-43 | a run that stops at a failed week reports that week's generator or parse error, all earlier weeks having parsed |
| GenerateWorkout.NoUnparseableWeek | backend/services/generate_workout.py:41-46 | a run that finishes found no warm-cache week that does not parse |
| GenerateWorkout.EarlierKeysDiffer | backend/services/generate_workout.py:15 | weeks called before the current one use other cache keys |
| GenerateWorkout.AnswersStep | backend/services/generate_workout.py:26-30 | a week's answer is cached under its key and earlier answers stay cached |
| GenerateWorkout.WritesStep | backend/services/generate_workout.py:28-30 | entries other than the called weeks' keys stay as they were |
| WorkoutCategory.AnyInIff | backend/services/workout_category.py:8-10 | `any(kw in s ...)` holds exactly when some keyword occurs |
| WorkoutCategory.Classify | backend/services/workout_category.py:8-14 | the label is one of the four |
| WorkoutCategory.Category | backend/services/workout_category.py:1-14 | the label is one of the four |
| WorkoutCategory.CategoryCases | backend/services/workout_category.py:5-14 | warmup iff a warm-up keyword is in the normalised title; cooldown iff none is but a cool-down keyword is; workout iff neither and the normalised score type is non-empty |
| WorkoutCategory.WarmupTakesPrecedence | backend/services/workout_category.py:8-11 | a warm-up keyword wins over cool-down keywords |
| WorkoutCategory.CategoryOfNormalized | backend/services/workout_category.py:5-6 | lower-casing and stripping the inputs first changes nothing |
| Search.Category | backend/services/search.py:4-14 | the label is one of the four |
| Search.CategoriesAgree | backend/services/search.py:4-14 | the classifier in search.py equals the one in workout_category.py on every input |
| Search.PyIndex | backend/services/search.py:26 | list indexing: negative positions count from the end; out of range is an IndexError |
| Search.RetainedFrom | backend/services/search.py:24-30 | as written: the search raises exactly when a position is below minus the metadata length; each hit is the metadata entry at its position, read with Python indexing, with rank position plus one and that position's distance; ranks increase |
| Search.InRangeFrom | backend/services/search.py:24-38 | corrected filter: every hit names a stored workout, carries its position plus one as rank and its distance, and ranks increase |
| Search.InRangeComplete | backend/services/search.py:24-30 | corrected filter: every in-range position yields a hit |
| Search.RetainedComplete | backend/services/search.py:24-26 | as written: every position below the metadata length yields the hit ranked position plus one |
| Search.SearchAsWritten | backend/services/search.py:17-52 | as written: the search raises exactly when a position is below minus the metadata length; otherwise the query is echoed and every retained hit lands in exactly one list |
| Search.SearchCorrected | backend/services/search.py:17-52 | corrected: the query is echoed and every in-range hit lands in exactly one list |
| Search.Only | backend/services/search.py:40-45 | a bucket has no more hits than the input |
| Search.OnlyMembers | backend/services/search.py:40-45 | a hit is in a bucket exactly when it is sent there |
| Search.OnlyAppend | backend/services/search.py:24-45 | buckets keep the hits' relative order |
| Search.PartitionSizes | backend/services/search.py:40-45 | every hit lands in exactly one bucket |
| Search.OnlyNone | backend/services/search.py:42-43 | a bucket never chosen stays empty |
| Search.OnlyAgree | backend/services/search.py:40-45 | bucketing depends only on each hit's bucket |
| Search.Distribute | backend/services/search.py:22-52 | the loop's three lists are the order-preserving bucket filters, and the query is echoed |
| Search.QualityBucketAlwaysEmpty | backend/services/search.py:42-43 | as written, "for quality" is always empty |
| Search.AsWrittenIgnoresCooldownFlag | backend/services/search.py:42-43 | as written, include_cooldowns has no effect |
| Search.NegativeIndexReadsLast | backend/services/search.py:25-26 | as written, position -1 yields the last stored workout as the rank-1 hit |
| Search.CooldownsBucketed | backend/services/search.py:42-45 | corrected, a cool-down hit is in the cool-down bucket iff include_cooldowns, and in results otherwise |
| Search.WarmupsBucketed | backend/services/search.py:40-45 | corrected: a warm-up hit is in the warm-up bucket iff include_warmups, and in results otherwise |
| Search.WarmupsBucketedAsWritten | backend/services/search.py:24-45 | as written: a retained warm-up hit is in the warm-up bucket iff include_warmups, and in results otherwise |
| Embeddings.Workout.ToText | backend/core/create_embeddings.py:27-29 | the text opens with "<title> - ", ends with " \| Date: <created_at>", and adds 41 characters of labels to the fields |
| Embeddings.ToTextFields | backend/core/create_embeddings.py:27-29 | each field sits right after its label, in the order title, description, type, score, track, date |
| Embeddings.ToTextHead | backend/core/create_embeddings.py:29 | the title, then " - " and the description, then " \| Type: " and the type |
| Embeddings.ToTextTail | backend/core/create_embeddings.py:29 | " \| Score: " and the score type, " \| Track: " and the track, " \| Date: " and created_at up to the end |
| Embeddings.HeadPieces | backend/core/create_embeddings.py:29 | where the title, description and type sit in a text opening with them |
| Embeddings.TailPieces | backend/core/create_embeddings.py:29 | where the score type, track and date sit after a given head |
| Embeddings.FirstIn | backend/core/create_embeddings.py:50-52 | the first type in list order that occurs in the title |
| Embeddings.TypeAmong | backend/core/create_embeddings.py:49-53 | the result is a listed type found in the normalised title, or, when none is found, the score type, or "N/A" when it is empty |
| Embeddings.GetWorkoutType | backend/core/create_embeddings.py:47-53 | the type is never empty, and is a known workout type, the score type or "N/A" |
| Embeddings.TypeAmongCases | backend/core/create_embeddings.py:49-53 | the first listed type found in the normalised title wins; with none, the score type, or "N/A" when it is empty |
| Embeddings.WorkoutTypeCases | backend/core/create_embeddings.py:47-53 | the same rule for "pre-wod", "warmup", "quality time", "open gym" |
| Embeddings.TrackName | backend/core/create_embeddings.py:77 | a known id gives its name; a list or dict id is unhashable; other ids give "Unknown Track" |
| Embeddings.TitleText | backend/core/create_embeddings.py:51 | only a string title can be lower-cased |
| Embeddings.FromRecord | backend/core/create_embeddings.py:71-91 | a mapped record has an "id", which becomes the id; its type is the workout-type rule applied to its score type and title |
| Embeddings.FromRecordFields | backend/core/create_embeddings.py:71-91 | a record maps exactly when it and its attributes are objects, the score type and title are strings, the track is an object whose id is hashable, and there is an id; title defaults to "Unknown Workout", description and created_at to "", the score type is stripped and lower-cased, and the track is the mapping of attributes.track.id, default "unknown" |
| Embeddings.RecordDefaults | backend/core/create_embeddings.py:72-78 | without attributes: title "Unknown Workout", description "", score type "", track "Unknown Track", created_at "" |
| Embeddings.MissingIdRaises | backend/core/create_embeddings.py:72-84 | a record without "id" whose attribute reads all succeed raises KeyError('id') |
| Embeddings.MapRecords | backend/core/create_embeddings.py:71-91 | one workout per record, in order; a failure is some record's failure |
| Embeddings.LoadCount | backend/core/create_embeddings.py:56-91 | a successful load has one workout per record of the files read |
| Embeddings.LoadAppend | backend/core/create_embeddings.py:58 | files are loaded one after another in listing order |
| Embeddings.LoadWorkouts | backend/core/create_embeddings.py:56-91 | a successful load yields one workout per record of the workout files that decode to lists |
| Embeddings.WorkoutFiles | backend/core/create_embeddings.py:59-60 | the kept names all start with "workouts" and end with ".json" |
| Embeddings.OnlyWorkoutFilesRead | backend/core/create_embeddings.py:59-60 | other files are never read |
| Embeddings.SkippedFile | backend/core/create_embeddings.py:63-69 | a file that does not decode, or does not hold a list, contributes nothing |
| Extract.Data | ingest/sugarwod/extract.py:39-45 | a 200 response gives "data" or []; any other status gives [] |
| Extract.TrackEntry | ingest/sugarwod/extract.py:41 | a track gives its id and attributes.name; a missing id is a KeyError |
| Extract.ToMapKeys | ingest/sugarwod/extract.py:41 | the dict's keys are exactly the inserted keys |
| Extract.ToMapLastWins | ingest/sugarwod/extract.py:41 | for a repeated id the last track wins |
| Extract.TrackMapping | ingest/sugarwod/extract.py:41 | the comprehension succeeds exactly when every track has an id and attributes.name |
| Extract.TrackMappingContents | ingest/sugarwod/extract.py:41 | each id whose track is its last occurrence maps to that track's name |
| Extract.TrackMappingKeys | ingest/sugarwod/extract.py:41 | the keys are exactly the track ids |
| Extract.FetchTracks | ingest/sugarwod/extract.py:34-45 | a failed request gives the empty mapping; otherwise the comprehension over "data" |
| Extract.WindowAt | ingest/sugarwod/extract.py:69-75 | a window spans seven days |
| Extract.Windows | ingest/sugarwod/extract.py:64-81 | ceil((end - start + 1) / 7) windows, or none when start > end; window k starts 7k days after start and no window starts after end; the last reaches end |
| Extract.CountFromBounds | ingest/sugarwod/extract.py:68-81 | the loop's step count is the ceiling of the range length over 7 |
| Extract.Covering | ingest/sugarwod/extract.py:67-81 | every day of the range lies in exactly one window |
| Extract.FileNamesDistinct | ingest/sugarwod/extract.py:75 | windows starting on different days write different files |
| Extract.FileName | ingest/sugarwod/extract.py:75 | the name is "workouts_", the window's first day, ".json" |
| Extract.WrittenFilesAreRead | ingest/sugarwod/extract.py:75 | every file written passes the embedding loader's name filter |
| Text.StripIdempotent | backend/core/openai_client.py:39 | stripping twice is stripping once |
| Text.LowerStripCommute | backend/services/workout_category.py:5-6 | lower-then-strip equals strip-then-lower |
| Text.IntToStringInjective | backend/services/generate_workout.py:15 | distinct numbers render as distinct decimal strings |
| Text.TrimStart | backend/core/openai_client.py:39 | leading whitespace is cut: the result is a suffix, everything cut is whitespace, and it does not start with whitespace |
| Text.TrimEnd | backend/core/openai_client.py:39 | trailing whitespace is cut: the result is a prefix, everything cut is whitespace, and it does not end with whitespace |
| Text.Lower | backend/services/workout_category.py:5-6 | the same length, no uppercase ASCII letter left, each uppercase letter replaced by its lowercase one and every other character unchanged |
| Wrappers.MapAll | backend/core/response_parser.py:43-49 | a comprehension succeeds exactly when every element does, giving one result per element in order; otherwise it fails with the first failure |

## Left out

- HTTP routing and marshalling, and the sample `/generate` route: not part of the pipeline logic.
- The completion-service client and its call: the generator is a function parameter.
- Wall-clock time and `time.sleep`: the clock is an integer `now` per request.
- OpenAIClient.Call: the clock is an integer, not a float; the time the sleep ends is computed, not read back from the clock.
- The embedding model, the vector index and `numpy`: the index's positions and distances are inputs, and distances have an arbitrary type.
- Building and storing embeddings and the index: no logic beyond calling libraries.
- Files and the database: the response cache is a map from file name to text, with the cache file's envelope key not modelled. Ingest file writes, HTTP fetches and the SQL loader are out of scope.
- `json.loads`/`json.load`/`json.dump`: decoding is a function parameter that may fail, and dumping is not modelled.
- Calendar conversion: dates are day numbers. Extract.FileName renders a window's first day as a decimal number instead of YYYYMMDD, which keeps names distinct in the same way.
- ResponseParser.ParseSession: `Session.from_dict` and the pydantic plan types are not modelled. The active parser uses the older parser's decoding, with an unknown tag raising a ValueError, and pydantic coercion (such as a string "5" for sets) is not modelled. A `Session` always carries one of the four tags, so the summariser's fall-through for any other tag, which adds nothing, has no counterpart in the model.
- Embeddings.FromRecord: description, created_at and id are stored through Embeddings.Show, which renders a scalar as Python's `str` but a list or dict only as "[]" or "{}".
- Embeddings.LoadWorkouts: the directory listing's order is given as the order of `files`.
- Extract.TrackMapping: the mapping's round trip through tracks.json is not modelled; the loader receives a map from string ids to names.
- PromptBuilder.BuildPrompt: the prompt's fixed prose is a parameter (`Template`); only which value goes where, and the fallbacks, are modelled.
- The retrieval step inside the prompt builder calls the search without its two required flags. That call is modelled as the parameter `retrieve`.
- The test module imports the parser from a module that does not define it. The tests are not modelled.
- Logging output: no effect on results.
- Text.Lower: lower-cases the ASCII letters A-Z only. Python's `str.lower` also maps other cased characters ("É" to "é", "İ" to "i̇", the Kelvin sign to "k"). So score types, the score-type fallback and the keyword tests on titles with such characters may differ from the code.
- Extract.ToMap: dict keys are compared as JSON values. In Python the keys 1 and True are one key (the first key object is kept and the last value wins), so tracks whose ids differ only that way collapse in the code but not in the model.
- Numbers in JSON are whole numbers: floating point is not modelled.

## Findings

| source | as written | input that shows it | evidently intended | confidence | as-written member | corrected member |
|---|---|---|---|---|---|---|
| backend/services/search.py:42 | a hit goes to the cool-down list when its category is "quality" | any hit whose title contains "cooldown", searched with include_cooldowns set: it lands in "results" and "for quality" stays empty | compare against "cooldown", the label the classifier returns | not executed | Search.QualityBucketAlwaysEmpty | Search.CooldownsBucketed |
| backend/services/search.py:25 | a hit is kept when `idx < len(workout_metadata)` | index answer [-1] (the filler for an index with fewer entries than top_k) and non-empty metadata: the last stored workout is returned as hit 1 | keep only `0 <= idx < len(workout_metadata)` | not executed | Search.NegativeIndexReadsLast | Search.InRangeFrom |
