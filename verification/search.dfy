/** What happens to the hits of a similarity search: the index returns
    positions into the stored metadata (one list of indexed workouts) with
    a distance each; the positions are filtered, each retained workout is
    classified, and it is placed in one of three buckets. The embedding
    model and the index itself are oracles: their output is the input here,
    and distances are values of an arbitrary type `D`. */
module Search {
  import opened Wrappers
  import opened Exceptions
  import Text
  import WorkoutCategory
  import opened Embeddings

  /** `get_workout_category` as search.py writes it: any warm-up keyword in
      the normalised title, else any cool-down keyword, else a non-empty
      normalised score type. */
  function Category(title: string, scoreType: string): (r: string)
    ensures WorkoutCategory.IsLabel(r)
  {
    var t := Text.Strip(Text.Lower(title));
    var s := Text.Lower(Text.Strip(scoreType));
    if exists i :: 0 <= i < |WorkoutCategory.WarmupKeywords| && Text.Contains(t, WorkoutCategory.WarmupKeywords[i])
    then WorkoutCategory.WarmupLabel
    else if exists i :: 0 <= i < |WorkoutCategory.CooldownKeywords| && Text.Contains(t, WorkoutCategory.CooldownKeywords[i])
    then WorkoutCategory.CooldownLabel
    else if s != "" then WorkoutCategory.WorkoutLabel
    else WorkoutCategory.OtherLabel
  }

  /** The two copies of the classifier agree on every input. */
  lemma CategoriesAgree(title: string, scoreType: string)
    ensures Category(title, scoreType) == WorkoutCategory.Category(title, scoreType)
  {
    WorkoutCategory.CategoryCases(title, scoreType);
    Text.LowerStripCommute(scoreType);
  }

  /** One entry of a bucket: the position of the hit (from 1), the indexed
      workout's fields other than its id, and the distance. */
  datatype Hit<D> = Hit(
    rank: int, title: string, description: string, scoreType: string,
    workoutType: string, track: string, createdAt: string, distance: D)

  function HitOf<D>(rank: int, w: Workout, distance: D): Hit<D>
  {
    Hit(rank, w.title, w.description, w.scoreType, w.workoutType, w.track, w.createdAt, distance)
  }

  function HitCategory<D>(h: Hit<D>): string
  {
    Category(h.title, h.scoreType)
  }

  datatype Bucket = Results | Warmups | Cooldowns

  /** The returned dict: the query and the three lists. The third is
      returned under the key "for quality". */
  datatype SearchResponse<D> = SearchResponse(
    query: string, results: seq<Hit<D>>, warmups: seq<Hit<D>>, forQuality: seq<Hit<D>>)

  /** `xs[i]` on a Python list: negative positions count from the end. */
  function PyIndex<T>(xs: seq<T>, i: int): (r: Result<T, Exception>)
    ensures r.Success? <==> -|xs| <= i < |xs|
    ensures 0 <= i < |xs| ==> r == Success(xs[i])
    ensures -|xs| <= i < 0 ==> r == Success(xs[|xs| + i])
  {
    if 0 <= i < |xs| then Success(xs[i])
    else if -|xs| <= i < 0 then Success(xs[|xs| + i])
    else Failure(IndexError("list index out of range"))
  }

  /** A hit as the written filter produces it: position `rank - 1` of the
      index's answer passed `idx < len(workout_metadata)`, and the hit
      carries the workout Python's indexing reads there (from the end for a
      negative position) and that position's distance. */
  ghost predicate SourcedAsWritten<D>(h: Hit<D>, indices: seq<int>, distances: seq<D>, metadata: seq<Workout>)
    requires |distances| == |indices|
  {
    1 <= h.rank <= |indices| && indices[h.rank - 1] < |metadata|
    && PyIndex(metadata, indices[h.rank - 1]).Success?
    && h == HitOf(h.rank, PyIndex(metadata, indices[h.rank - 1]).value, distances[h.rank - 1])
  }

  /** The hits kept by the loop from position `i` on, as written: the only
      test is `idx < len(workout_metadata)`, so a negative position reads
      from the end of the list, or raises when it is beyond its start. */
  function RetainedFrom<D>(indices: seq<int>, distances: seq<D>, metadata: seq<Workout>, i: nat)
    : (r: Result<seq<Hit<D>>, Exception>)
    requires |distances| == |indices| && i <= |indices|
    ensures r.Failure? <==> exists k :: i <= k < |indices| && indices[k] < -|metadata|
    ensures r.Success? ==> forall j :: 0 <= j < |r.value| ==> i < r.value[j].rank <= |indices|
    ensures r.Success? ==>
      forall j :: 0 <= j < |r.value| ==> SourcedAsWritten(r.value[j], indices, distances, metadata)
    ensures r.Success? ==> forall j, l :: 0 <= j < l < |r.value| ==> r.value[j].rank < r.value[l].rank
    decreases |indices| - i
  {
    if i == |indices| then Success([])
    else if indices[i] < |metadata| then
      var w :- PyIndex(metadata, indices[i]);
      var rest :- RetainedFrom(indices, distances, metadata, i + 1);
      Success([HitOf(i + 1, w, distances[i])] + rest)
    else RetainedFrom(indices, distances, metadata, i + 1)
  }

  /** As written, every position below `len(workout_metadata)` yields a
      hit with its rank, negative ones included. */
  lemma {:induction false} RetainedComplete<D>(indices: seq<int>, distances: seq<D>, metadata: seq<Workout>,
                                               i: nat, k: int)
    requires |distances| == |indices| && i <= k < |indices|
    requires RetainedFrom(indices, distances, metadata, i).Success?
    requires indices[k] < |metadata|
    ensures exists j :: 0 <= j < |RetainedFrom(indices, distances, metadata, i).value|
                        && RetainedFrom(indices, distances, metadata, i).value[j].rank == k + 1
    decreases |indices| - i
  {
    var r := RetainedFrom(indices, distances, metadata, i).value;
    var rest := RetainedFrom(indices, distances, metadata, i + 1);
    if indices[i] < |metadata| {
      var w := PyIndex(metadata, indices[i]).value;
      var h := HitOf(i + 1, w, distances[i]);
      assert rest.Success? && r == [h] + rest.value;
      if k == i {
        assert r[0].rank == k + 1;
      } else {
        RetainedComplete(indices, distances, metadata, i + 1, k);
        var j :| 0 <= j < |rest.value| && rest.value[j].rank == k + 1;
        assert r[j + 1] == rest.value[j];
      }
    } else {
      assert k != i;
      RetainedComplete(indices, distances, metadata, i + 1, k);
    }
  }

  function Retained<D>(indices: seq<int>, distances: seq<D>, metadata: seq<Workout>)
    : Result<seq<Hit<D>>, Exception>
    requires |distances| == |indices|
  {
    RetainedFrom(indices, distances, metadata, 0)
  }

  /** A hit names a stored workout through its rank: position `rank - 1`
      of the index's answer is in range, and the hit carries that workout's
      fields and that position's distance. */
  ghost predicate Sourced<D>(h: Hit<D>, indices: seq<int>, distances: seq<D>, metadata: seq<Workout>)
    requires |distances| == |indices|
  {
    1 <= h.rank <= |indices| && 0 <= indices[h.rank - 1] < |metadata|
    && h == HitOf(h.rank, metadata[indices[h.rank - 1]], distances[h.rank - 1])
  }

  /** The hits kept from position `i` on when only positions that name a
      stored workout, `0 <= idx < len(workout_metadata)`, are kept. */
  function InRangeFrom<D>(indices: seq<int>, distances: seq<D>, metadata: seq<Workout>, i: nat)
    : (r: seq<Hit<D>>)
    requires |distances| == |indices| && i <= |indices|
    ensures forall j :: 0 <= j < |r| ==> i < r[j].rank && Sourced(r[j], indices, distances, metadata)
    ensures forall j, l :: 0 <= j < l < |r| ==> r[j].rank < r[l].rank
    decreases |indices| - i
  {
    if i == |indices| then []
    else
      var rest := InRangeFrom(indices, distances, metadata, i + 1);
      if 0 <= indices[i] < |metadata| then
        [HitOf(i + 1, metadata[indices[i]], distances[i])] + rest
      else rest
  }

  function InRange<D>(indices: seq<int>, distances: seq<D>, metadata: seq<Workout>): seq<Hit<D>>
    requires |distances| == |indices|
  {
    InRangeFrom(indices, distances, metadata, 0)
  }

  /** Every position that names a stored workout yields a hit with its rank. */
  lemma {:induction false} InRangeComplete<D>(indices: seq<int>, distances: seq<D>, metadata: seq<Workout>,
                                              i: nat, k: int)
    requires |distances| == |indices| && i <= k < |indices|
    requires 0 <= indices[k] < |metadata|
    ensures exists j :: 0 <= j < |InRangeFrom(indices, distances, metadata, i)|
                        && InRangeFrom(indices, distances, metadata, i)[j].rank == k + 1
    decreases |indices| - i
  {
    var r := InRangeFrom(indices, distances, metadata, i);
    var rest := InRangeFrom(indices, distances, metadata, i + 1);
    if k == i {
      var h := HitOf(i + 1, metadata[indices[i]], distances[i]);
      assert r == [h] + rest;
      assert r[0].rank == k + 1;
    } else {
      InRangeComplete(indices, distances, metadata, i + 1, k);
      var j :| 0 <= j < |rest| && rest[j].rank == k + 1;
      if 0 <= indices[i] < |metadata| {
        var h := HitOf(i + 1, metadata[indices[i]], distances[i]);
        assert r == [h] + rest;
        assert r[j + 1] == rest[j];
      } else {
        assert r == rest;
      }
    }
  }

  /** The bucket as written: a warm-up goes to `warmups` when asked for; the
      cool-down test compares against the label "quality". */
  function BucketAsWritten(category: string, includeWarmups: bool, includeCooldowns: bool): Bucket
  {
    if category == WorkoutCategory.WarmupLabel && includeWarmups then Warmups
    else if category == "quality" && includeCooldowns then Cooldowns
    else Results
  }

  /** The bucket with the cool-down test against the label the classifier
      actually returns. */
  function BucketIntended(category: string, includeWarmups: bool, includeCooldowns: bool): Bucket
  {
    if category == WorkoutCategory.WarmupLabel && includeWarmups then Warmups
    else if category == WorkoutCategory.CooldownLabel && includeCooldowns then Cooldowns
    else Results
  }

  /** The hits of `xs` that `bucketOf` sends to `b`, in order. */
  function Only<D>(xs: seq<Hit<D>>, b: Bucket, bucketOf: Hit<D> -> Bucket): (r: seq<Hit<D>>)
    ensures |r| <= |xs|
    decreases |xs|
  {
    if |xs| == 0 then []
    else Only(xs[..|xs| - 1], b, bucketOf) + (if bucketOf(xs[|xs| - 1]) == b then [xs[|xs| - 1]] else [])
  }

  /** A hit is in a bucket exactly when it is one of the hits sent there. */
  lemma {:induction false} OnlyMembers<D>(xs: seq<Hit<D>>, b: Bucket, bucketOf: Hit<D> -> Bucket, h: Hit<D>)
    ensures h in Only(xs, b, bucketOf) <==> h in xs && bucketOf(h) == b
    decreases |xs|
  {
    if |xs| > 0 {
      var init := xs[..|xs| - 1];
      OnlyMembers(init, b, bucketOf, h);
      assert xs == init + [xs[|xs| - 1]];
    }
  }

  /** Distributing a concatenation distributes each part in turn, so every
      bucket keeps the hits' relative order. */
  lemma {:induction false} OnlyAppend<D>(xs: seq<Hit<D>>, ys: seq<Hit<D>>, b: Bucket, bucketOf: Hit<D> -> Bucket)
    ensures Only(xs + ys, b, bucketOf) == Only(xs, b, bucketOf) + Only(ys, b, bucketOf)
    decreases |ys|
  {
    if |ys| == 0 {
      assert xs + ys == xs;
    } else {
      var init := ys[..|ys| - 1];
      var last := ys[|ys| - 1];
      assert (xs + ys)[..|xs + ys| - 1] == xs + init;
      assert (xs + ys)[|xs + ys| - 1] == last;
      OnlyAppend(xs, init, b, bucketOf);
    }
  }

  /** Every hit lands in exactly one bucket: the three sizes add up. */
  lemma {:induction false} PartitionSizes<D>(xs: seq<Hit<D>>, bucketOf: Hit<D> -> Bucket)
    ensures |Only(xs, Results, bucketOf)| + |Only(xs, Warmups, bucketOf)| + |Only(xs, Cooldowns, bucketOf)| == |xs|
    decreases |xs|
  {
    if |xs| > 0 {
      PartitionSizes(xs[..|xs| - 1], bucketOf);
    }
  }

  /** No hit goes to a bucket that `bucketOf` never chooses. */
  lemma {:induction false} OnlyNone<D>(xs: seq<Hit<D>>, b: Bucket, bucketOf: Hit<D> -> Bucket)
    requires forall j :: 0 <= j < |xs| ==> bucketOf(xs[j]) != b
    ensures Only(xs, b, bucketOf) == []
    decreases |xs|
  {
    if |xs| > 0 {
      OnlyNone(xs[..|xs| - 1], b, bucketOf);
    }
  }

  /** Two bucket choices that agree on every hit distribute alike. */
  lemma {:induction false} OnlyAgree<D>(xs: seq<Hit<D>>, b: Bucket, f: Hit<D> -> Bucket, g: Hit<D> -> Bucket)
    requires forall j :: 0 <= j < |xs| ==> f(xs[j]) == g(xs[j])
    ensures Only(xs, b, f) == Only(xs, b, g)
    decreases |xs|
  {
    if |xs| > 0 {
      OnlyAgree(xs[..|xs| - 1], b, f, g);
    }
  }

  function Respond<D>(query: string, hits: seq<Hit<D>>, bucketOf: Hit<D> -> Bucket): SearchResponse<D>
  {
    SearchResponse(query, Only(hits, Results, bucketOf), Only(hits, Warmups, bucketOf), Only(hits, Cooldowns, bucketOf))
  }

  /** The loop of `search_similar_workouts` over the retained hits: each is
      appended to the list its bucket names. */
  method Distribute<D>(query: string, hits: seq<Hit<D>>, bucketOf: Hit<D> -> Bucket) returns (resp: SearchResponse<D>)
    ensures resp.query == query
    ensures resp.results == Only(hits, Results, bucketOf)
    ensures resp.warmups == Only(hits, Warmups, bucketOf)
    ensures resp.forQuality == Only(hits, Cooldowns, bucketOf)
  {
    var results: seq<Hit<D>> := [];
    var warmups: seq<Hit<D>> := [];
    var cooldowns: seq<Hit<D>> := [];
    var i := 0;
    while i < |hits|
      invariant 0 <= i <= |hits|
      invariant results == Only(hits[..i], Results, bucketOf)
      invariant warmups == Only(hits[..i], Warmups, bucketOf)
      invariant cooldowns == Only(hits[..i], Cooldowns, bucketOf)
    {
      assert hits[..i + 1][..i] == hits[..i];
      match bucketOf(hits[i]) {
        case Warmups => warmups := warmups + [hits[i]];
        case Cooldowns => cooldowns := cooldowns + [hits[i]];
        case Results => results := results + [hits[i]];
      }
      i := i + 1;
    }
    assert hits[..i] == hits;
    resp := SearchResponse(query, results, warmups, cooldowns);
  }

  /** `search_similar_workouts` as written, from the index's positions and
      distances for the query. */
  function SearchAsWritten<D>(query: string, indices: seq<int>, distances: seq<D>, metadata: seq<Workout>,
                              includeWarmups: bool, includeCooldowns: bool): (r: Result<SearchResponse<D>, Exception>)
    requires |distances| == |indices|
    ensures r.Failure? <==> exists k :: 0 <= k < |indices| && indices[k] < -|metadata|
    ensures r.Success? ==> r.value.query == query
    ensures r.Success? ==> |r.value.results| + |r.value.warmups| + |r.value.forQuality|
                           == |Retained(indices, distances, metadata).value|
  {
    var hits :- Retained(indices, distances, metadata);
    var bucketOf := (h: Hit<D>) => BucketAsWritten(HitCategory(h), includeWarmups, includeCooldowns);
    PartitionSizes(hits, bucketOf);
    Success(Respond(query, hits, bucketOf))
  }

  /** `search_similar_workouts` with both defects corrected: positions
      outside the metadata are dropped and cool-downs are bucketed by their
      real label. */
  function SearchCorrected<D>(query: string, indices: seq<int>, distances: seq<D>, metadata: seq<Workout>,
                              includeWarmups: bool, includeCooldowns: bool): (r: SearchResponse<D>)
    requires |distances| == |indices|
    ensures r.query == query
    ensures |r.results| + |r.warmups| + |r.forQuality| == |InRange(indices, distances, metadata)|
  {
    var bucketOf := (h: Hit<D>) => BucketIntended(HitCategory(h), includeWarmups, includeCooldowns);
    PartitionSizes(InRange(indices, distances, metadata), bucketOf);
    Respond(query, InRange(indices, distances, metadata), bucketOf)
  }

  /** As written, the "for quality" list is always empty: the classifier
      never returns "quality". */
  lemma QualityBucketAlwaysEmpty<D>(query: string, indices: seq<int>, distances: seq<D>, metadata: seq<Workout>,
                                    includeWarmups: bool, includeCooldowns: bool)
    requires |distances| == |indices|
    ensures SearchAsWritten(query, indices, distances, metadata, includeWarmups, includeCooldowns).Success?
            ==> SearchAsWritten(query, indices, distances, metadata, includeWarmups, includeCooldowns).value.forQuality == []
  {
    var r := Retained(indices, distances, metadata);
    if r.Success? {
      var f := (h: Hit<D>) => BucketAsWritten(HitCategory(h), includeWarmups, includeCooldowns);
      forall j | 0 <= j < |r.value|
        ensures f(r.value[j]) != Cooldowns
      {
        assert WorkoutCategory.IsLabel(HitCategory(r.value[j]));
      }
      OnlyNone(r.value, Cooldowns, f);
    }
  }

  /** As written, asking for cool-downs or not makes no difference. */
  lemma AsWrittenIgnoresCooldownFlag<D>(query: string, indices: seq<int>, distances: seq<D>, metadata: seq<Workout>,
                                        includeWarmups: bool)
    requires |distances| == |indices|
    ensures SearchAsWritten(query, indices, distances, metadata, includeWarmups, true)
         == SearchAsWritten(query, indices, distances, metadata, includeWarmups, false)
  {
    var r := Retained(indices, distances, metadata);
    if r.Success? {
      var f := (h: Hit<D>) => BucketAsWritten(HitCategory(h), includeWarmups, true);
      var g := (h: Hit<D>) => BucketAsWritten(HitCategory(h), includeWarmups, false);
      forall j | 0 <= j < |r.value|
        ensures f(r.value[j]) == g(r.value[j])
      {
        assert WorkoutCategory.IsLabel(HitCategory(r.value[j]));
      }
      OnlyAgree(r.value, Results, f, g);
      OnlyAgree(r.value, Warmups, f, g);
      OnlyAgree(r.value, Cooldowns, f, g);
    }
  }

  /** As written, the position -1 (which the index reports when it has
      fewer entries than asked for) passes the filter and reads the last
      stored workout as a hit. */
  lemma NegativeIndexReadsLast<D>(metadata: seq<Workout>, d: D)
    requires |metadata| > 0
    ensures Retained([-1], [d], metadata) == Success([HitOf(1, metadata[|metadata| - 1], d)])
  {
    var indices := [-1];
    assert indices[0] == -1 && indices[0] < |metadata|;
    assert PyIndex(metadata, -1) == Success(metadata[|metadata| - 1]);
    assert RetainedFrom(indices, [d], metadata, 1) == Success([]);
    var h := HitOf(1, metadata[|metadata| - 1], d);
    assert [h] + [] == [h];
  }

  /** Corrected, a cool-down hit is in the cool-down bucket exactly when
      cool-downs are asked for, and in the main results otherwise. */
  lemma CooldownsBucketed<D>(query: string, indices: seq<int>, distances: seq<D>, metadata: seq<Workout>,
                                 includeWarmups: bool, includeCooldowns: bool, h: Hit<D>)
    requires |distances| == |indices|
    requires h in InRange(indices, distances, metadata)
    requires HitCategory(h) == WorkoutCategory.CooldownLabel
    ensures h in SearchCorrected(query, indices, distances, metadata, includeWarmups, includeCooldowns).forQuality
            <==> includeCooldowns
    ensures h in SearchCorrected(query, indices, distances, metadata, includeWarmups, includeCooldowns).results
            <==> !includeCooldowns
  {
    var hits := InRange(indices, distances, metadata);
    var f := (x: Hit<D>) => BucketIntended(HitCategory(x), includeWarmups, includeCooldowns);
    OnlyMembers(hits, Cooldowns, f, h);
    OnlyMembers(hits, Results, f, h);
  }

  /** Corrected, a warm-up hit is in the warm-up bucket exactly when
      warm-ups are asked for, and in the main results otherwise. */
  lemma WarmupsBucketed<D>(query: string, indices: seq<int>, distances: seq<D>, metadata: seq<Workout>,
                               includeWarmups: bool, includeCooldowns: bool, h: Hit<D>)
    requires |distances| == |indices|
    requires h in InRange(indices, distances, metadata)
    requires HitCategory(h) == WorkoutCategory.WarmupLabel
    ensures h in SearchCorrected(query, indices, distances, metadata, includeWarmups, includeCooldowns).warmups
            <==> includeWarmups
    ensures h in SearchCorrected(query, indices, distances, metadata, includeWarmups, includeCooldowns).results
            <==> !includeWarmups
  {
    var hits := InRange(indices, distances, metadata);
    var f := (x: Hit<D>) => BucketIntended(HitCategory(x), includeWarmups, includeCooldowns);
    OnlyMembers(hits, Warmups, f, h);
    OnlyMembers(hits, Results, f, h);
  }

  /** As written, too, a warm-up hit is in the warm-up bucket exactly when
      warm-ups are asked for, and in the main results otherwise. */
  lemma WarmupsBucketedAsWritten<D>(query: string, indices: seq<int>, distances: seq<D>, metadata: seq<Workout>,
                                    includeWarmups: bool, includeCooldowns: bool, h: Hit<D>)
    requires |distances| == |indices|
    requires Retained(indices, distances, metadata).Success?
    requires h in Retained(indices, distances, metadata).value
    requires HitCategory(h) == WorkoutCategory.WarmupLabel
    ensures h in SearchAsWritten(query, indices, distances, metadata, includeWarmups, includeCooldowns).value.warmups
            <==> includeWarmups
    ensures h in SearchAsWritten(query, indices, distances, metadata, includeWarmups, includeCooldowns).value.results
            <==> !includeWarmups
  {
    var hits := Retained(indices, distances, metadata).value;
    var f := (x: Hit<D>) => BucketAsWritten(HitCategory(x), includeWarmups, includeCooldowns);
    OnlyMembers(hits, Warmups, f, h);
    OnlyMembers(hits, Results, f, h);
  }
}
