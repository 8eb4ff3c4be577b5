/** The indexing side of retrieval: extracted workout records are mapped
    to flat `Workout` entries (with defaults and a derived type), and each
    entry has the text that is embedded. Only files named `workouts*.json`
    that hold a JSON list are read. */
module Embeddings {
  import opened Wrappers
  import opened Exceptions
  import opened Json
  import Text

  const KnownWorkoutTypes: seq<string> := ["pre-wod", "warmup", "quality time", "open gym"]
  const NoType := "N/A"
  const UnknownTitle := "Unknown Workout"
  const UnknownTrackId := "unknown"
  const UnknownTrack := "Unknown Track"

  /** The `Workout` dataclass: one indexed entry. */
  datatype Workout = Workout(
    id: string, title: string, description: string, scoreType: string,
    workoutType: string, track: string, createdAt: string)
  {
    /** `Workout.to_text()`: the fields in a fixed order behind fixed labels. */
    function ToText(): (r: string)
      ensures |r| == |title| + |description| + |workoutType| + |scoreType| + |track| + |createdAt| + FixedTextLength
      ensures Text.StartsWith(r, title + " - ")
      ensures Text.EndsWith(r, " | Date: " + createdAt)
    {
      title + " - " + description + " | Type: " + workoutType + " | Score: " + scoreType
      + " | Track: " + track + " | Date: " + createdAt
    }
  }

  /** The number of characters `to_text` adds around the fields. */
  const FixedTextLength := 41

  /** A text that opens with `a + piece` holds `piece` right after `a`. */
  lemma PieceAt(r: string, a: string, piece: string)
    requires |a| + |piece| <= |r| && r[..|a| + |piece|] == a + piece
    ensures r[..|a|] == a && r[|a|..|a| + |piece|] == piece
  {
    assert forall i :: 0 <= i < |a| ==> r[i] == (a + piece)[i];
    assert forall i :: |a| <= i < |a| + |piece| ==> r[i] == (a + piece)[i];
  }

  /** Each field of `to_text` sits right after its label, in the order
      title, description, type, score, track, date. */
  lemma ToTextFields(w: Workout)
    ensures var r := w.ToText();
      var d := |w.title| + 3;
      var t := d + |w.description| + 9;
      var s := t + |w.workoutType| + 10;
      var k := s + |w.scoreType| + 10;
      var c := k + |w.track| + 9;
      && |r| == c + |w.createdAt|
      && r[..|w.title|] == w.title
      && r[d - 3..d] == " - " && r[d..d + |w.description|] == w.description
      && r[t - 9..t] == " | Type: " && r[t..t + |w.workoutType|] == w.workoutType
      && r[s - 10..s] == " | Score: " && r[s..s + |w.scoreType|] == w.scoreType
      && r[k - 10..k] == " | Track: " && r[k..k + |w.track|] == w.track
      && r[c - 9..c] == " | Date: " && r[c..] == w.createdAt
  {
    ToTextHead(w);
    ToTextTail(w);
  }

  /** The title, description and type behind their labels. */
  lemma ToTextHead(w: Workout)
    ensures var r := w.ToText();
      var d := |w.title| + 3;
      var t := d + |w.description| + 9;
      && t + |w.workoutType| <= |r|
      && r[..|w.title|] == w.title
      && r[d - 3..d] == " - " && r[d..d + |w.description|] == w.description
      && r[t - 9..t] == " | Type: " && r[t..t + |w.workoutType|] == w.workoutType
  {
    var head := w.title + " - " + w.description + " | Type: " + w.workoutType;
    TailPieces(head, w.scoreType, w.track, w.createdAt);
    HeadPieces(w.ToText(), w.title, w.description, w.workoutType);
  }

  /** The score, track and date behind their labels, the date running to the end. */
  lemma ToTextTail(w: Workout)
    ensures var r := w.ToText();
      var s := |w.title| + |w.description| + |w.workoutType| + 22;
      var k := s + |w.scoreType| + 10;
      var c := k + |w.track| + 9;
      && |r| == c + |w.createdAt|
      && r[s - 10..s] == " | Score: " && r[s..s + |w.scoreType|] == w.scoreType
      && r[k - 10..k] == " | Track: " && r[k..k + |w.track|] == w.track
      && r[c - 9..c] == " | Date: " && r[c..] == w.createdAt
  {
    var head := w.title + " - " + w.description + " | Type: " + w.workoutType;
    assert |head| == |w.title| + |w.description| + |w.workoutType| + 12;
    TailPieces(head, w.scoreType, w.track, w.createdAt);
  }

  /** Where the pieces of a text that opens with `title - description | Type: type` sit. */
  lemma HeadPieces(r: string, title: string, description: string, workoutType: string)
    requires var head := title + " - " + description + " | Type: " + workoutType;
      |head| <= |r| && r[..|head|] == head
    ensures var d := |title| + 3;
      var t := d + |description| + 9;
      && t + |workoutType| <= |r|
      && r[..|title|] == title
      && r[d - 3..d] == " - " && r[d..d + |description|] == description
      && r[t - 9..t] == " | Type: " && r[t..t + |workoutType|] == workoutType
  {
    var p2 := title + " - ";
    var p3 := p2 + description;
    var p4 := p3 + " | Type: ";
    PieceAt(r, p4, workoutType);
    PieceAt(r, p3, " | Type: ");
    PieceAt(r, p2, description);
    PieceAt(r, title, " - ");
  }

  /** Where the pieces of `head | Score: score | Track: track | Date: date` sit. */
  lemma TailPieces(head: string, scoreType: string, track: string, createdAt: string)
    ensures var r := head + " | Score: " + scoreType + " | Track: " + track + " | Date: " + createdAt;
      var s := |head| + 10;
      var k := s + |scoreType| + 10;
      var c := k + |track| + 9;
      && |r| == c + |createdAt|
      && r[..|head|] == head
      && r[s - 10..s] == " | Score: " && r[s..s + |scoreType|] == scoreType
      && r[k - 10..k] == " | Track: " && r[k..k + |track|] == track
      && r[c - 9..c] == " | Date: " && r[c..] == createdAt
  {
    var r := head + " | Score: " + scoreType + " | Track: " + track + " | Date: " + createdAt;
    var p6 := head + " | Score: ";
    var p7 := p6 + scoreType;
    var p8 := p7 + " | Track: ";
    var p9 := p8 + track;
    var p10 := p9 + " | Date: ";
    PieceAt(r, p10, createdAt);
    PieceAt(r, p9, " | Date: ");
    PieceAt(r, p8, track);
    PieceAt(r, p7, " | Track: ");
    PieceAt(r, p6, scoreType);
    PieceAt(r, head, " | Score: ");
  }

  /** Python's `str(v)` for a JSON scalar. Arrays and objects are not
      rendered (see README). */
  function Show(v: JValue): string
  {
    match v
    case JStr(s) => s
    case JNull => "None"
    case JBool(b) => if b then "True" else "False"
    case JNum(n) => Text.IntToString(n)
    case JArr(_) => "[]"
    case JObj(_) => "{}"
  }

  /** The first of `types` that occurs in `t`. */
  function FirstIn(types: seq<string>, t: string): (r: Option<nat>)
    ensures r.Some? ==> r.value < |types| && Text.Contains(t, types[r.value])
    ensures r.Some? ==> forall j :: 0 <= j < r.value ==> !Text.Contains(t, types[j])
    ensures r.None? ==> forall j :: 0 <= j < |types| ==> !Text.Contains(t, types[j])
  {
    if |types| == 0 then None
    else if Text.Contains(t, types[0]) then Some(0)
    else match FirstIn(types[1..], t)
      case None => None
      case Some(i) => Some(i + 1)
  }

  /** The type chosen from `types`: the first one occurring in the
      normalised title, else the score type, else "N/A". */
  function TypeAmong(types: seq<string>, scoreType: string, title: string): (r: string)
    ensures (exists i :: 0 <= i < |types| && Text.Contains(Text.Normalize(title), types[i]))
            ==> r in types && Text.Contains(Text.Normalize(title), r)
    ensures (forall i :: 0 <= i < |types| ==> !Text.Contains(Text.Normalize(title), types[i]))
            ==> r == (if scoreType != "" then scoreType else NoType)
  {
    match FirstIn(types, Text.Strip(Text.Lower(title)))
    case Some(i) => types[i]
    case None => if scoreType != "" then scoreType else NoType
  }

  /** `get_workout_type(score_type, title)`. */
  function GetWorkoutType(scoreType: string, title: string): (r: string)
    ensures r in KnownWorkoutTypes || r == scoreType || r == NoType
    ensures r != ""
  {
    TypeAmong(KnownWorkoutTypes, scoreType, title)
  }

  /** The type is the first of `types` found in the normalised title, in
      list order; with none found, the score type, or "N/A" when that is
      empty. */
  lemma TypeAmongCases(types: seq<string>, scoreType: string, title: string, i: int)
    requires 0 <= i < |types|
    ensures Text.Contains(Text.Normalize(title), types[i])
            && (forall j :: 0 <= j < i ==> !Text.Contains(Text.Normalize(title), types[j]))
            ==> TypeAmong(types, scoreType, title) == types[i]
    ensures (forall j :: 0 <= j < |types| ==> !Text.Contains(Text.Normalize(title), types[j]))
            ==> TypeAmong(types, scoreType, title) == (if scoreType != "" then scoreType else NoType)
  {
    var t := Text.Normalize(title);
    var r := FirstIn(types, t);
    assert TypeAmong(types, scoreType, title) == match r case Some(k) => types[k] case None => if scoreType != "" then scoreType else NoType;
    if Text.Contains(t, types[i]) && forall j :: 0 <= j < i ==> !Text.Contains(t, types[j]) {
      assert r.Some?;
      assert !(r.value < i) && !(r.value > i);
    }
  }

  /** `TypeAmongCases` for the four known types. */
  lemma WorkoutTypeCases(scoreType: string, title: string, i: int)
    requires 0 <= i < |KnownWorkoutTypes|
    ensures Text.Contains(Text.Normalize(title), KnownWorkoutTypes[i])
            && (forall j :: 0 <= j < i ==> !Text.Contains(Text.Normalize(title), KnownWorkoutTypes[j]))
            ==> GetWorkoutType(scoreType, title) == KnownWorkoutTypes[i]
    ensures (forall j :: 0 <= j < |KnownWorkoutTypes| ==> !Text.Contains(Text.Normalize(title), KnownWorkoutTypes[j]))
            ==> GetWorkoutType(scoreType, title) == (if scoreType != "" then scoreType else NoType)
  {
    TypeAmongCases(KnownWorkoutTypes, scoreType, title, i);
  }

  /** `track_mapping.get(track_id, "Unknown Track")`: a list or dict id is
      unhashable; any other id that is not a known string key falls back. */
  function TrackName(mapping: map<string, string>, id: JValue): (r: Result<string, Exception>)
    ensures r.Failure? <==> id.JArr? || id.JObj?
    ensures id.JStr? && id.s in mapping ==> r == Success(mapping[id.s])
  {
    match id
    case JStr(s) => Success(if s in mapping then mapping[s] else UnknownTrack)
    case JArr(_) => Failure(TypeError("unhashable type: 'list'"))
    case JObj(_) => Failure(TypeError("unhashable type: 'dict'"))
    case _ => Success(UnknownTrack)
  }

  /** `title.lower()` inside `get_workout_type`: only a string has it. */
  function TitleText(v: JValue): (r: Result<string, Exception>)
    ensures r.Success? <==> v.JStr?
    ensures v.JStr? ==> r.value == v.s
  {
    match v
    case JStr(s) => Success(s)
    case _ => Failure(AttributeError("'" + TypeName(v) + "' object has no attribute 'lower'"))
  }

  /** `workout.get("attributes", {})` on a record that is a dict. */
  function AttributesOf(record: JValue): JValue
    requires record.JObj?
  {
    Lookup(record.fields, "attributes", EmptyObject)
  }

  /** `attributes.get("track", {}).get("id", "unknown")` once both are dicts. */
  function TrackIdOf(attributes: JValue): JValue
    requires attributes.JObj? && Lookup(attributes.fields, "track", EmptyObject).JObj?
  {
    Lookup(Lookup(attributes.fields, "track", EmptyObject).fields, "id", JStr(UnknownTrackId))
  }

  /** A record the loop body maps without raising: it and its attributes
      are dicts, the score type is a string, the track is a dict whose id is
      hashable, the title is a string, and there is an id. */
  predicate Mappable(record: JValue)
  {
    && record.JObj?
    && AttributesOf(record).JObj?
    && Lookup(AttributesOf(record).fields, "score_type", JStr("")).JStr?
    && Lookup(AttributesOf(record).fields, "track", EmptyObject).JObj?
    && !TrackIdOf(AttributesOf(record)).JArr? && !TrackIdOf(AttributesOf(record)).JObj?
    && Lookup(AttributesOf(record).fields, "title", JStr(UnknownTitle)).JStr?
    && "id" in record.fields
  }

  /** One record of an extracted file, mapped to a `Workout` the way the
      loop body of `load_workouts` does it. */
  function FromRecord(record: JValue, mapping: map<string, string>): (r: Result<Workout, Exception>)
    ensures r.Success? ==> record.JObj? && "id" in record.fields && r.value.id == Show(record.fields["id"])
    ensures r.Success? ==> r.value.workoutType == GetWorkoutType(r.value.scoreType, r.value.title)
  {
    var attributes :- Get(record, "attributes", EmptyObject);
    var a :- AsObject(attributes);
    var title := Lookup(a, "title", JStr(UnknownTitle));
    var description := Lookup(a, "description", JStr(""));
    var rawScore :- StripValue(Lookup(a, "score_type", JStr("")));
    var scoreType := Text.Lower(rawScore);
    var trackId :- Get(Lookup(a, "track", EmptyObject), "id", JStr(UnknownTrackId));
    var track :- TrackName(mapping, trackId);
    var createdAt := Lookup(a, "created_at", JStr(""));
    var titleText :- TitleText(title);
    var workoutType := GetWorkoutType(scoreType, titleText);
    var id :- Index(record, "id");
    Success(Workout(Show(id), titleText, Show(description), scoreType, workoutType, track, Show(createdAt)))
  }

  /** A record maps exactly when it is `Mappable`, and then each field is
      read from the attributes with its default: the title as given (else
      "Unknown Workout"), description and creation time rendered (else ""),
      the score type stripped and lower-cased, the track looked up by the
      track's id (else "unknown"). */
  lemma FromRecordFields(record: JValue, mapping: map<string, string>)
    ensures FromRecord(record, mapping).Success? <==> Mappable(record)
    ensures FromRecord(record, mapping).Success? ==>
      var w := FromRecord(record, mapping).value;
      var a := AttributesOf(record).fields;
      && w.title == Lookup(a, "title", JStr(UnknownTitle)).s
      && w.description == Show(Lookup(a, "description", JStr("")))
      && w.createdAt == Show(Lookup(a, "created_at", JStr("")))
      && w.scoreType == Text.Lower(Text.Strip(Lookup(a, "score_type", JStr("")).s))
      && TrackName(mapping, TrackIdOf(AttributesOf(record))) == Success(w.track)
  {
    var r := FromRecord(record, mapping);
    if record.JObj? {
      var attributes := AttributesOf(record);
      assert Get(record, "attributes", EmptyObject) == Success(attributes);
      if attributes.JObj? {
        var a := attributes.fields;
        assert AsObject(attributes) == Success(a);
        var score := Lookup(a, "score_type", JStr(""));
        if score.JStr? {
          assert StripValue(score) == Success(Text.Strip(score.s));
          var track := Lookup(a, "track", EmptyObject);
          if track.JObj? {
            var trackId := TrackIdOf(attributes);
            assert Get(track, "id", JStr(UnknownTrackId)) == Success(trackId);
            var title := Lookup(a, "title", JStr(UnknownTitle));
            if TrackName(mapping, trackId).Success? && title.JStr? {
              assert TitleText(title) == Success(title.s);
              var scoreType := Text.Lower(Text.Strip(score.s));
              var workoutType := GetWorkoutType(scoreType, title.s);
              if "id" in record.fields {
                assert Index(record, "id") == Success(record.fields["id"]);
                assert r == Success(Workout(Show(record.fields["id"]), title.s, Show(Lookup(a, "description", JStr(""))),
                                            scoreType, workoutType, TrackName(mapping, trackId).value,
                                            Show(Lookup(a, "created_at", JStr("")))));
              } else {
                assert Index(record, "id").Failure?;
              }
            }
          } else {
            assert Get(track, "id", JStr(UnknownTrackId)).Failure?;
          }
        } else {
          assert StripValue(score).Failure?;
        }
      } else {
        assert AsObject(attributes).Failure?;
      }
    } else {
      assert Get(record, "attributes", EmptyObject).Failure?;
    }
  }

  /** A record with an id and no attributes gets every default; its type
      is then decided by the default title alone. */
  lemma RecordDefaults(id: string, mapping: map<string, string>)
    requires UnknownTrackId !in mapping
    ensures FromRecord(JObj(map["id" := JStr(id)]), mapping)
            == Success(Workout(id, UnknownTitle, "", "", GetWorkoutType("", UnknownTitle), UnknownTrack, ""))
  {
    var record := JObj(map["id" := JStr(id)]);
    var a: map<string, JValue> := map[];
    assert Get(record, "attributes", EmptyObject) == Success(EmptyObject);
    assert AsObject(EmptyObject) == Success(a);
    assert StripValue(Lookup(a, "score_type", JStr(""))) == Success("");
    assert Text.Lower("") == "";
    assert Get(Lookup(a, "track", EmptyObject), "id", JStr(UnknownTrackId)) == Success(JStr(UnknownTrackId));
    assert TrackName(mapping, JStr(UnknownTrackId)) == Success(UnknownTrack);
    assert TitleText(Lookup(a, "title", JStr(UnknownTitle))) == Success(UnknownTitle);
    assert Lookup(a, "description", JStr("")) == JStr("");
    assert Lookup(a, "created_at", JStr("")) == JStr("");
    assert Index(record, "id") == Success(JStr(id));
  }

  /** A record without an id fails with `KeyError('id')` whenever every
      earlier read of the loop body succeeds, that is, whenever the record
      would map once it had an id. */
  lemma MissingIdRaises(m: map<string, JValue>, mapping: map<string, string>)
    requires "id" !in m && Mappable(JObj(m["id" := JNull]))
    ensures FromRecord(JObj(m), mapping) == Failure(KeyError("id"))
  {
    assert Index(JObj(m), "id") == Failure(KeyError("id"));
  }

  /** `file.endswith(".json") and file.startswith("workouts")`. */
  predicate IsWorkoutFile(name: string)
  {
    Text.EndsWith(name, ".json") && Text.StartsWith(name, "workouts")
  }

  /** A directory entry: its name and its text. */
  datatype File = File(name: string, content: string)

  /** The records one file contributes: none when it is not a workouts
      file, does not decode, or does not hold a list. */
  function FileRecords(f: File, decode: string -> Result<JValue, string>): seq<JValue>
  {
    if !IsWorkoutFile(f.name) then []
    else match decode(f.content)
      case Success(JArr(items)) => items
      case _ => []
  }

  /** The records of one file, each mapped by `toWorkout`, in order; the
      first failure ends it. */
  function MapRecords(records: seq<JValue>, toWorkout: JValue -> Result<Workout, Exception>)
    : (r: Result<seq<Workout>, Exception>)
    ensures r.Success? ==> |r.value| == |records|
    ensures r.Success? ==> forall i :: 0 <= i < |records| ==> toWorkout(records[i]) == Success(r.value[i])
    ensures r.Failure? ==> exists i :: 0 <= i < |records| && toWorkout(records[i]) == Failure(r.error)
    decreases |records|
  {
    if |records| == 0 then Success([])
    else
      var w :- toWorkout(records[0]);
      var rest :- MapRecords(records[1..], toWorkout);
      assert forall i :: 1 <= i < |records| ==> records[1..][i - 1] == records[i];
      Success([w] + rest)
  }

  /** The load over the directory listing `files`, in listing order, with
      the per-record mapping as a parameter. */
  function LoadWith(files: seq<File>, decode: string -> Result<JValue, string>,
                    toWorkout: JValue -> Result<Workout, Exception>): (r: Result<seq<Workout>, Exception>)
    decreases |files|
  {
    if |files| == 0 then Success([])
    else
      var first :- MapRecords(FileRecords(files[0], decode), toWorkout);
      var rest :- LoadWith(files[1..], decode, toWorkout);
      Success(first + rest)
  }

  /** `list(load_workouts(input_dir, track_mapping))`: the first record that
      cannot be mapped ends the load with its exception. */
  function LoadWorkouts(files: seq<File>, decode: string -> Result<JValue, string>, mapping: map<string, string>)
    : (r: Result<seq<Workout>, Exception>)
    ensures r.Success? ==> |r.value| == RecordCount(files, decode)
  {
    var toWorkout := (v: JValue) => FromRecord(v, mapping);
    LoadCount(files, decode, toWorkout);
    LoadWith(files, decode, toWorkout)
  }

  /** The total number of records in the files that are read. */
  function RecordCount(files: seq<File>, decode: string -> Result<JValue, string>): nat
    decreases |files|
  {
    if |files| == 0 then 0 else |FileRecords(files[0], decode)| + RecordCount(files[1..], decode)
  }

  /** A successful load yields one workout per record of the files read. */
  lemma {:induction false} LoadCount(files: seq<File>, decode: string -> Result<JValue, string>,
                                     toWorkout: JValue -> Result<Workout, Exception>)
    ensures LoadWith(files, decode, toWorkout).Success?
            ==> |LoadWith(files, decode, toWorkout).value| == RecordCount(files, decode)
    decreases |files|
  {
    if |files| > 0 {
      LoadCount(files[1..], decode, toWorkout);
    }
  }

  /** Loading two listings one after the other is loading their
      concatenation. */
  lemma {:induction false} LoadAppend(f1: seq<File>, f2: seq<File>, decode: string -> Result<JValue, string>,
                                      toWorkout: JValue -> Result<Workout, Exception>)
    ensures LoadWith(f1 + f2, decode, toWorkout)
            == (var a :- LoadWith(f1, decode, toWorkout); var b :- LoadWith(f2, decode, toWorkout); Success(a + b))
    decreases |f1|
  {
    if |f1| == 0 {
      assert f1 + f2 == f2;
      var r2 := LoadWith(f2, decode, toWorkout);
      if r2.Success? {
        assert [] + r2.value == r2.value;
      }
    } else {
      assert (f1 + f2)[0] == f1[0];
      assert (f1 + f2)[1..] == f1[1..] + f2;
      LoadAppend(f1[1..], f2, decode, toWorkout);
      var first := MapRecords(FileRecords(f1[0], decode), toWorkout);
      if first.Success? {
        var r1 := LoadWith(f1[1..], decode, toWorkout);
        var r2 := LoadWith(f2, decode, toWorkout);
        if r1.Success? && r2.Success? {
          assert first.value + (r1.value + r2.value) == (first.value + r1.value) + r2.value;
        }
      }
    }
  }

  /** The files kept by the name filter, in order. */
  function WorkoutFiles(files: seq<File>): (r: seq<File>)
    ensures forall i :: 0 <= i < |r| ==> IsWorkoutFile(r[i].name)
    ensures |r| <= |files|
  {
    if |files| == 0 then []
    else if IsWorkoutFile(files[0].name) then [files[0]] + WorkoutFiles(files[1..])
    else WorkoutFiles(files[1..])
  }

  /** Files whose names fail the filter are never read: dropping them
      changes nothing. */
  lemma {:induction false} OnlyWorkoutFilesRead(files: seq<File>, decode: string -> Result<JValue, string>,
                                                toWorkout: JValue -> Result<Workout, Exception>)
    ensures LoadWith(WorkoutFiles(files), decode, toWorkout) == LoadWith(files, decode, toWorkout)
    decreases |files|
  {
    if |files| > 0 {
      OnlyWorkoutFilesRead(files[1..], decode, toWorkout);
      if IsWorkoutFile(files[0].name) {
        var w := WorkoutFiles(files);
        assert w[0] == files[0];
        assert w[1..] == WorkoutFiles(files[1..]);
      } else {
        SkippedFile(files[0], files[1..], decode, toWorkout);
        assert [files[0]] + files[1..] == files;
      }
    }
  }

  /** A file that is not a workouts file, or a workouts file that does not
      decode to a list, contributes nothing and raises nothing. */
  lemma SkippedFile(f: File, files: seq<File>, decode: string -> Result<JValue, string>,
                    toWorkout: JValue -> Result<Workout, Exception>)
    requires !IsWorkoutFile(f.name) || decode(f.content).Failure? || !decode(f.content).value.JArr?
    ensures LoadWith([f] + files, decode, toWorkout) == LoadWith(files, decode, toWorkout)
  {
    assert ([f] + files)[0] == f;
    assert ([f] + files)[1..] == files;
    assert FileRecords(f, decode) == [];
    assert MapRecords([], toWorkout) == Success([]);
    var rest := LoadWith(files, decode, toWorkout);
    if rest.Success? {
      assert [] + rest.value == rest.value;
    }
  }
}
