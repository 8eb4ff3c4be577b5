/** The ingest script: the track-name mapping built from the tracks
    endpoint, and the tiling of a date range by seven-day windows, one
    output file per window. Dates are whole day numbers; a window's file is
    labelled with its first day. HTTP responses arrive as a status code and
    a decoded body. */
module Extract {
  import opened Wrappers
  import opened Exceptions
  import opened Json
  import Text
  import Embeddings

  const OkStatus := 200
  const WindowDays := 7

  /** `response.json().get("data", [])` on a 200 response, and an empty
      list for any other status. */
  function Data(status: int, body: JValue): (r: Result<JValue, Exception>)
    ensures status != OkStatus ==> r == Success(EmptyList)
    ensures status == OkStatus && body.JObj? && "data" !in body.fields ==> r == Success(EmptyList)
    ensures status == OkStatus && body.JObj? && "data" in body.fields ==> r == Success(body.fields["data"])
  {
    if status == OkStatus then Get(body, "data", EmptyList) else Success(EmptyList)
  }

  /** A value Python can use as a dict key. */
  predicate Hashable(v: JValue)
  {
    !v.JArr? && !v.JObj?
  }

  /** `track["id"]: track["attributes"]["name"]` for one track: the key is
      read first, then the name, and the key is hashed last. */
  function TrackEntry(track: JValue): (r: Result<(JValue, JValue), Exception>)
    ensures r.Success? <==> track.JObj? && "id" in track.fields && "attributes" in track.fields
                            && Index(track.fields["attributes"], "name").Success? && Hashable(track.fields["id"])
    ensures r.Success? ==> r.value == (track.fields["id"], track.fields["attributes"].fields["name"])
    ensures track.JObj? && "id" !in track.fields ==> r == Failure(KeyError("id"))
  {
    var id :- Index(track, "id");
    var attributes :- Index(track, "attributes");
    var name :- Index(attributes, "name");
    if Hashable(id) then Success((id, name))
    else Failure(TypeError("unhashable type: '" + TypeName(id) + "'"))
  }

  /** The dict built from key/value pairs inserted in order. */
  function ToMap(entries: seq<(JValue, JValue)>): map<JValue, JValue>
    decreases |entries|
  {
    if |entries| == 0 then map[]
    else
      var last := entries[|entries| - 1];
      ToMap(entries[..|entries| - 1])[last.0 := last.1]
  }

  /** The keys of the dict are exactly the inserted keys. */
  lemma {:induction false} ToMapKeys(entries: seq<(JValue, JValue)>, k: JValue)
    ensures k in ToMap(entries) <==> exists i :: 0 <= i < |entries| && entries[i].0 == k
    decreases |entries|
  {
    if |entries| > 0 {
      var init := entries[..|entries| - 1];
      ToMapKeys(init, k);
      if exists i :: 0 <= i < |init| && init[i].0 == k {
        var i :| 0 <= i < |init| && init[i].0 == k;
        assert entries[i] == init[i];
      }
      if exists i :: 0 <= i < |entries| && entries[i].0 == k {
        var i :| 0 <= i < |entries| && entries[i].0 == k;
        if i < |init| {
          assert init[i] == entries[i];
        }
      }
    }
  }

  /** A key inserted at position `i` and never again maps to the value
      inserted with it: for repeated keys the last insertion wins. */
  lemma {:induction false} ToMapLastWins(entries: seq<(JValue, JValue)>, i: int)
    requires 0 <= i < |entries|
    requires forall j :: i < j < |entries| ==> entries[j].0 != entries[i].0
    ensures entries[i].0 in ToMap(entries) && ToMap(entries)[entries[i].0] == entries[i].1
    decreases |entries|
  {
    if i < |entries| - 1 {
      var init := entries[..|entries| - 1];
      assert init[i] == entries[i];
      ToMapLastWins(init, i);
    }
  }

  /** `{track["id"]: track["attributes"]["name"] for track in tracks}`. */
  function TrackMapping(tracks: seq<JValue>): (r: Result<map<JValue, JValue>, Exception>)
    ensures r.Success? <==> forall i :: 0 <= i < |tracks| ==> TrackEntry(tracks[i]).Success?
  {
    var entries :- MapAll(tracks, TrackEntry);
    Success(ToMap(entries))
  }

  /** On success the mapping has one key per track id, and a track whose id
      does not recur later maps its id to its name. */
  lemma TrackMappingContents(tracks: seq<JValue>, i: int)
    requires TrackMapping(tracks).Success?
    requires 0 <= i < |tracks|
    requires forall j :: i < j < |tracks| ==> tracks[j].fields["id"] != tracks[i].fields["id"]
    ensures tracks[i].fields["id"] in TrackMapping(tracks).value
    ensures TrackMapping(tracks).value[tracks[i].fields["id"]] == tracks[i].fields["attributes"].fields["name"]
  {
    var entries := MapAll(tracks, TrackEntry).value;
    forall j | i < j < |entries|
      ensures entries[j].0 != entries[i].0
    {
      assert TrackEntry(tracks[j]) == Success(entries[j]);
    }
    assert TrackEntry(tracks[i]) == Success(entries[i]);
    ToMapLastWins(entries, i);
  }

  /** Every key of the mapping is the id of some track. */
  lemma TrackMappingKeys(tracks: seq<JValue>, k: JValue)
    requires TrackMapping(tracks).Success?
    ensures k in TrackMapping(tracks).value <==> exists i :: 0 <= i < |tracks| && tracks[i].fields["id"] == k
  {
    var entries := MapAll(tracks, TrackEntry).value;
    ToMapKeys(entries, k);
    forall i | 0 <= i < |tracks|
      ensures entries[i].0 == tracks[i].fields["id"]
    {
      assert TrackEntry(tracks[i]) == Success(entries[i]);
    }
  }

  /** `fetch_tracks()`, from the response's status and decoded body: a
      failed request gives the empty mapping. */
  function FetchTracks(status: int, body: JValue): (r: Result<map<JValue, JValue>, Exception>)
    ensures status != OkStatus ==> r == Success(map[])
    ensures status == OkStatus && body.JObj? && "data" in body.fields && body.fields["data"].JArr?
            ==> r == TrackMapping(body.fields["data"].items)
  {
    var data :- Data(status, body);
    var tracks :- Elements(data);
    TrackMapping(tracks)
  }

  /** One fetch window: its first and last day and the file it is saved to. */
  datatype Window = Window(first: int, last: int, fileName: string)

  /** `f"workouts_{day}.json"`, the day written as its number. */
  function FileName(day: int): (r: string)
    ensures Text.StartsWith(r, "workouts_") && Text.EndsWith(r, ".json")
    ensures |r| == |Text.IntToString(day)| + 14 && r[9..|r| - 5] == Text.IntToString(day)
  {
    var r := "workouts_" + Text.IntToString(day) + ".json";
    assert r[..9] == "workouts_";
    assert r[|r| - 5..] == ".json";
    r
  }

  /** The window that starts on `day`: seven days, `day` to `day + 6`. */
  function WindowAt(day: int): (w: Window)
    ensures w.last - w.first + 1 == WindowDays
  {
    Window(day, day + 6, FileName(day))
  }

  /** `ceil((end - start + 1) / 7)` for a non-empty range, else none. */
  function WindowCount(start: int, end: int): nat
  {
    if start <= end then (end - start + WindowDays) / WindowDays else 0
  }

  /** Window `k` starts `7 * k` days after `start`, and none starts after `end`. */
  predicate Tiles(ws: seq<Window>, start: int, end: int)
  {
    forall k :: 0 <= k < |ws| ==> ws[k] == WindowAt(start + WindowDays * k) && ws[k].first <= end
  }

  lemma TilesStep(ws: seq<Window>, start: int, end: int)
    requires Tiles(ws, start, end)
    requires start + WindowDays * |ws| <= end
    ensures Tiles(ws + [WindowAt(start + WindowDays * |ws|)], start, end)
  {
  }

  /** The loop of `main` over the date range: a window per step, the next
      one starting the day after the current one ends, while the start day
      is not past `end`. */
  method Windows(start: int, end: int) returns (ws: seq<Window>)
    ensures |ws| == WindowCount(start, end)
    ensures Tiles(ws, start, end)
    ensures |ws| > 0 ==> ws[|ws| - 1].last >= end
  {
    ws := [];
    var day := start;
    while day <= end
      invariant day == start + WindowDays * |ws|
      invariant start <= end ==> day <= end + WindowDays
      invariant start > end ==> ws == []
      invariant Tiles(ws, start, end)
      decreases end - day
    {
      var w := WindowAt(day);
      TilesStep(ws, start, end);
      ws := ws + [w];
      day := w.last + 1;
    }
    if start <= end {
      CountFromBounds(start, end, |ws|);
    }
  }

  /** The number of steps is fixed by where the last window starts and ends. */
  lemma CountFromBounds(start: int, end: int, n: nat)
    requires start <= end
    requires start + WindowDays * n > end
    requires start + WindowDays * n <= end + WindowDays
    ensures n == WindowCount(start, end)
  {
    var q := (end - start + WindowDays) / WindowDays;
    assert WindowDays * q <= end - start + WindowDays < WindowDays * q + WindowDays;
  }

  /** Every day of the range lies in exactly one of the windows. */
  lemma Covering(start: int, end: int, day: int)
    requires start <= day <= end
    ensures var k := (day - start) / WindowDays;
      && 0 <= k < WindowCount(start, end)
      && WindowAt(start + WindowDays * k).first <= day <= WindowAt(start + WindowDays * k).last
    ensures forall k ::
              0 <= k < WindowCount(start, end) && WindowAt(start + WindowDays * k).first <= day <= WindowAt(start + WindowDays * k).last
              ==> k == (day - start) / WindowDays
  {
    var k := (day - start) / WindowDays;
    assert WindowDays * k <= day - start < WindowDays * k + WindowDays;
    forall k' | 0 <= k' < WindowCount(start, end)
      && WindowAt(start + WindowDays * k').first <= day <= WindowAt(start + WindowDays * k').last
      ensures k' == k
    {
    }
  }

  /** Windows starting on different days are written to different files. */
  lemma FileNamesDistinct(d1: int, d2: int)
    requires d1 != d2
    ensures FileName(d1) != FileName(d2)
  {
    var p := "workouts_";
    var s := ".json";
    if FileName(d1) == FileName(d2) {
      Text.CancelAround(p, Text.IntToString(d1), Text.IntToString(d2), s);
      Text.IntToStringInjective(d1, d2);
    }
  }

  /** Every file the ingest writes passes the embedding loader's name filter. */
  lemma WrittenFilesAreRead(day: int)
    ensures Embeddings.IsWorkoutFile(FileName(day))
  {
    var n := FileName(day);
    assert n[..|"workouts"|] == "workouts";
    assert n[|n| - |".json"|..] == ".json";
  }
}
