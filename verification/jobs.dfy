/**
 * The job-status store of app.py (`_progress` and `_results`, keyed by task
 * id) seen as the replay of a log of writes, and the exact sequence of
 * writes each processing pipeline makes, with its effect on the processed
 * directory. Everything outside the process (the download, the upload save,
 * ffmpeg, `os.remove`, the clock) is an oracle in `Env`.
 */
module Jobs {
  import opened Wrappers
  import opened Files
  import opened Retention

  /** One `_progress` entry: `{"progress": ..., "status": ...}`. */
  datatype Status = Status(progress: int, status: string)

  /** One write to the store: a `_progress[id] = ...` or a `_results[id] = ...`. */
  datatype Event = SetProgress(id: string, st: Status) | SetResult(id: string, filename: string)

  datatype JobState = JobState(progress: map<string, Status>, results: map<string, string>)

  /** What the `progress` route returns: progress, status and filename (`None` for null). */
  datatype PollResult = PollResult(progress: int, status: string, filename: Option<string>)

  const EMPTY := JobState(map[], map[])
  const STARTING := Status(0, "Starting...")
  const COMPLETE := Status(100, "Complete!")
  const NOT_FOUND := PollResult(0, "Not found", None)

  function Apply(s: JobState, e: Event): JobState {
    match e
    case SetProgress(id, st) => s.(progress := s.progress[id := st])
    case SetResult(id, filename) => s.(results := s.results[id := filename])
  }

  /** The store after the writes of `log`, in order, starting from `s`. */
  function Replay(s: JobState, log: seq<Event>): JobState {
    if log == [] then s else Apply(Replay(s, log[..|log| - 1]), log[|log| - 1])
  }

  /**
   * The `progress` route: `_progress.get(id, {0, "Not found"})` together
   * with `_results.get(id)`.
   */
  function Poll(s: JobState, id: string): (r: PollResult)
    ensures id !in s.progress && id !in s.results ==> r == NOT_FOUND
    ensures id !in s.progress ==> r.progress == 0 && r.status == "Not found"
    ensures id in s.progress ==> r.progress == s.progress[id].progress && r.status == s.progress[id].status
    ensures r.filename.Some? <==> id in s.results
    ensures id in s.results ==> r.filename == Some(s.results[id])
  {
    var st := if id in s.progress then s.progress[id] else Status(0, "Not found");
    PollResult(st.progress, st.status, if id in s.results then Some(s.results[id]) else None)
  }

  lemma {:induction false} ReplayAppend(s: JobState, a: seq<Event>, b: seq<Event>)
    ensures Replay(s, a + b) == Replay(Replay(s, a), b)
  {
    if b == [] {
      assert a + b == a;
    } else {
      ReplayAppend(s, a, b[..|b| - 1]);
      assert (a + b)[..|a + b| - 1] == a + b[..|b| - 1];
    }
  }

  /** Writes for other tasks never change what a poll of `id` returns. */
  lemma {:induction false} ReplayOtherTasks(s: JobState, log: seq<Event>, id: string)
    requires forall e :: e in log ==> e.id != id
    ensures Poll(Replay(s, log), id) == Poll(s, id)
  {
    if log != [] {
      var init := log[..|log| - 1];
      assert forall e :: e in init ==> e in log;
      ReplayOtherTasks(s, init, id);
      assert log[|log| - 1] in log;
    }
  }

  /** A poll for an id that no write ever named answers "Not found". */
  lemma NeverSubmittedIsNotFound(log: seq<Event>, id: string)
    requires forall e :: e in log ==> e.id != id
    ensures Poll(Replay(EMPTY, log), id) == NOT_FOUND
  {
    ReplayOtherTasks(EMPTY, log, id);
  }

  /** The two processing functions: `_real_video_process` and `_real_video_process_upload`. */
  datatype Pipeline = FromUrl | FromUpload

  /** An external step (download, upload save, ffmpeg, `os.remove`) either returns or raises. */
  datatype StepOutcome = Ok | Raises(message: string)

  /**
   * The oracles one pipeline run consults: how the acquisition (download or
   * upload save), the ffmpeg run and the removal of the temporary input end;
   * the creation times the file system gives the temporary input and the
   * output; and how the retention cleanup's listing and removals end.
   */
  datatype Env = Env(
    acquire: StepOutcome, encode: StepOutcome, removeTemp: StepOutcome,
    tempCtime: int, outputCtime: int,
    scanFails: bool, removeFails: set<string>)

  predicate Succeeds(env: Env) {
    env.acquire.Ok? && env.encode.Ok? && env.removeTemp.Ok?
  }

  /** `str(e)` of the exception that ended a failed run: the first step that raised. */
  function ErrorText(env: Env): string
    requires !Succeeds(env)
  {
    if env.acquire.Raises? then env.acquire.message
    else if env.encode.Raises? then env.encode.message
    else env.removeTemp.message
  }

  /** The last `_progress` write of a run: "Complete!" or the catch-all error entry. */
  function FinalStatus(env: Env): Status {
    if Succeeds(env) then COMPLETE else Status(0, "Error: " + ErrorText(env))
  }

  function TempName(p: Pipeline, id: string): string {
    if p == FromUrl then "temp_" + id + ".mp4" else "temp_upload_" + id + ".mp4"
  }

  function OutputName(id: string): string {
    id + "_watermarked.mp4"
  }

  /** The writes before the input is acquired. */
  function Opening(p: Pipeline, id: string): seq<Event> {
    if p == FromUrl then
      [SetProgress(id, Status(0, "Starting download...")), SetProgress(id, Status(10, "Downloading video..."))]
    else
      [SetProgress(id, Status(0, "Processing uploaded video..."))]
  }

  /** The writes between acquisition and the ffmpeg run. */
  function Working(p: Pipeline, id: string): seq<Event> {
    [SetProgress(id, Status(30, "Processing video...")),
     SetProgress(id, Status(if p == FromUrl then 50 else 60, "Adding watermark..."))]
  }

  /** The writes after the temporary input is removed. */
  function Closing(id: string): seq<Event> {
    [SetProgress(id, Status(80, "Finalizing...")), SetProgress(id, COMPLETE), SetResult(id, OutputName(id))]
  }

  /** The writes after "Adding watermark...": the error entry, or the closing writes. */
  function Ending(id: string, env: Env): seq<Event> {
    if Succeeds(env) then Closing(id) else [SetProgress(id, FinalStatus(env))]
  }

  /** The writes after the opening ones: the error entry if acquisition raised, else the rest of the run. */
  function Acquisition(p: Pipeline, id: string, env: Env): seq<Event> {
    if env.acquire.Raises? then [SetProgress(id, FinalStatus(env))] else Working(p, id) + Ending(id, env)
  }

  /** Every write one run of pipeline `p` for task `id` makes, in order. */
  function Trace(p: Pipeline, id: string, env: Env): (r: seq<Event>)
    ensures r != [] && r[0].SetProgress? && r[0].st.progress == 0
    ensures r[|r| - 1] == if Succeeds(env) then SetResult(id, OutputName(id)) else SetProgress(id, FinalStatus(env))
  {
    Opening(p, id) + Acquisition(p, id, env)
  }

  /** The progress values of a successful run of each pipeline. */
  function Checkpoints(p: Pipeline): seq<int> {
    if p == FromUrl then [0, 10, 30, 50, 80, 100] else [0, 30, 60, 80, 100]
  }

  /** The progress values a log writes, in order. */
  function ProgressValues(log: seq<Event>): seq<int> {
    if log == [] then []
    else
      ProgressValues(log[..|log| - 1])
      + (if log[|log| - 1].SetProgress? then [log[|log| - 1].st.progress] else [])
  }

  predicate NonDecreasing(xs: seq<int>) {
    forall i, j :: 0 <= i < j < |xs| ==> xs[i] <= xs[j]
  }

  lemma {:induction false} ProgressValuesAppend(a: seq<Event>, b: seq<Event>)
    ensures ProgressValues(a + b) == ProgressValues(a) + ProgressValues(b)
  {
    if b == [] {
      assert a + b == a;
    } else {
      ProgressValuesAppend(a, b[..|b| - 1]);
      assert (a + b)[..|a + b| - 1] == a + b[..|b| - 1];
    }
  }

  lemma ProgressValuesOne(e: Event)
    ensures ProgressValues([e]) == if e.SetProgress? then [e.st.progress] else []
  {
    assert [e][..0] == [];
  }

  lemma ProgressValuesTwo(e: Event, f: Event)
    requires e.SetProgress? && f.SetProgress?
    ensures ProgressValues([e, f]) == [e.st.progress, f.st.progress]
  {
    ProgressValuesOne(e);
    ProgressValuesOne(f);
    ProgressValuesAppend([e], [f]);
    assert [e] + [f] == [e, f];
  }

  lemma ProgressValuesClosing(id: string)
    ensures ProgressValues(Closing(id)) == [80, 100]
  {
    var c := Closing(id);
    ProgressValuesTwo(c[0], c[1]);
    ProgressValuesOne(c[2]);
    ProgressValuesAppend([c[0], c[1]], [c[2]]);
    assert [c[0], c[1]] + [c[2]] == c;
  }

  lemma ProgressValuesOpening(p: Pipeline, id: string)
    ensures ProgressValues(Opening(p, id)) == Checkpoints(p)[..|Opening(p, id)|]
  {
    var o := Opening(p, id);
    if p == FromUrl {
      ProgressValuesTwo(o[0], o[1]);
    } else {
      ProgressValuesOne(o[0]);
    }
  }

  /** A run writes only its own task's entries. */
  lemma TraceNamesOnlyItsTask(p: Pipeline, id: string, env: Env)
    ensures forall e :: e in Trace(p, id, env) ==> e.id == id
  {
  }

  /** A successful run writes exactly the pipeline's progress checkpoints, in order. */
  lemma SuccessfulRun(p: Pipeline, id: string, env: Env)
    requires Succeeds(env)
    ensures ProgressValues(Trace(p, id, env)) == Checkpoints(p)
  {
    var o, w, c := Opening(p, id), Working(p, id), Closing(id);
    ProgressValuesOpening(p, id);
    ProgressValuesTwo(w[0], w[1]);
    ProgressValuesClosing(id);
    ProgressValuesAppend(w, c);
    ProgressValuesAppend(o, w + c);
    var x := if p == FromUrl then 50 else 60;
    assert ProgressValues(w + c) == [30, x, 80, 100];
    if p == FromUrl {
      assert [0, 10] + [30, x, 80, 100] == Checkpoints(p);
    } else {
      assert [0] + [30, x, 80, 100] == Checkpoints(p);
    }
  }

  /** The checkpoints never decrease and end at 100. */
  lemma CheckpointsRise(p: Pipeline)
    ensures NonDecreasing(Checkpoints(p))
    ensures Checkpoints(p)[|Checkpoints(p)| - 1] == 100
  {
  }

  /** A successful run ends with "Complete!" at 100, followed by the result name. */
  lemma SuccessfulRunEnds(p: Pipeline, id: string, env: Env)
    requires Succeeds(env)
    ensures var t := Trace(p, id, env);
      |t| >= 2 && t[|t| - 2..] == [SetProgress(id, COMPLETE), SetResult(id, OutputName(id))]
  {
    var t, c := Trace(p, id, env), Closing(id);
    assert t[|t| - 3..] == c;
  }

  /**
   * A failed run ends with progress 0 and a status starting "Error: ", never
   * writes a result, and before the error writes a strict prefix of the
   * pipeline's checkpoints.
   */
  lemma FailedRun(p: Pipeline, id: string, env: Env)
    requires !Succeeds(env)
    ensures var t := Trace(p, id, env);
      && t[|t| - 1] == SetProgress(id, Status(0, "Error: " + ErrorText(env)))
      && (forall e :: e in t ==> e.SetProgress?)
      && var before := ProgressValues(t[..|t| - 1]);
         |before| < |Checkpoints(p)| && before == Checkpoints(p)[..|before|]
  {
    var t := Trace(p, id, env);
    var o, w := Opening(p, id), Working(p, id);
    ProgressValuesOpening(p, id);
    if env.acquire.Raises? {
      assert t[..|t| - 1] == o;
    } else {
      assert t[..|t| - 1] == o + w;
      ProgressValuesTwo(w[0], w[1]);
      ProgressValuesAppend(o, w);
    }
  }

  /** A result is only ever written right after progress 100 / "Complete!". */
  lemma ResultOnlyAfterComplete(p: Pipeline, id: string, env: Env)
    ensures var t := Trace(p, id, env);
      forall i :: 0 <= i < |t| && t[i].SetResult? ==> 0 < i && t[i - 1] == SetProgress(id, COMPLETE)
  {
  }

  /**
   * Replaying a run changes only the task's own entries: its status becomes
   * the final one, and it gains a result exactly when the run succeeds.
   */
  lemma ReplayRun(s: JobState, p: Pipeline, id: string, env: Env)
    ensures Replay(s, Trace(p, id, env)) == JobState(
      s.progress[id := FinalStatus(env)],
      if Succeeds(env) then s.results[id := OutputName(id)] else s.results)
  {
    if env.acquire.Raises? {
      ReplayUnacquired(s, p, id, env);
    } else {
      ReplayAcquired(s, p, id, env);
    }
  }

  lemma ReplayUnacquired(s: JobState, p: Pipeline, id: string, env: Env)
    requires env.acquire.Raises?
    ensures Replay(s, Trace(p, id, env)) == s.(progress := s.progress[id := FinalStatus(env)])
  {
    var o, fail := Opening(p, id), [SetProgress(id, FinalStatus(env))];
    ReplayAppend(s, o, fail);
    ReplayProgressWrites(s, o, id);
    ReplayProgressWrites(Replay(s, o), fail, id);
  }

  lemma ReplayAcquired(s: JobState, p: Pipeline, id: string, env: Env)
    requires env.acquire.Ok?
    ensures Replay(s, Trace(p, id, env)) == JobState(
      s.progress[id := FinalStatus(env)],
      if Succeeds(env) then s.results[id := OutputName(id)] else s.results)
  {
    var o, w, e := Opening(p, id), Working(p, id), Ending(id, env);
    ReplayAppend(s, o, w + e);
    var s1 := Replay(s, o);
    ReplayProgressWrites(s, o, id);
    ReplayAppend(s1, w, e);
    var s2 := Replay(s1, w);
    ReplayProgressWrites(s1, w, id);
    ReplayEnding(s2, id, env);
    Overwrite(s.progress, id, o[|o| - 1].st, w[1].st);
    Overwrite(s.progress, id, w[1].st, FinalStatus(env));
  }

  /** A second write to the same key hides the first. */
  lemma Overwrite<K, V>(m: map<K, V>, k: K, a: V, b: V)
    ensures m[k := a][k := b] == m[k := b]
  {
  }

  lemma ReplayEnding(s: JobState, id: string, env: Env)
    ensures Replay(s, Ending(id, env)) == JobState(
      s.progress[id := FinalStatus(env)],
      if Succeeds(env) then s.results[id := OutputName(id)] else s.results)
  {
    if Succeeds(env) {
      var c := Closing(id);
      assert c == [c[0], c[1]] + [c[2]];
      ReplaySnoc(s, [c[0], c[1]], c[2]);
      ReplayProgressWrites(s, [c[0], c[1]], id);
    } else {
      ReplayProgressWrites(s, Ending(id, env), id);
    }
  }

  /** Replaying one more write applies it to the store the log leaves. */
  lemma ReplaySnoc(s: JobState, log: seq<Event>, e: Event)
    ensures Replay(s, log + [e]) == Apply(Replay(s, log), e)
  {
    assert (log + [e])[..|log|] == log;
  }

  /** A non-empty log of progress writes for one task leaves that task at its last status. */
  lemma {:induction false} ReplayProgressWrites(s: JobState, log: seq<Event>, id: string)
    requires log != []
    requires forall i :: 0 <= i < |log| ==> log[i].SetProgress? && log[i].id == id
    ensures Replay(s, log) == s.(progress := s.progress[id := log[|log| - 1].st])
  {
    var init, last := log[..|log| - 1], log[|log| - 1];
    assert log == init + [last];
    ReplaySnoc(s, init, last);
    if init == [] {
      assert Replay(s, init) == s;
    } else {
      ReplayProgressWrites(s, init, id);
      Overwrite(s.progress, id, init[|init| - 1].st, last.st);
    }
  }

  /**
   * The processed directory after one run: the temporary input is written
   * once acquisition succeeds, the output once ffmpeg succeeds, the temporary
   * input is removed, and the retention cleanup runs last. A run that raises
   * stops where it raised, so a failed ffmpeg run leaves its temporary input
   * behind.
   */
  function PipelineFiles(p: Pipeline, files: seq<FileEntry>, id: string, env: Env): (r: seq<FileEntry>)
    ensures env.acquire.Raises? ==> r == files
    ensures forall e :: e in r ==> e in files || e.name == TempName(p, id) || e.name == OutputName(id)
    ensures Succeeds(env) ==> forall e :: e in r ==> e.name != TempName(p, id)
    ensures forall e :: e in files && e !in r ==> IsVideo(e.name)
  {
    NamesAreVideos(p, id);
    if env.acquire.Raises? then files
    else FilesAfterAcquire(p, Put(files, FileEntry(TempName(p, id), env.tempCtime)), id, env)
  }

  /** The processed directory from the ffmpeg run on, given the directory holding the temporary input. */
  function FilesAfterAcquire(p: Pipeline, withTemp: seq<FileEntry>, id: string, env: Env): (r: seq<FileEntry>)
    ensures forall e :: e in r ==> e in withTemp || e.name == OutputName(id)
    ensures Succeeds(env) ==> forall e :: e in r ==> e.name != TempName(p, id)
    ensures forall e :: e in withTemp && e !in r ==> IsVideo(e.name)
  {
    NamesAreVideos(p, id);
    if env.encode.Raises? then withTemp
    else
      var withOutput := Put(withTemp, FileEntry(OutputName(id), env.outputCtime));
      if env.removeTemp.Raises? then withOutput
      else
        var listing := RemoveNames(withOutput, {TempName(p, id)});
        CleanupDeletesOnlyVideos(listing, env.scanFails, env.removeFails);
        AfterCleanup(listing, env.scanFails, env.removeFails)
  }

  /** Temporary inputs and outputs all end in ".mp4": each is a retention candidate. */
  lemma NamesAreVideos(p: Pipeline, id: string)
    ensures IsVideo(TempName(p, id)) && IsVideo(OutputName(id))
  {
    var t, o := TempName(p, id), OutputName(id);
    assert t[|t| - 4..] == ".mp4";
    assert o[|o| - 4..] == ".mp4";
  }

  /**
   * When ffmpeg fails, the run's temporary input stays in the processed
   * directory, where a later cleanup treats it as a video like any other.
   */
  lemma FailedEncodeLeavesTempInput(p: Pipeline, files: seq<FileEntry>, id: string, env: Env)
    requires env.acquire.Ok? && env.encode.Raises?
    ensures FileEntry(TempName(p, id), env.tempCtime) in Videos(PipelineFiles(p, files, id, env))
  {
    NamesAreVideos(p, id);
  }

  /**
   * A successful run whose output is newer than every file already present
   * keeps that output through its own cleanup, so the result it records can
   * be downloaded.
   */
  lemma NewestOutputSurvives(p: Pipeline, files: seq<FileEntry>, id: string, env: Env)
    requires Succeeds(env) && DistinctNames(files)
    requires forall e :: e in files ==> e.ctime < env.outputCtime
    ensures FileEntry(OutputName(id), env.outputCtime) in PipelineFiles(p, files, id, env)
  {
    var temp := TempName(p, id);
    var out := FileEntry(OutputName(id), env.outputCtime);
    var withTemp := Put(files, FileEntry(temp, env.tempCtime));
    var withOutput := Put(withTemp, out);
    var listing := RemoveNames(withOutput, {temp});
    NamesAreVideos(p, id);
    TempIsNotOutput(p, id);
    assert out in listing;
    forall e | e in listing && e != out
      ensures e.ctime < out.ctime
    {
      assert e in withOutput && e.name != temp;
      assert e in files;
    }
    PutKeepsDistinct(files, FileEntry(temp, env.tempCtime));
    PutKeepsDistinct(withTemp, out);
    RemoveNamesKeepsDistinct(withOutput, {temp});
    UniqueNewestIsKept(listing, out);
    if !env.scanFails {
      CleanupRemovesExactlySelected(listing, env.removeFails);
      SelectedAndKeptDisjoint(listing);
    }
  }

  /**
   * A successful run whose cleanup can list the directory and remove every
   * file it selects leaves at most three `.mp4` files behind.
   */
  lemma RunKeepsAtMostThreeVideos(p: Pipeline, files: seq<FileEntry>, id: string, env: Env)
    requires Succeeds(env) && !env.scanFails && env.removeFails == {} && DistinctNames(files)
    ensures |Videos(PipelineFiles(p, files, id, env))| <= KEEP
  {
    var temp := TempName(p, id);
    var withTemp := Put(files, FileEntry(temp, env.tempCtime));
    var withOutput := Put(withTemp, FileEntry(OutputName(id), env.outputCtime));
    var listing := RemoveNames(withOutput, {temp});
    PutKeepsDistinct(files, FileEntry(temp, env.tempCtime));
    PutKeepsDistinct(withTemp, FileEntry(OutputName(id), env.outputCtime));
    RemoveNamesKeepsDistinct(withOutput, {temp});
    CleanupLeavesAtMostThree(listing);
  }

  /** A run's temporary input and its output never share a name: the output has one more 'w'. */
  lemma TempIsNotOutput(p: Pipeline, id: string)
    ensures TempName(p, id) != OutputName(id)
  {
    var tail := "_watermarked.mp4";
    assert tail[1] == 'w';
    if p == FromUrl {
      NotEqualByW("temp_", id, ".mp4", tail);
    } else {
      NotEqualByW("temp_upload_", id, ".mp4", tail);
    }
  }

  lemma NotEqualByW(prefix: string, id: string, suffix: string, tail: string)
    requires 'w' !in prefix && 'w' !in suffix && 'w' in tail
    ensures prefix + id + suffix != id + tail
  {
    WCountAround(prefix, id, suffix);
    WCountAfter(id, tail);
  }

  lemma WCountAround(prefix: string, id: string, suffix: string)
    requires 'w' !in prefix && 'w' !in suffix
    ensures multiset(prefix + id + suffix)['w'] == multiset(id)['w']
  {
    assert multiset(prefix + id + suffix) == multiset(prefix) + multiset(id) + multiset(suffix);
  }

  lemma WCountAfter(id: string, tail: string)
    requires 'w' in tail
    ensures multiset(id + tail)['w'] > multiset(id)['w']
  {
    assert multiset(id + tail) == multiset(id) + multiset(tail);
  }

  /** A video strictly newer than every other entry is among the kept ones. */
  lemma UniqueNewestIsKept(listing: seq<FileEntry>, x: FileEntry)
    requires x in listing && IsVideo(x.name)
    requires forall e :: e in listing && e != x ==> e.ctime < x.ctime
    ensures x in Kept(listing)
  {
    var v := ByAge(listing);
    ByAgeIsVideos(listing);
    SortIsSorted(Videos(listing));
    var i :| 0 <= i < |v| && v[i] == x;
    var last := v[|v| - 1];
    assert last in v;
    assert last == x;
    if |v| > KEEP {
      assert v[|v| - KEEP..][KEEP - 1] == last;
    }
  }
}
