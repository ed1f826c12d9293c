/**
 * The request-facing part of app.py: validation of the `/process` form, the
 * in-memory job store (`_progress`, `_results`) as an object whose methods
 * write it, the `/progress` poll, and the two processing pipelines run
 * against that store and the processed directory.
 */
module WatermarkApp {
  import opened Wrappers
  import opened BrandRegistry
  import opened Files
  import opened Retention
  import opened Jobs

  /** An uploaded file as the form delivers it; it counts as present only when it has a file name. */
  datatype Upload = Upload(filename: string)

  predicate HasFile(f: Option<Upload>) {
    f.Some? && f.value.filename != ""
  }

  /** The characters Python's `str.isspace` (and so `str.strip`) treats as whitespace. */
  predicate IsSpace(c: char) {
    || '\t' <= c <= '\r'
    || '\U{1c}' <= c <= ' '
    || c == '\U{85}' || c == '\U{a0}' || c == '\U{1680}'
    || '\U{2000}' <= c <= '\U{200a}'
    || c == '\U{2028}' || c == '\U{2029}' || c == '\U{202f}' || c == '\U{205f}' || c == '\U{3000}'
  }

  predicate Blank(s: string) {
    forall i :: 0 <= i < |s| ==> IsSpace(s[i])
  }

  /** `s` without its leading whitespace: a suffix of `s` that starts with a non-space. */
  function TrimLeft(s: string): (r: string)
    ensures |r| <= |s| && r == s[|s| - |r|..]
    ensures Blank(s[..|s| - |r|])
    ensures r != [] ==> !IsSpace(r[0])
  {
    if s != [] && IsSpace(s[0]) then TrimLeft(s[1..]) else s
  }

  /** `s` without its trailing whitespace: a prefix of `s` that ends with a non-space. */
  function TrimRight(s: string): (r: string)
    ensures |r| <= |s| && r == s[..|r|]
    ensures Blank(s[|r|..])
    ensures r != [] ==> !IsSpace(r[|r| - 1])
  {
    if s != [] && IsSpace(s[|s| - 1]) then TrimRight(s[..|s| - 1]) else s
  }

  /** `r` is the piece of `s` starting at `i`, with only whitespace before and after it. */
  predicate PieceAt(s: string, r: string, i: int) {
    0 <= i <= |s| - |r| && r == s[i..i + |r|] && Blank(s[..i]) && Blank(s[i + |r|..])
  }

  /**
   * Python's `str.strip()` with no argument: the piece of `s` left once a
   * blank prefix and a blank suffix are cut off.
   */
  function Strip(s: string): (r: string)
    ensures exists i :: PieceAt(s, r, i)
    ensures r != [] ==> !IsSpace(r[0]) && !IsSpace(r[|r| - 1])
  {
    var r := TrimRight(TrimLeft(s));
    TrimBoth(s, r);
    r
  }

  lemma TrimBoth(s: string, r: string)
    requires r == TrimRight(TrimLeft(s))
    ensures exists i :: PieceAt(s, r, i)
    ensures r != [] ==> !IsSpace(r[0]) && !IsSpace(r[|r| - 1])
  {
    TrimBothPiece(s);
    TrimBothEnds(s);
  }

  /** Trimming both sides leaves a piece of `s` with a blank prefix and a blank suffix around it. */
  lemma TrimBothPiece(s: string)
    ensures exists i :: PieceAt(s, TrimRight(TrimLeft(s)), i)
  {
    var l := TrimLeft(s);
    var r := TrimRight(l);
    var i := |s| - |l|;
    assert PieceAt(s, r, i) by {
      SliceOfSuffix(s, i, |r|);
    }
  }

  /** Trimming both sides stops at a non-space on each side. */
  lemma TrimBothEnds(s: string)
    ensures var r := TrimRight(TrimLeft(s));
      r != [] ==> !IsSpace(r[0]) && !IsSpace(r[|r| - 1])
  {
    var l := TrimLeft(s);
    var r := TrimRight(l);
    if r != [] {
      assert r[0] == l[0];
    }
  }

  lemma SliceOfSuffix<T>(s: seq<T>, i: nat, k: nat)
    requires i + k <= |s|
    ensures s[i..][..k] == s[i..i + k]
    ensures s[i..][k..] == s[i + k..]
  {
  }

  /** A non-empty stripped string starts and ends with a non-space. */
  lemma StripEnds(s: string)
    ensures var r := Strip(s);
      r != [] ==> !IsSpace(r[0]) && !IsSpace(r[|r| - 1])
  {
    var l := TrimLeft(s);
    var r := TrimRight(l);
    if r != [] {
      assert r[0] == l[0];
    }
  }

  /** Stripping gives the empty string exactly when the input is all whitespace. */
  lemma StripEmptyIffBlank(s: string)
    ensures Strip(s) == [] <==> Blank(s)
  {
    var l := TrimLeft(s);
    var r := TrimRight(l);
    var i := |s| - |l|;
    if r == [] {
      assert l == [];
      assert s[..i] == s;
    } else {
      assert r[0] == l[0] == s[i];
    }
  }

  /** `str.strip` is idempotent: a stripped value strips to itself. */
  lemma {:induction false} StripIdempotent(s: string)
    ensures Strip(Strip(s)) == Strip(s)
  {
    var r := Strip(s);
    StripEnds(s);
    if r != [] {
      assert TrimLeft(r) == r;
      assert TrimRight(r) == r;
    }
  }

  /** What a valid request asks to process. */
  datatype Source = UrlSource(url: string) | UploadSource(file: Upload)

  /** The outcome of checking the `/process` form: a flashed error message, or the job to start. */
  datatype Validation = Rejected(message: string) | Accepted(source: Source, brand: string)

  const NO_INPUT := "Please upload a video file or enter a video URL."
  const BAD_BRAND := "Please select a valid brand."

  /**
   * The checks of `process_video`: a file or a non-blank URL must be given
   * (checked first), the brand must be registered, and an upload takes
   * priority over a URL. `url` and `brand` are the form fields, "" when
   * absent.
   */
  function Validate(videoFile: Option<Upload>, url: string, brand: string): (v: Validation)
    ensures v == Rejected(NO_INPUT) <==> !HasFile(videoFile) && Blank(url)
    ensures v == Rejected(BAD_BRAND) <==> (HasFile(videoFile) || !Blank(url)) && brand !in BRANDS
    ensures v.Accepted? <==> (HasFile(videoFile) || !Blank(url)) && brand in BRANDS
    ensures v.Accepted? ==> v.brand == brand
    ensures v.Accepted? && HasFile(videoFile) ==> v.source == UploadSource(videoFile.value)
    ensures v.Accepted? && !HasFile(videoFile) ==> v.source == UrlSource(Strip(url))
  {
    StripEmptyIffBlank(url);
    var u := Strip(url);
    if !HasFile(videoFile) && u == "" then Rejected(NO_INPUT)
    else if brand !in BRANDS then Rejected(BAD_BRAND)
    else if HasFile(videoFile) then Accepted(UploadSource(videoFile.value), brand)
    else Accepted(UrlSource(u), brand)
  }

  /** A URL that is not blank strips to a non-empty URL with no whitespace at either end. */
  lemma StrippedUrl(url: string)
    requires !Blank(url)
    ensures var u := Strip(url);
      u != [] && !IsSpace(u[0]) && !IsSpace(u[|u| - 1]) && Strip(u) == u
  {
    StripEmptyIffBlank(url);
    StripEnds(url);
    StripIdempotent(url);
  }

  /** What the `/process` route answers: a redirect with a flashed message, or the processing page. */
  datatype Response = Redirect(message: string) | Processing(taskId: string)

  /**
   * The module-level state of app.py: the two job dictionaries and the
   * processed directory. The ghost `history` is every store write so far,
   * in order.
   */
  class App {
    var progress: map<string, Status>
    var results: map<string, string>
    ghost var history: seq<Event>
    const processed: Directory

    /**
     * The dictionaries are the replay of the write log, and a task has a
     * result only when its progress entry says "Complete!" at 100 and the
     * result is its own output file.
     */
    ghost predicate Consistent()
      reads this
    {
      && JobState(progress, results) == Replay(EMPTY, history)
      && forall id :: id in results ==> id in progress && progress[id] == COMPLETE && results[id] == OutputName(id)
    }

    ghost predicate Valid()
      reads this, processed
    {
      Consistent() && processed.Valid()
    }

    constructor (dir: Directory)
      requires dir.Valid()
      ensures Valid() && fresh(this)
      ensures progress == map[] && results == map[] && history == [] && processed == dir
    {
      progress, results, history := map[], map[], [];
      processed := dir;
    }

    /**
     * The `/progress/<task_id>` route. A filename is reported only for a
     * finished task, only together with "Complete!" at 100, and it is the
     * task's own output; an id never written answers "Not found".
     */
    function Poll(id: string): (r: PollResult)
      reads this
      requires Consistent()
      ensures r == Jobs.Poll(Replay(EMPTY, history), id)
      ensures r.filename.Some? ==> r.progress == 100 && r.status == "Complete!" && r.filename.value == OutputName(id)
      ensures id !in progress ==> r == NOT_FOUND
    {
      Jobs.Poll(JobState(progress, results), id)
    }

    /** `_progress[id] = {...}` for a task without a result. */
    method WriteProgress(id: string, st: Status)
      requires Consistent() && id !in results
      modifies this
      ensures Consistent()
      ensures progress == old(progress)[id := st] && results == old(results)
      ensures history == old(history) + [SetProgress(id, st)]
    {
      var e := SetProgress(id, st);
      assert (history + [e])[..|history|] == history;
      progress := progress[id := st];
      history := history + [e];
    }

    /** `_results[id] = output_filename`, right after the task reached "Complete!". */
    method WriteResult(id: string)
      requires Consistent() && id in progress && progress[id] == COMPLETE
      modifies this
      ensures Consistent()
      ensures results == old(results)[id := OutputName(id)] && progress == old(progress)
      ensures history == old(history) + [SetResult(id, OutputName(id))]
    {
      var e := SetResult(id, OutputName(id));
      assert (history + [e])[..|history|] == history;
      results := results[id := OutputName(id)];
      history := history + [e];
    }

    /**
     * The `/process` route. A rejected form changes nothing; an accepted one
     * registers the fresh task id at "Starting..." and hands back the job
     * the worker thread is started with. `freshId` stands for `uuid4()`.
     */
    method ProcessVideo(videoFile: Option<Upload>, url: string, brand: string, freshId: string)
      returns (response: Response, job: Validation)
      requires Valid() && freshId !in progress
      modifies this
      ensures Valid()
      ensures job == Validate(videoFile, url, brand)
      ensures job.Rejected? ==> response == Redirect(job.message) && unchanged(this)
      ensures job.Accepted? ==>
        && response == Processing(freshId)
        && progress == old(progress)[freshId := STARTING] && results == old(results)
        && history == old(history) + [SetProgress(freshId, STARTING)]
    {
      job := Validate(videoFile, url, brand);
      if job.Rejected? {
        response := Redirect(job.message);
        return;
      }
      WriteProgress(freshId, STARTING);
      response := Processing(freshId);
    }

    /**
     * `_real_video_process`: download into the temporary input, watermark
     * it with ffmpeg into the task's output, remove the input, clean up old
     * videos, and record the result; any raised step ends the run with an
     * error entry. The store receives exactly the run's trace of writes.
     */
    method RealVideoProcess(id: string, url: string, brand: string, env: Env)
      returns (watermark: Option<string>)
      requires Valid() && id !in results && brand in BRANDS
      modifies this, processed
      ensures Valid()
      ensures history == old(history) + Trace(FromUrl, id, env)
      ensures progress == old(progress)[id := FinalStatus(env)]
      ensures results == if Succeeds(env) then old(results)[id := OutputName(id)] else old(results)
      ensures processed.files == PipelineFiles(FromUrl, old(processed.files), id, env)
      ensures watermark.Some? <==> env.acquire.Ok?
      ensures watermark.Some? ==> watermark.value in BRANDS[brand].watermarks
    {
      var o := Opening(FromUrl, id);
      WriteProgress(id, o[0].st);
      WriteProgress(id, o[1].st);
      AppendTwo(old(history), o);
      watermark := Acquire(FromUrl, id, brand, env);
      AppendAssoc(old(history), o, Acquisition(FromUrl, id, env));
      Overwrite(old(progress), id, o[0].st, o[1].st);
      Overwrite(old(progress), id, o[1].st, FinalStatus(env));
    }

    /** `_real_video_process_upload`: as `RealVideoProcess`, with the upload saved as the input. */
    method RealVideoProcessUpload(id: string, file: Upload, brand: string, env: Env)
      returns (watermark: Option<string>)
      requires Valid() && id !in results && brand in BRANDS
      modifies this, processed
      ensures Valid()
      ensures history == old(history) + Trace(FromUpload, id, env)
      ensures progress == old(progress)[id := FinalStatus(env)]
      ensures results == if Succeeds(env) then old(results)[id := OutputName(id)] else old(results)
      ensures processed.files == PipelineFiles(FromUpload, old(processed.files), id, env)
      ensures watermark.Some? <==> env.acquire.Ok?
      ensures watermark.Some? ==> watermark.value in BRANDS[brand].watermarks
    {
      var o := Opening(FromUpload, id);
      WriteProgress(id, o[0].st);
      watermark := Acquire(FromUpload, id, brand, env);
      AppendAssoc(old(history), o, Acquisition(FromUpload, id, env));
      Overwrite(old(progress), id, o[0].st, FinalStatus(env));
    }

    /**
     * The steps both pipelines share once the opening writes are made: the
     * acquisition of the input (download or upload save), the watermark
     * choice and the writes up to "Adding watermark...".
     */
    method Acquire(p: Pipeline, id: string, brand: string, env: Env)
      returns (watermark: Option<string>)
      requires Valid() && id !in results && brand in BRANDS
      modifies this, processed
      ensures Valid()
      ensures history == old(history) + Acquisition(p, id, env)
      ensures progress == old(progress)[id := FinalStatus(env)]
      ensures results == if Succeeds(env) then old(results)[id := OutputName(id)] else old(results)
      ensures processed.files == PipelineFiles(p, old(processed.files), id, env)
      ensures watermark.Some? <==> env.acquire.Ok?
      ensures watermark.Some? ==> watermark.value in BRANDS[brand].watermarks
    {
      if env.acquire.Raises? {
        WriteProgress(id, FinalStatus(env));
        return None;
      }
      processed.Create(FileEntry(TempName(p, id), env.tempCtime));
      var w := Working(p, id);
      WriteProgress(id, w[0].st);
      var chosen := ChooseWatermark(brand);
      watermark := Some(chosen);
      WriteProgress(id, w[1].st);
      AppendTwo(old(history), w);
      Encode(p, id, env);
      AppendAssoc(old(history), w, Ending(id, env));
      Overwrite(old(progress), id, w[0].st, w[1].st);
      Overwrite(old(progress), id, w[1].st, FinalStatus(env));
    }

    /**
     * The ffmpeg run, the removal of the temporary input, the cleanup of old
     * videos and the final writes.
     */
    method Encode(p: Pipeline, id: string, env: Env)
      requires Valid() && id !in results && env.acquire.Ok?
      modifies this, processed
      ensures Valid()
      ensures history == old(history) + Ending(id, env)
      ensures progress == old(progress)[id := FinalStatus(env)]
      ensures results == if Succeeds(env) then old(results)[id := OutputName(id)] else old(results)
      ensures processed.files == FilesAfterAcquire(p, old(processed.files), id, env)
    {
      if env.encode.Raises? || env.removeTemp.Raises? {
        Abort(p, id, env);
      } else {
        Finish(p, id, env);
      }
    }

    /**
     * A raising ffmpeg run leaves the temporary input; a raising removal of
     * it leaves both files. Either way the error entry is written.
     */
    method Abort(p: Pipeline, id: string, env: Env)
      requires Valid() && id !in results && env.acquire.Ok? && !Succeeds(env)
      modifies this, processed
      ensures Valid()
      ensures history == old(history) + [SetProgress(id, FinalStatus(env))]
      ensures progress == old(progress)[id := FinalStatus(env)] && results == old(results)
      ensures processed.files == FilesAfterAcquire(p, old(processed.files), id, env)
    {
      if env.encode.Ok? {
        processed.Create(FileEntry(OutputName(id), env.outputCtime));
      }
      WriteProgress(id, FinalStatus(env));
    }

    /**
     * The successful end of a run: the output is written and the input
     * removed, "Finalizing..." is written, old videos are cleaned up, and
     * "Complete!" and the result are recorded.
     */
    method Finish(p: Pipeline, id: string, env: Env)
      requires Valid() && id !in results && Succeeds(env)
      modifies this, processed
      ensures Valid()
      ensures history == old(history) + Closing(id)
      ensures progress == old(progress)[id := COMPLETE]
      ensures results == old(results)[id := OutputName(id)]
      ensures processed.files == FilesAfterAcquire(p, old(processed.files), id, env)
    {
      processed.Create(FileEntry(OutputName(id), env.outputCtime));
      processed.Remove(TempName(p, id));
      var c := Closing(id);
      Finalize(id, c[0].st, env);
      WriteProgress(id, c[1].st);
      WriteResult(id);
      AppendThree(old(history), c);
      Overwrite(old(progress), id, c[0].st, c[1].st);
    }

    /** "Finalizing..." is written, then old videos are cleaned up. */
    method Finalize(id: string, st: Status, env: Env)
      requires Valid() && id !in results
      modifies this, processed
      ensures Valid()
      ensures history == old(history) + [SetProgress(id, st)]
      ensures progress == old(progress)[id := st] && results == old(results)
      ensures processed.files == AfterCleanup(old(processed.files), env.scanFails, env.removeFails)
    {
      WriteProgress(id, st);
      CleanupOldVideos(processed, env.scanFails, env.removeFails);
    }
  }

  lemma AppendTwo<T>(h: seq<T>, s: seq<T>)
    requires |s| == 2
    ensures h + [s[0]] + [s[1]] == h + s
  {
  }

  lemma AppendThree<T>(h: seq<T>, s: seq<T>)
    requires |s| == 3
    ensures h + [s[0]] + [s[1]] + [s[2]] == h + s
  {
  }

  lemma AppendAssoc<T>(a: seq<T>, b: seq<T>, c: seq<T>)
    ensures a + b + c == a + (b + c)
  {
  }

  /**
   * After a task's run, its poll shows the run's final status, and the
   * output filename exactly when the run succeeded.
   */
  lemma PollAfterRun(s: JobState, p: Pipeline, id: string, env: Env)
    ensures var r := Jobs.Poll(Replay(s, Trace(p, id, env)), id);
      && r.progress == FinalStatus(env).progress && r.status == FinalStatus(env).status
      && (r.filename.Some? <==> Succeeds(env) || id in s.results)
      && (Succeeds(env) ==> r == PollResult(100, "Complete!", Some(OutputName(id))))
  {
    ReplayRun(s, p, id, env);
  }

  /** A run of one task never changes what a poll of another task returns. */
  lemma RunLeavesOtherTasks(s: JobState, p: Pipeline, id: string, env: Env, other: string)
    requires other != id
    ensures Jobs.Poll(Replay(s, Trace(p, id, env)), other) == Jobs.Poll(s, other)
  {
    TraceNamesOnlyItsTask(p, id, env);
    ReplayOtherTasks(s, Trace(p, id, env), other);
  }
}
