# brandflow watermark service — a Dafny model

This project models the core of the brandflow Flask service (`app.py`) and its history-rewrite helper (`commit_callback.py`):

- **Brand registry.** `BRANDS` is a constant table. For each brand it gives metadata, an optional LUT and a list of watermark images. A run picks one watermark at random (`BrandRegistry`).
- **Processed directory.** A listing of `(name, creation time)` entries with unique names. Writing a file replaces any file of the same name. `os.remove` drops one name (`Files`).
- **Retention.** `cleanup_old_videos` does the following (`Retention`):
  - collects the `.mp4` files;
  - stable-sorts them by creation time;
  - removes all but the newest three, skipping any removal that raises;
  - does nothing at all if listing the directory raises.
- **Job store.** `_progress` and `_results` are two maps keyed by task id (`Jobs`, `WatermarkApp.App`).
  - Every write to them is also recorded in a ghost log.
  - The maps are always the replay of that log.
  - Each pipeline run appends exactly its own trace of writes.
- **Requests.** `/process` checks its form and registers a fresh task at "Starting...". `/progress/<id>` answers from the maps, or with "Not found".
- **Pipelines.** `_real_video_process` and `_real_video_process_upload` are methods on the store that also change the processed directory. The outcome of every external step is an input of the model:
  - the download or upload save;
  - ffmpeg;
  - the removal of the temporary input;
  - the cleanup's listing and removals;
  - the creation times of new files.
- **Commit callback.** `commit_callback` replaces a commit's message with its entry in `MAPPING`, and changes nothing else (`CommitRewrite`).

Three behaviours of app.py that the model keeps:

- **Removing the temporary input.** `os.remove(temp_video)` (app.py:135, app.py:182) sits inside the pipeline's `try`. If it raises, the run takes the error path and no result is recorded.
- **Ordering.** Entries with equal creation times keep their listing order, because `list.sort` is stable.
- **Cleanup result.** `cleanup_old_videos` swallows every exception. A successful run whose cleanup cannot list the directory or remove a file still completes, and the directory can then hold more than three videos.

## Model

| member | source | states |
|---|---|---|
| BrandRegistry.ChooseWatermark | app.py:115 | the watermark chosen for a registered brand is one of that brand's watermarks |
| BrandRegistry.WatermarksNonEmpty | app.py:26-63 | every registered brand has at least one watermark, so `random.choice` never fails |
| Files.Directory.Create | app.py:109 | writing a file leaves the old listing minus any same-named file, plus the new entry; names stay unique |
| Files.Directory.Remove | app.py:88 | a successful `os.remove` drops exactly the entries of that name; names stay unique |
| Files.RemoveNamesTwice | app.py:85-90 | removing names one after another is removing their union |
| Retention.Videos | app.py:73-79 | an entry is collected exactly when it is in the listing and its name ends in ".mp4" |
| Retention.CollectVideos | app.py:72-79 | the append loop yields exactly the `.mp4` entries in listing order |
| Retention.SortIsSorted | app.py:82 | the sorted list is ordered by creation time, oldest first |
| Retention.SortByCtime | app.py:82 | sorting is a permutation of its input (same multiset) |
| Retention.SortIsStable | app.py:82 | entries with the same creation time keep their listing order |
| Retention.SortKeepsDistinct | app.py:82 | sorting keeps file names unique |
| Retention.ToDelete | app.py:84-85 | every selected entry is a listed video; n−3 are selected when there are n > 3 videos, none otherwise |
| Retention.Kept | app.py:84-85 | every kept entry is a listed video; three are kept when there are more, all otherwise |
| Retention.NothingSelectedIffFewVideos | app.py:84 | nothing is selected if and only if there are at most three videos |
| Retention.SelectionSplitsVideos | app.py:82-85 | selected followed by kept is the sorted video list; together they are exactly the videos |
| Retention.SelectedNoNewerThanKept | app.py:80-85 | every selected entry is no newer than every kept entry |
| Retention.SelectedAndKeptDisjoint | app.py:84-85 | with unique names, no entry is both selected and kept |
| Retention.CleanupRemovesExactlySelected | app.py:84-90 | an entry survives exactly when it was not selected or its removal raised; a failed removal does not stop the others |
| Retention.CleanupDeletesOnlyVideos | app.py:73-88 | cleanup never deletes a file whose name does not end in ".mp4" |
| Retention.CleanupNoOp | app.py:84-93 | with at most three videos, or when listing raises, the directory is unchanged |
| Retention.AfterCleanup | app.py:68-93 | cleanup only ever removes entries, and a listing exception leaves the directory unchanged |
| Retention.CleanupKeepsNewest | app.py:80-88 | when no selected removal raises, the surviving videos are exactly the kept three |
| Retention.CleanupLeavesAtMostThree | app.py:68-91 | when listing succeeds and no removal raises, at most three `.mp4` files remain |
| Retention.RemoveEach | app.py:86-91 | the removal loop removes exactly the selected names whose removal does not raise |
| Retention.CleanupOldVideos | app.py:68-93 | the directory afterwards is the specified cleanup result; names stay unique |
| Jobs.Poll | app.py:234-238 | progress and status come from `_progress`, or are 0 / "Not found" for an id it lacks; the filename is `_results[id]` when present and null exactly when `_results` lacks the id |
| Jobs.ReplayAppend | app.py:65-66 | replaying two logs in turn is replaying their concatenation |
| Jobs.ReplayOtherTasks | app.py:98-146 | writes for other task ids never change what a poll of this id returns |
| Jobs.NeverSubmittedIsNotFound | app.py:236-238 | an id that no write ever named polls as "Not found" |
| Jobs.Trace | app.py:95-194 | a run's writes start with progress 0 and end with the result on success, or with the error entry otherwise |
| Jobs.TraceNamesOnlyItsTask | app.py:95-194 | a pipeline run writes only its own task's entries |
| Jobs.SuccessfulRun | app.py:95-194 | a successful run writes progress 0,10,30,50,80,100 (URL) or 0,30,60,80,100 (upload) |
| Jobs.CheckpointsRise | app.py:95-194 | those checkpoints never decrease and end at 100 |
| Jobs.SuccessfulRunEnds | app.py:142-190 | a successful run ends with 100 / "Complete!" and then the result `<id>_watermarked.mp4` |
| Jobs.FailedRun | app.py:145-193 | a failed run ends at progress 0 with "Error: " and the raised message; it writes no result; before that it writes a strict prefix of the checkpoints |
| Jobs.ResultOnlyAfterComplete | app.py:142-190 | a result is only ever written right after 100 / "Complete!" |
| Jobs.ReplaySnoc | app.py:65-66 | replaying one more write applies it to the store the earlier writes leave |
| Jobs.ReplayProgressWrites | app.py:98-137 | a run of progress writes to one task leaves that task at the last status written |
| Jobs.ReplayRun | app.py:95-194 | a run leaves its task at the final status and adds the result exactly when it succeeds; every other entry is kept |
| Jobs.PipelineFiles | app.py:95-194 | a run adds no file other than its own temporary input and output, and every file it removes (its own cleanup included) is an `.mp4` file; if acquisition raises, nothing changes; after a successful run the temporary input is gone |
| Jobs.FilesAfterAcquire | app.py:119-140 | from ffmpeg on, only the output can appear and only `.mp4` files can disappear; after a successful run the temporary input is gone |
| Jobs.FailedEncodeLeavesTempInput | app.py:102-146 | when ffmpeg raises, the temporary input stays in the directory as an `.mp4` file that later cleanups count |
| Jobs.NewestOutputSurvives | app.py:117-143 | a successful run whose output is newer than every existing file keeps that output through its own cleanup |
| Jobs.RunKeepsAtMostThreeVideos | app.py:133-143 | a successful run whose cleanup lists the directory and removes every selected file leaves at most three `.mp4` files |
| Jobs.TempIsNotOutput | app.py:102-166 | a run's temporary input never has the same name as its output |
| WatermarkApp.TrimLeft | app.py:203 | drops exactly the leading whitespace: the rest is a suffix starting with a non-space |
| WatermarkApp.TrimRight | app.py:203 | drops exactly the trailing whitespace: the rest is a prefix ending with a non-space |
| WatermarkApp.Strip | app.py:203 | `str.strip()` yields the piece of the URL between a blank prefix and a blank suffix, and a non-empty result starts and ends with a non-space |
| WatermarkApp.StripEmptyIffBlank | app.py:203-206 | `url.strip()` is empty if and only if the URL is all whitespace |
| WatermarkApp.StripEnds | app.py:203 | a non-empty stripped URL starts and ends with a non-space |
| WatermarkApp.StripIdempotent | app.py:203 | stripping twice is stripping once |
| WatermarkApp.StrippedUrl | app.py:203-206 | a URL that is not blank strips to a non-empty, already-stripped URL |
| WatermarkApp.Validate | app.py:202-229 | the no-input rejection exactly when there is no named file and the URL is blank; the brand rejection exactly when there is input but the brand is unknown; otherwise accepted, upload first, else the stripped URL |
| WatermarkApp.App.Poll | app.py:234-238 | a poll answers what the write log says; a filename comes only with 100 / "Complete!" and is the task's own output; an unwritten id is "Not found" |
| WatermarkApp.App.WriteProgress | app.py:98 | one `_progress` write: that entry changes, the write is logged, and the store stays consistent |
| WatermarkApp.App.WriteResult | app.py:143 | one `_results` write, allowed only after "Complete!"; the store stays consistent |
| WatermarkApp.App.ProcessVideo | app.py:200-232 | a rejected form changes nothing; an accepted one creates exactly the fresh entry 0 / "Starting..." and hands back the job to run |
| WatermarkApp.App.RealVideoProcess | app.py:95-147 | the store receives exactly the URL pipeline's trace; progress ends at the final status; the result is set only on success; the directory ends as specified; the watermark belongs to the brand |
| WatermarkApp.App.RealVideoProcessUpload | app.py:149-194 | the same for the upload pipeline |
| WatermarkApp.App.Acquire | app.py:105-143 | from acquisition of the input on, the writes and the directory follow the trace |
| WatermarkApp.App.Encode | app.py:131-146 | from the ffmpeg run on, the writes are the run's ending, progress ends at the final status, the result is set only on success, and the directory ends as specified |
| WatermarkApp.App.Abort | app.py:132-146 | a raising ffmpeg run or temp removal writes only the error entry; the files it leaves behind are as specified |
| WatermarkApp.App.Finish | app.py:133-143 | the successful ending writes 80, cleans up, then writes 100 / "Complete!" and the result |
| WatermarkApp.App.Finalize | app.py:137-140 | "Finalizing..." is written, then the directory becomes the cleanup result of the directory before it |
| WatermarkApp.PollAfterRun | app.py:142-146 | after a run, its poll shows the final status; on success it shows 100 / "Complete!" with the output filename |
| WatermarkApp.RunLeavesOtherTasks | app.py:95-194 | a run never changes another task's poll |
| CommitRewrite.MappingMessagesEndWithNewline | commit_callback.py:2-22 | every replacement message in `MAPPING` ends with a newline |
| CommitRewrite.Lookup | commit_callback.py:27 | `MAPPING.get` is present exactly for keys of `MAPPING`, with their message |
| CommitRewrite.Rewritten | commit_callback.py:25-29 | a key's message becomes exactly its `MAPPING` entry, which ends in a newline; any other message is unchanged |
| CommitRewrite.RewriteIdempotent | commit_callback.py:27-29 | running the callback twice is the same as running it once |
| CommitRewrite.CommitCallback | commit_callback.py:25-29 | only `message` can change, `original_id` is kept, and the new message is the rewritten one |

## Left out

- Flask itself is not modelled: the app object, templates, `flash` and `redirect`, the download route, the 413/404 handlers, `MAX_CONTENT_LENGTH`, `app.run` and `print` logging. The validation and store effects of `/process` and `/progress` are modelled; the HTTP plumbing is not.
- Threads are not modelled. Each pipeline runs sequentially after `/process` returns the job, so races between concurrent runs on `_progress`, `_results` and the processed directory are not modelled.
- The PowerShell download, `uploaded_file.save`, ffmpeg, `os.remove`, `os.listdir` and `os.path.getctime` are oracles in `Jobs.Env`. Command strings and URL quoting are not modelled.
- The oracles model a raising step as leaving no file behind. A partially written download or ffmpeg output is not modelled.
- `uuid4` is a fresh id passed in, and its freshness is a precondition. `random.choice` is a nondeterministic choice from the brand's list.
- Creation times are integers, and only their order matters. The order of `os.listdir` is the order of the directory's sequence.
- `Files.Put`: a newly written file is always listed last. The source's `os.listdir` order depends on the file system. When creation times tie at the cut of `cleanup_old_videos`, the stable sort decides by that order, so the model picks one of the outcomes the source can produce. For example, it keeps a run's own output where a by-name listing could delete it.
- `WatermarkApp.App.RealVideoProcess`: requires the brand to be registered. With an unknown brand the source raises `KeyError` inside the `try` and records its error text. `process_video`, the only caller, never passes such a brand, so this path is not modelled.
- `WatermarkApp.App.RealVideoProcessUpload`: requires the brand to be registered, for the same reason.
- `WatermarkApp.App.RealVideoProcess` and `WatermarkApp.App.RealVideoProcessUpload` also require that the task has no result yet. A fresh `uuid4` id guarantees this.
- `CommitRewrite`: `bytes` values are strings with one ASCII character per byte. Every key and message in `MAPPING` is ASCII.
- `BRANDS` metadata and LUT entries are carried as data only. The source never reads them in the modelled operations.
- `IsSpace` fixes the set of characters Python's `str.strip` removes: ASCII whitespace, the 0x1c–0x1f separators, and the Unicode space and line separators.
