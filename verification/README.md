# Incremental workspace-to-bucket sync, modelled in Dafny

`query.py` copies files from a remote workspace to an object-store bucket,
and copies a file only when it is new or has changed since the last run. It
keeps a tracking map from file id to the `lastModified` marker of the last
successful copy. The run does four things:

- load the tracking map (a missing tracking file counts as empty);
- list the workspace, retrying through `make_api_request`;
- for each listed file that is untracked or whose marker is older, download
  it (with retries) and upload it under `uploads/<name>`, recording the new
  marker only when the copy succeeds;
- save the map once at the end.

The model replaces every I/O edge with an abstract outcome:

- `Retry.Attempt` is the outcome of one GET attempt: a response, an
  `HTTPError` with a status, or any other exception. A request is driven by
  an oracle `nat -> Attempt<T>` that gives the outcome of attempt k.
- `Workspace.FileEnv` is what the environment does for one listed file: the
  download oracle, and whether `upload_fileobj` returns normally. The pass
  takes `nat -> FileEnv`, indexed by position in the listing.
- `TrackingStore.TrackingFile` is the state of the tracking file: missing,
  stored with a map, or unreadable.
- Markers are strings compared with Python's `<` on `str`
  (`StrOrder.Less`): lexicographic by code point, and a proper prefix is
  smaller.

Modules:

- `Outcomes`: `Option`, the exceptions that escape a run, and `Raisable`
  (returned or raised).
- `StrOrder`: the marker order and its laws (irreflexive, asymmetric,
  transitive, total).
- `Retry`: `make_api_request` as a pure function of the attempt oracle. It
  returns the reply, the number of attempts and the list of sleeps.
- `TrackingStore`: `get_downloaded_files` and `save_downloaded_files`.
- `Workspace`: `list_files_from_workspace`, the upload key, and
  `download_and_upload_file`.
- `Engine`: `process_files`, that is, the diff test, one loop step, the fold
  over the listing, the whole run, and the lemmas about the fold.

Where the design intent and the code differ, the model follows the code:

- Exhausted retries return `None`. The listing then reads as `[]` and the
  run saves the map it loaded. The transfer returns `False`.
- A non-429 HTTP error is re-raised, and nothing catches it. On the listing
  or on any download, it ends `process_files` before the save, so the
  tracking file is left as it was. The markers of files already copied in
  that run are lost.
- Only `FileNotFoundError` is caught when loading, so an unreadable tracking
  file ends the run.

## Model

| member | source | states |
|---|---|---|
| StrOrder.Less | query.py:78 | Python's `str <` on markers: code-point lexicographic order, a proper prefix sorting first |
| StrOrder.LessIffFirstDifference | query.py:78 | one marker sorts before another exactly when, at the first position where they differ, it has the smaller code point or has already ended |
| StrOrder.LessTransitive | query.py:78 | the `str` order used to compare markers is transitive |
| StrOrder.LessTotal | query.py:78 | two distinct markers are always ordered one way or the other |
| StrOrder.LessAsymmetric | query.py:78 | if one marker is older than another, the reverse does not hold |
| StrOrder.LessIrreflexive | query.py:78 | no marker is older than itself |
| StrOrder.NotLessIsAtLeast | query.py:78 | "stored marker is not older" is the same as "stored marker is at least `lastModified`" |
| Retry.Retryable | query.py:40-47 | the failures the loop sleeps on and retries: a 429 `HTTPError`, or any exception that is not an `HTTPError`; every other `HTTPError` is re-raised |
| Retry.Backoff | query.py:42-47 | the sleep after failed attempt j is `2 ** j` seconds, with attempts counted from 0 |
| Retry.RetryFrom | query.py:34-48 | from attempt k on, at most 5 - k attempts are made (at least one if any remain); a response is the last attempt's own response; a re-raised error is the last attempt's non-429 status; `None` only after every remaining attempt failed retryably |
| Retry.RetrySchedule | query.py:34-47 | from attempt k on, every attempt before the last was a 429 or a non-HTTP exception, there is one sleep per such failure (the fifth failure included), and the sleep after attempt j is `2^j` |
| Retry.MakeApiRequest | query.py:33-48 | 1 to 5 attempts; a response is the last attempt's own response; a re-raised error is the last attempt's non-429 status; `None` exactly when all five attempts fail retryably; the sleeps are `2^0, 2^1, ...`, one per retryable failure |
| Retry.StopsAtFirstDecisive | query.py:34-44 | the loop stops at the first attempt that is a success or a non-429 HTTP error (attempt d), after exactly d sleeps, and returns that attempt's response or re-raises its status |
| Retry.StopsAtFirstDecisiveAll | query.py:34-44 | the same, for every such first decisive attempt at once |
| Retry.DecisiveOrExhausted | query.py:34-48 | every oracle either fails retryably on all five attempts or has a first decisive attempt |
| Retry.ExhaustionSchedule | query.py:41-48 | five retryable failures give `None` after sleeps 1, 2, 4, 8, 16 (31 in all), with no sixth attempt |
| Retry.SuccessOnLastAttempt | query.py:34-42 | four retryable failures followed by a success give that response on the fifth attempt, after sleeps 1, 2, 4, 8 |
| TrackingStore.GetDownloadedFiles | query.py:22-27 | a missing tracking file loads as the empty map; a stored map loads as itself; any other read failure escapes |
| TrackingStore.SaveDownloadedFiles | query.py:29-31 | loading what was saved gives back exactly the saved map |
| Workspace.ListFilesFromWorkspace | query.py:50-55 | exhausted retries give `[]`; otherwise the first decisive attempt settles it: its listing, or its non-429 error raised to the caller |
| Workspace.UploadKey | query.py:61 | the key is `uploads/` followed by the name, which is recoverable from the key |
| Workspace.UploadKeyInjective | query.py:61 | two different names never share an upload key |
| Workspace.DownloadAndUploadFile | query.py:57-67 | any upload goes under `uploads/<name>` and carries the body of the successful download attempt; `True` iff the download returned a response and the upload did not raise; exhausted retries give `False` with no upload; a fatal download error escapes with no upload |
| Engine.NeedsSync | query.py:78 | the diff test: a file is transferred when its id is untracked or its stored marker sorts before its `lastModified` |
| Engine.NeedsSyncIffNotCovered | query.py:78 | a file needs a transfer exactly when the map does not already hold a marker at or beyond its `lastModified` |
| Engine.Visit | query.py:73-81 | a file is skipped iff it is tracked with a marker that is not older; it is marked with its `lastModified` iff its transfer returned `True`; otherwise the map is unchanged; the step raises iff the file is attempted and its transfer raises, and then with that transfer's exception |
| Engine.Fold | query.py:73-81 | a pass that completes records one decision per listed file |
| Engine.ProcessFiles | query.py:69-83 | the tracking file is rewritten with the final map only when no exception escapes, and is left untouched otherwise; a missing tracking file with an exhausted listing saves `{}`; a stored map with an exhausted listing is saved back unchanged; a fatal listing error leaves the file untouched; a corrupt file ends the run |
| Engine.UnchangedFileSkipped | query.py:78 | a file whose stored marker equals its `lastModified` is not downloaded |
| Engine.FoldUnlistedUntouched | query.py:70-83 | ids that are not in the listing keep exactly their entry (or lack of one) |
| Engine.FoldMonotone | query.py:78-81 | no key is removed and no marker decreases |
| Engine.FoldChangesOnlyOnSuccess | query.py:78-81 | every changed or new entry holds the `lastModified` of a listed file with that id whose transfer succeeded |
| Engine.FoldCoversWhenNoFailure | query.py:73-81 | if no transfer failed, every listed file ends up tracked at or beyond its `lastModified` |
| Engine.FoldIdleWhenCovered | query.py:73-81 | over a map that already covers the listing, the pass downloads nothing and changes nothing |
| Engine.RerunIsIdle | query.py:73-81 | after a pass with no failed transfer, a second pass over the same listing makes no transfer attempt and leaves the map unchanged |
| Engine.FoldDecisionsWithUniqueIds | query.py:73-81 | with distinct ids (the `Decided` predicate), a file is attempted iff it is untracked or its marker is older; it is marked with exactly its `lastModified` iff its own transfer returned `True`; a skipped or failed file's entry is untouched |
| Engine.FoldRaisesOnlyOnFatalDownload | query.py:73-81 | the pass ends in an exception only when some file that the pass reached and attempted (untracked or older) had its download raise a fatal HTTP error, and the pass raises that same exception |
| Engine.FoldRaisesAfterFatal | query.py:73-81 | conversely, once a file that the pass reaches and attempts has its download raise, the pass ends with that exception: neither the transfer nor the loop catches it |
| Engine.RunAbortsOnFatalDownload | query.py:69-83 | a fatal download error on an attempted file ends `process_files` with that exception before the save, so the tracking file is left as it was and the markers of files already copied in that run are lost |
| Engine.RunTwiceIsIdle | query.py:69-83 | a run in which no transfer failed, followed by a run that lists the same files, leaves the second run with nothing to transfer and saves the same tracking file |

## Left out

- The `method != 'get'` path of `make_api_request` (query.py:36-41), where `response` would be unbound. No caller uses it.
- The URLs, headers and credentials (query.py:9-17, query.py:51, query.py:58). The file id only builds the download URL, so each download is given by its own oracle.
- `response.json()["files"]` (query.py:54). The listing oracle returns the list of `RemoteFile` directly. Malformed JSON, a missing `files` key, or a listing entry without `id`, `name` or `lastModified` (query.py:74-76) would raise in Python and is not modelled.
- Response truthiness (`if response:`, query.py:53, query.py:60). A response that passed `raise_for_status` is truthy, so `Response` is always taken as truthy.
- `HTTPError` statuses are any integer. `raise_for_status` raises only for 400-599, and only 429 is treated specially.
- `time.sleep` (query.py:42, query.py:47) is recorded as a list of delays. Time itself is not modelled.
- `print` logging (query.py:46, query.py:66, query.py:79).
- The boto3 client and `upload_fileobj` (query.py:20, query.py:63) become a per-file yes/no: does the upload return normally?
- JSON encoding of the tracking file (query.py:24-25, query.py:30-31). Markers are strings. Numeric markers, and the `TypeError` Python raises when comparing a number with a string, are not modelled.
- File ids are strings. JSON object keys always come back as strings after `json.dump` and `json.load` (query.py:25, query.py:31). A numeric `id` in the listing would never match a reloaded key, so the source would transfer that file again on every run. `RemoteFile.id` is a string, and Engine.RunTwiceIsIdle depends on that.
- TrackingStore.SaveDownloadedFiles: a write that raises (disk full, permissions) is not modelled; saving always succeeds.
- Engine.Fold: the oracle is indexed by listing position, so a file listed twice may see different outcomes. The exact-marker and attempted-iff-older statements (Engine.FoldDecisionsWithUniqueIds) assume distinct ids, which the workspace guarantees. Without that assumption only the weaker statements hold: monotone, changed-only-on-success, unlisted-untouched, idempotent.
