/** The tracking file `downloaded_files.json`: file id to the
    `lastModified` marker of the last successful transfer. Only the state of
    the file is modelled, not its JSON encoding. */
module TrackingStore {
  import opened Outcomes

  type Markers = map<string, string>

  /** What is on disk at the tracking path. */
  datatype TrackingFile =
    | Missing                   // `open` raises `FileNotFoundError`
    | Stored(entries: Markers)  // a readable mapping
    | Corrupt                   // present but `open` or `json.load` raises something else

  /** `get_downloaded_files`: a missing file reads as the empty map; any other
      read failure is not caught and escapes. */
  function GetDownloadedFiles(file: TrackingFile): (r: Raisable<Markers>)
    ensures r.Raised? <==> file.Corrupt?
    ensures file.Missing? ==> r == Returned(map[])
    ensures file.Stored? ==> r == Returned(file.entries)
  {
    match file
    case Missing => Returned(map[])
    case Stored(m) => Returned(m)
    case Corrupt => Raised(TrackingUnreadable)
  }

  /** `save_downloaded_files`: the file afterwards holds exactly `m`. */
  function SaveDownloadedFiles(m: Markers): (file: TrackingFile)
    ensures GetDownloadedFiles(file) == Returned(m)
  {
    Stored(m)
  }
}
