/** The two remote operations built on the retry loop: listing the
    workspace (`list_files_from_workspace`) and copying one file from the
    workspace to the bucket (`download_and_upload_file`). */
module Workspace {
  import opened Outcomes
  import opened Retry

  /** One entry of the workspace listing. */
  datatype RemoteFile = RemoteFile(id: string, name: string, lastModified: string)

  /** The bytes of a downloaded file, as handed to the bucket. */
  type Body = seq<bv8>

  /** `list_files_from_workspace`: the listing the successful attempt
      returned, `[]` once the attempts are exhausted, and a fatal HTTP error
      escapes to the caller. */
  function ListFilesFromWorkspace(listing: nat -> Attempt<seq<RemoteFile>>): (r: Raisable<seq<RemoteFile>>)
    ensures AllRetryable(listing) ==> r == Returned([])
    ensures forall d :: FirstDecisive(listing, d) ==>
      r == (if listing(d).Ok? then Returned(listing(d).response) else Raised(HttpRaised(listing(d).status)))
  {
    StopsAtFirstDecisiveAll(listing);
    match MakeApiRequest(listing).reply
    case Response(files) => Returned(files)
    case Reraised(s) => Raised(HttpRaised(s))
    case NoResponse => Returned([])
  }

  const UploadPrefix: string := "uploads/"

  /** The object key a file is uploaded under. */
  function UploadKey(name: string): (key: string)
    ensures |key| == |UploadPrefix| + |name|
    ensures key[..|UploadPrefix|] == UploadPrefix && key[|UploadPrefix|..] == name
  {
    UploadPrefix + name
  }

  /** Distinct names never share an upload key. */
  lemma UploadKeyInjective(a: string, b: string)
    requires UploadKey(a) == UploadKey(b)
    ensures a == b
  {
  }

  /** What the environment does for one file: the outcome of each download
      attempt, and whether `upload_fileobj` returns normally. */
  datatype FileEnv = FileEnv(download: nat -> Attempt<Body>, uploadSucceeds: bool)

  /** The call made to the bucket. */
  datatype Upload = Upload(key: string, body: Body)

  /** The value (or escaping exception) of `download_and_upload_file`, and the
      upload it attempted, if any. */
  datatype Transfer = Transfer(result: Raisable<bool>, upload: Option<Upload>)

  /** `download_and_upload_file(file_id, file_name)`: download with retries,
      then upload the body under `uploads/<name>`. An exhausted download or a
      failed upload gives `False`; a fatal HTTP error on the download escapes. */
  function DownloadAndUploadFile(name: string, env: FileEnv): (t: Transfer)
    ensures t.upload.Some? ==> t.upload.value.key == UploadKey(name)
    ensures t.result == Returned(true) <==> t.upload.Some? && env.uploadSucceeds
    ensures t.result.Raised? ==> t.result.exc.HttpRaised? && t.upload.None?
    ensures AllRetryable(env.download) ==> t == Transfer(Returned(false), None)
    ensures forall d :: FirstDecisive(env.download, d) && env.download(d).Ok? ==>
      && t.upload == Some(Upload(UploadKey(name), env.download(d).response))
      && t.result == Returned(env.uploadSucceeds)
    ensures forall d :: FirstDecisive(env.download, d) && env.download(d).HttpFailure? ==>
      t == Transfer(Raised(HttpRaised(env.download(d).status)), None)
  {
    StopsAtFirstDecisiveAll(env.download);
    match MakeApiRequest(env.download).reply
    case Response(body) =>
      Transfer(Returned(env.uploadSucceeds), Some(Upload(UploadKey(name), body)))
    case Reraised(s) => Transfer(Raised(HttpRaised(s)), None)
    case NoResponse => Transfer(Returned(false), None)
  }
}
