/**
 * The file extractor: downloads a video's audio once into the audio store
 * with yt-dlp, waits for it to become ready, and serves the local file.
 */
module YtdlpFile {
  import opened Wrappers
  import opened Text
  import opened Utf8
  import opened Errors
  import opened Extractor
  import opened FileSystem
  import opened AudioStore

  /** How long a caller waits for the file, and how long it sleeps between looks (milliseconds). */
  const MAX_WAIT_MS: nat := 10000
  const POLL_INTERVAL_MS: nat := 2000

  /** The error returned when the file does not become ready in time. */
  const FILE_NOT_FOUND: Error := AudioStream("file not found")

  // ---------------------------------------------------------------------
  // Waiting

  /**
   * `clock(k)` is the time elapsed since the wait started when the `k`-th
   * look at the file is taken; every earlier look was followed by a sleep of
   * the poll interval.
   */
  ghost predicate ClockAdvances(clock: nat -> nat) {
    forall k: nat :: clock(k) >= 2000 * k
  }

  /** Whether the wait that is at look `k` ends with the file ready. */
  function WaitsFrom(readyAt: nat -> bool, clock: nat -> nat, k: nat): bool
    requires ClockAdvances(clock) && k <= 6
    decreases 6 - k
  {
    if readyAt(k) then true
    else if clock(k) > MAX_WAIT_MS then false
    else WaitsFrom(readyAt, clock, k + 1)
  }

  /** A wait that fails saw the file not ready at some look taken after the deadline. */
  lemma {:induction false} WaitFailsAfterDeadline(readyAt: nat -> bool, clock: nat -> nat, k: nat)
    requires ClockAdvances(clock) && k <= 6
    requires !WaitsFrom(readyAt, clock, k)
    ensures exists j: nat :: k <= j <= 6 && !readyAt(j) && clock(j) > MAX_WAIT_MS
    decreases 6 - k
  {
    if clock(k) <= MAX_WAIT_MS {
      WaitFailsAfterDeadline(readyAt, clock, k + 1);
    }
  }

  /**
   * `wait_for_file`: looks at the file until it is ready, giving up at the
   * first look taken more than ten seconds after the start. `readyAt(k)` is
   * the answer of the `k`-th look; `polls` is the index of the last look.
   */
  method WaitForFile(readyAt: nat -> bool, clock: nat -> nat) returns (ok: bool, polls: nat)
    requires ClockAdvances(clock)
    ensures ok == WaitsFrom(readyAt, clock, 0)
    ensures ok ==> readyAt(polls)
    ensures !ok ==> !readyAt(polls) && clock(polls) > MAX_WAIT_MS
    ensures forall j :: 0 <= j < polls ==> !readyAt(j) && clock(j) <= MAX_WAIT_MS
    ensures readyAt(0) ==> ok && polls == 0
  {
    polls := 0;
    while !readyAt(polls)
      invariant polls <= 6
      invariant WaitsFrom(readyAt, clock, 0) == WaitsFrom(readyAt, clock, polls)
      invariant forall j :: 0 <= j < polls ==> !readyAt(j) && clock(j) <= MAX_WAIT_MS
      decreases 6 - polls
    {
      if clock(polls) > MAX_WAIT_MS {
        return false, polls;
      }
      polls := polls + 1;
    }
    ok := true;
  }

  // ---------------------------------------------------------------------
  // Downloading

  /** `detect_error`: the stderr of yt-dlp, decoded lossily, must not contain the error marker. */
  function DetectError(stderr: seq<byte>): Errors.Result<()> {
    var s := DecodeLossy(stderr);
    if Contains(s, ERROR_TEXT) then Err(AudioStream(s)) else Ok(())
  }

  /** The lossy decoding neither hides nor invents the marker, so the check is one on bytes. */
  lemma DetectErrorOnBytes(stderr: seq<byte>)
    ensures DetectError(stderr).Err? <==> Contains(stderr, ERROR_MARKER)
    ensures DetectError(stderr).Err? ==> DetectError(stderr).error == AudioStream(DecodeLossy(stderr))
  {
    ErrorMarkerIsText();
    MarkerSurvivesDecoding(stderr, ERROR_MARKER);
  }

  /** How a run of yt-dlp ended, as seen by the extractor. */
  datatype ToolRun =
    | SpawnFailed(reason: string)
    | WaitFailed(reason: string)
      // the process exited; `wroteTemp` says whether it left the temporary file
    | Finished(stderr: seq<byte>, wroteTemp: bool)

  /**
   * The result of `download_file` and the files that exist afterwards,
   * given the files before it and the run of yt-dlp.
   */
  function DownloadEffect(files: set<string>, temp: string, path: string, run: ToolRun): (Errors.Result<()>, set<string>) {
    match run
    case SpawnFailed(e) => (Err(IO(e)), files)
    case WaitFailed(e) => (Err(IO(e)), files)
    case Finished(stderr, wrote) =>
      var after := if wrote then files + {temp} else files;
      if DetectError(stderr).Err? then (DetectError(stderr).PropagateFailure(), after)
      else if temp in after then (Ok(()), after - {temp} + {path})
      else (Err(IO(NOT_FOUND)), after)
  }

  /**
   * A download succeeds exactly when yt-dlp ran to the end without printing
   * the error marker and a temporary file is there to rename; the final file
   * only appears through that rename.
   */
  lemma DownloadOutcome(files: set<string>, temp: string, path: string, run: ToolRun)
    requires path !in files && temp != path
    ensures DownloadEffect(files, temp, path, run).0.Ok? <==>
      run.Finished? && !Contains(run.stderr, ERROR_MARKER) && (run.wroteTemp || temp in files)
    ensures DownloadEffect(files, temp, path, run).0.Ok? ==>
      DownloadEffect(files, temp, path, run).1 == files - {temp} + {path}
    ensures path in DownloadEffect(files, temp, path, run).1 <==> DownloadEffect(files, temp, path, run).0.Ok?
    ensures run.Finished? && Contains(run.stderr, ERROR_MARKER) ==>
      DownloadEffect(files, temp, path, run).0 == Err(AudioStream(DecodeLossy(run.stderr)))
  {
    if run.Finished? {
      DetectErrorOnBytes(run.stderr);
    }
  }

  /** `download_file`: run yt-dlp into the temporary path, check its stderr, then rename to the final path. */
  method DownloadFile(file: AudioFile, disk: Disk, run: ToolRun) returns (r: Errors.Result<()>)
    modifies disk
    ensures (r, disk.files) == DownloadEffect(old(disk.files), file.tempPath, file.path, run)
  {
    match run
    case SpawnFailed(e) =>
      return Err(IO(e));
    case WaitFailed(e) =>
      return Err(IO(e));
    case Finished(stderr, wrote) =>
      if wrote {
        disk.Create(file.tempPath);
      }
      var d := DetectError(stderr);
      if d.Err? {
        return d;
      }
      r := disk.Rename(file.tempPath, file.path);
  }

  /** What serving the file at `path` yields when `files` exist. */
  function Served(files: set<string>, path: string): Errors.Result<Extraction> {
    if path in files then Ok(File(FileHandle(path), AUDIO_MP4)) else Err(IO(NOT_FOUND))
  }

  /** `serve_file`: the opened final file, announced as `audio/mp4`. */
  function ServeFile(file: AudioFile, disk: Disk): (r: Errors.Result<Extraction>)
    reads disk
    ensures r == Served(disk.files, file.path)
    ensures r.Ok? <==> file.path in disk.files
    ensures r.Ok? ==> r.value.File? && r.value.file.path == file.path && r.value.mimeType == AUDIO_MP4
  {
    var f :- file.Open(disk);
    Ok(File(f, AUDIO_MP4))
  }

  /** The download a fresh entry for `videoId` in a store over `base` performs. */
  function FreshDownload(base: string, videoId: string, files: set<string>, run: ToolRun): (Errors.Result<()>, set<string>) {
    DownloadEffect(files, TempPath(base, videoId), FilePath(base, videoId), run)
  }

  /** The files after an allocation that evicted `evicted`, if any. */
  function AfterEviction(files: set<string>, base: string, evicted: Option<string>): set<string> {
    match evicted
    case None => files
    case Some(victim) => Dropped(files, base, victim)
  }

  /**
   * Dropping the entry after its download cleans up: a successful download
   * followed by a failed wait leaves the disk as it was before the download;
   * a failed download leaves no final file, and keeps a temporary file that
   * yt-dlp wrote, since a drop deletes files only when the final one exists.
   */
  lemma DownloadCleanup(files: set<string>, base: string, videoId: string, run: ToolRun)
    requires FilePath(base, videoId) !in files && TempPath(base, videoId) !in files
    requires FilePath(base, videoId) != TempPath(base, videoId)
    ensures FreshDownload(base, videoId, files, run).0.Ok? ==>
      Dropped(FreshDownload(base, videoId, files, run).1, base, videoId) == files
    ensures FreshDownload(base, videoId, files, run).0.Err? ==>
      Dropped(FreshDownload(base, videoId, files, run).1, base, videoId) == FreshDownload(base, videoId, files, run).1
    ensures run.Finished? && run.wroteTemp && FreshDownload(base, videoId, files, run).0.Err? ==>
      TempPath(base, videoId) in Dropped(FreshDownload(base, videoId, files, run).1, base, videoId)
  {
    DownloadOutcome(files, TempPath(base, videoId), FilePath(base, videoId), run);
  }

  /**
   * `extract`: only the caller that allocated the entry downloads; a failed
   * download or a file that does not become ready removes the entry again.
   * When the entry leaves the table, the store and this call held its last
   * references, so it is dropped by the time `extract` returns. `run` is the
   * yt-dlp run a download would see, `readyAt` and `clock` what the wait
   * would see; `evicted` is the entry the allocation evicted, if any.
   */
  method Extract(store: Store, disk: Disk, videoId: string, now: nat,
                 run: ToolRun, readyAt: nat -> bool, clock: nat -> nat)
    returns (r: Errors.Result<Extraction>, ghost evicted: Option<string>)
    requires store.Valid() && ClockAdvances(clock)
    modifies store, disk
    ensures store.Valid()
    ensures evicted.Some? <==> videoId !in old(store.files) && |old(store.files)| >= CAPACITY
    ensures evicted.Some? ==> evicted.value in old(store.files) && evicted.value != videoId
    // a known entry is never downloaded again; giving up on it removes and drops it
    ensures videoId in old(store.files) ==>
      if WaitsFrom(readyAt, clock, 0) then
        store.files == old(store.files) && disk.files == old(disk.files) &&
        r == Served(disk.files, FilePath(store.baseDir, videoId))
      else
        videoId !in store.files && disk.files == Dropped(old(disk.files), store.baseDir, videoId) &&
        r == Err(FILE_NOT_FOUND)
    // a fresh entry is downloaded once; a failed download or a failed wait removes and drops it
    ensures videoId !in old(store.files) ==>
      var download := FreshDownload(store.baseDir, videoId, AfterEviction(old(disk.files), store.baseDir, evicted), run);
      if download.0.Err? then
        videoId !in store.files && disk.files == Dropped(download.1, store.baseDir, videoId) &&
        r == download.0.PropagateFailure()
      else if WaitsFrom(readyAt, clock, 0) then
        videoId in store.files && disk.files == download.1 &&
        r == Served(download.1, FilePath(store.baseDir, videoId))
      else
        videoId !in store.files && disk.files == Dropped(download.1, store.baseDir, videoId) &&
        r == Err(FILE_NOT_FOUND)
    // no other entry is added or replaced
    ensures forall k :: k in store.files && k != videoId ==> k in old(store.files) && store.files[k] == old(store.files)[k]
  {
    var file, isNew;
    file, isNew, evicted := store.GetOrAllocate(videoId, now, disk);
    if isNew {
      var d := DownloadFile(file, disk, run);
      if d.Err? {
        store.Remove(videoId, disk);
        return d.PropagateFailure(), evicted;
      }
    }
    var ok, _ := WaitForFile(readyAt, clock);
    if !ok {
      store.Remove(videoId, disk);
      return Err(FILE_NOT_FOUND), evicted;
    }
    r := ServeFile(file, disk);
  }
}
