/**
 * The audio store: a bounded table of downloaded audio files keyed by
 * video id, each file moving from `New` to `Ready` once its download has
 * produced the final file on disk.
 */
module AudioStore {
  import opened Wrappers
  import opened Errors
  import opened Extractor
  import opened FileSystem

  /** The table keeps at most this many files ... */
  const CAPACITY: nat := 30
  /** ... each for at most ten minutes. */
  const EXPIRY_SECS: nat := 10 * 60

  // ---------------------------------------------------------------------
  // Paths

  /**
   * `Path::join` on Unix: an absolute name replaces the directory; otherwise
   * a `/` goes between them unless the directory is empty or ends in one.
   */
  function JoinPath(base: string, name: string): string {
    if name != [] && name[0] == '/' then name
    else if base == [] || base[|base| - 1] == '/' then base + name
    else base + "/" + name
  }

  /** A single file name: not empty, without `/`, and neither `.` nor `..`. */
  predicate PlainName(id: string) {
    id != [] && '/' !in id && id != "." && id != ".."
  }

  /** The position of the last `c` in `s`. */
  function LastIndexOf(s: string, c: char): (r: Option<nat>)
    ensures r.Some? ==> r.value < |s| && s[r.value] == c && c !in s[r.value + 1..]
    ensures r.None? <==> c !in s
  {
    if s == [] then None
    else if s[|s| - 1] == c then Some(|s| - 1)
    else
      assert s == s[..|s| - 1] + [s[|s| - 1]];
      var r := LastIndexOf(s[..|s| - 1], c);
      if r.Some? then assert s[r.value + 1..] == s[..|s| - 1][r.value + 1..] + [s[|s| - 1]]; r else r
  }

  /**
   * `Path::file_stem` of a file name: everything before its last dot,
   * unless that dot is the first character.
   */
  function FileStem(name: string): (stem: string)
    ensures stem <= name
    ensures '.' !in name ==> stem == name
    ensures stem != name ==> name[|stem|] == '.' && '.' !in name[|stem| + 1..] && |stem| > 0
  {
    match LastIndexOf(name, '.')
    case Some(i) => if i > 0 then name[..i] else name
    case None => name
  }

  /** The start of the segment of `p` that ends at `j`: just after the last `/` before `j`. */
  function SegmentStart(p: string, j: nat): (i: nat)
    requires j <= |p|
    ensures i <= j && (i == 0 || p[i - 1] == '/')
    ensures forall k :: i <= k < j ==> p[k] != '/'
    decreases j
  {
    if j == 0 || p[j - 1] == '/' then j else SegmentStart(p, j - 1)
  }

  /**
   * The span of the last component of `p[..j]`, as `Path::components` finds
   * it from the back: empty and `.` segments are skipped; none is left when
   * only those remain.
   */
  function LastComponent(p: string, j: nat): (r: Option<(nat, nat)>)
    requires j <= |p|
    ensures r.Some? ==> r.value.0 < r.value.1 <= j && p[r.value.0..r.value.1] != "."
    decreases j
  {
    var i := SegmentStart(p, j);
    if p[i..j] != [] && p[i..j] != "." then Some((i, j))
    else if i == 0 then None
    else LastComponent(p, i - 1)
  }

  /** The span of `Path::file_name`: the last component, unless it is `..`. */
  function FileNameSpan(p: string): (r: Option<(nat, nat)>)
    ensures r.Some? ==> r.value.0 < r.value.1 <= |p|
  {
    match LastComponent(p, |p|)
    case Some((i, j)) => if p[i..j] == ".." then None else Some((i, j))
    case None => None
  }

  /**
   * `Path::with_extension`: the path cut after the stem of its file name,
   * then a dot and the extension; a path without a file name is unchanged.
   */
  function WithExtension(p: string, ext: string): string {
    match FileNameSpan(p)
    case Some((i, j)) => p[..i] + FileStem(p[i..j]) + "." + ext
    case None => p
  }

  /** `base_dir.join(id).with_extension("m4a")`. */
  function FilePath(base: string, id: string): string {
    WithExtension(JoinPath(base, id), "m4a")
  }

  /** `base_dir.join(id).with_extension("temp.m4a")`. */
  function TempPath(base: string, id: string): string {
    WithExtension(JoinPath(base, id), "temp.m4a")
  }

  /** A name without `/` ends the joined path, after the directory and its separator. */
  lemma JoinedName(base: string, name: string)
    requires '/' !in name
    ensures var dir := JoinPath(base, []);
      && JoinPath(base, name) == dir + name
      && SegmentStart(JoinPath(base, name), |JoinPath(base, name)|) == |dir|
  {
    var dir := JoinPath(base, []);
    var p := JoinPath(base, name);
    assert p == dir + name;
    assert dir == [] || dir[|dir| - 1] == '/';
    SegmentStartAt(p, |dir|, |p|);
  }

  lemma {:induction false} SegmentStartAt(p: string, i: nat, j: nat)
    requires i <= j <= |p|
    requires i == 0 || p[i - 1] == '/'
    requires forall k :: i <= k < j ==> p[k] != '/'
    ensures SegmentStart(p, j) == i
    decreases j
  {
    if j > i {
      SegmentStartAt(p, i, j - 1);
    }
  }

  /**
   * For a plain file name as id, each path is the directory, the id's stem
   * and the suffix.
   */
  lemma PlainPaths(base: string, id: string)
    requires PlainName(id)
    ensures FilePath(base, id) == JoinPath(base, []) + FileStem(id) + ".m4a"
    ensures TempPath(base, id) == JoinPath(base, []) + FileStem(id) + ".temp.m4a"
  {
    var dir := JoinPath(base, []);
    var p := JoinPath(base, id);
    JoinedName(base, id);
    assert p[|dir|..|p|] == id;
    assert LastComponent(p, |p|) == Some((|dir|, |p|));
    assert p[..|dir|] == dir;
  }

  /** For a plain id without a dot both paths are the id with the suffix appended. */
  lemma DotlessPaths(base: string, id: string)
    requires PlainName(id) && '.' !in id
    ensures FilePath(base, id) == JoinPath(base, []) + id + ".m4a"
    ensures TempPath(base, id) == JoinPath(base, []) + id + ".temp.m4a"
  {
    PlainPaths(base, id);
  }

  /** An existing extension of a plain id is replaced, not extended. */
  lemma ExtensionReplaced(base: string, stem: string, ext: string)
    requires |stem| > 0 && '.' !in ext && PlainName(stem + "." + ext)
    ensures FilePath(base, stem + "." + ext) == JoinPath(base, []) + stem + ".m4a"
    ensures TempPath(base, stem + "." + ext) == JoinPath(base, []) + stem + ".temp.m4a"
  {
    var name := stem + "." + ext;
    LastDot(stem, ext);
    assert name[..|stem|] == stem;
    assert FileStem(name) == stem;
    PlainPaths(base, name);
  }

  lemma LastDot(stem: string, ext: string)
    requires '.' !in ext
    ensures LastIndexOf(stem + "." + ext, '.') == Some(|stem|)
  {
    var name := stem + "." + ext;
    assert name[|stem|] == '.';
    assert name[|stem| + 1..] == ext;
  }

  /** Whenever the joined path has a file name, the final and the temporary path differ. */
  lemma PathsDiffer(base: string, id: string)
    requires FileNameSpan(JoinPath(base, id)).Some?
    ensures FilePath(base, id) != TempPath(base, id)
  {
    assert |FilePath(base, id)| + 5 == |TempPath(base, id)|;
  }

  /** The id `..` has no file name: both paths are the joined path itself, the parent directory. */
  lemma ParentIdSharesPath(base: string)
    ensures FilePath(base, "..") == JoinPath(base, "..")
    ensures TempPath(base, "..") == JoinPath(base, "..")
  {
    var dir := JoinPath(base, []);
    var p := JoinPath(base, "..");
    JoinedName(base, "..");
    assert p[|dir|..|p|] == "..";
    assert FileNameSpan(p) == None;
  }

  /** Distinct plain ids without a dot are stored at distinct paths. */
  lemma FilePathInjective(base: string, a: string, b: string)
    requires PlainName(a) && PlainName(b) && '.' !in a && '.' !in b
    requires FilePath(base, a) == FilePath(base, b)
    ensures a == b
  {
    var dir := JoinPath(base, []);
    PlainPaths(base, a);
    PlainPaths(base, b);
    assert FilePath(base, a) == dir + a + ".m4a";
    assert FilePath(base, b) == dir + b + ".m4a";
    assert |a| == |b|;
    assert a == FilePath(base, a)[|dir|..|dir| + |a|];
    assert b == FilePath(base, b)[|dir|..|dir| + |b|];
  }

  // ---------------------------------------------------------------------
  // Files

  datatype AudioFileState = New | Ready

  /** What the download callback of `GetOrDownload` does: its result and the files it leaves behind. */
  datatype Download = Download(result: Errors.Result<()>, writes: set<string>)

  class AudioFile {
    const id: string
    const path: string
    const tempPath: string
    const createdAt: nat
    var state: AudioFileState

    /** A fresh `New` file for `audioId` under `baseDir`, created at time `now`. */
    constructor (baseDir: string, audioId: string, now: nat)
      ensures id == audioId
      ensures path == FilePath(baseDir, audioId) && tempPath == TempPath(baseDir, audioId)
      ensures createdAt == now && state == New
    {
      id := audioId;
      path := FilePath(baseDir, audioId);
      tempPath := TempPath(baseDir, audioId);
      createdAt := now;
      state := New;
    }

    /** Opening succeeds exactly when the final file exists. */
    function Open(disk: Disk): (r: Errors.Result<FileHandle>)
      reads disk
      ensures r.Ok? <==> path in disk.files
      ensures r.Ok? ==> r.value == FileHandle(path)
      ensures r.Err? ==> r.error == IO(NOT_FOUND)
    {
      if path in disk.files then Ok(FileHandle(path)) else Err(IO(NOT_FOUND))
    }

    /**
     * Serves a `Ready` file without downloading; otherwise runs the download
     * and becomes `Ready` only when it succeeded and left the final file on
     * disk. `called` reports whether the download ran.
     */
    method GetOrDownload(disk: Disk, dl: Download) returns (r: Errors.Result<FileHandle>, called: bool)
      modifies this, disk
      ensures old(state) == Ready ==>
        !called && state == Ready && disk.files == old(disk.files) && r == Open(disk)
      ensures old(state) == New ==> called && disk.files == old(disk.files) + dl.writes
      ensures old(state) == New && dl.result.Err? ==> state == New && r == Err(dl.result.error)
      ensures old(state) == New && dl.result.Ok? && path !in disk.files ==>
        state == New && r == Err(AudioStream(id))
      ensures old(state) == New && dl.result.Ok? && path in disk.files ==>
        state == Ready && r == Ok(FileHandle(path))
      ensures state == Ready ==> old(state) == Ready || path in disk.files
    {
      if state == Ready {
        r := Open(disk);
        called := false;
        return;
      }
      called := true;
      disk.files := disk.files + dl.writes;
      if dl.result.Err? {
        r := Err(dl.result.error);
        return;
      }
      if path !in disk.files {
        r := Err(AudioStream(id));
        return;
      }
      state := Ready;
      r := Open(disk);
    }

    /** Dropping a file deletes its temporary and final files, but only when the final one exists. */
    method Drop(disk: Disk)
      modifies disk
      ensures path !in old(disk.files) ==> disk.files == old(disk.files)
      ensures path in old(disk.files) ==> disk.files == old(disk.files) - {tempPath, path}
    {
      if path !in disk.files {
        return;
      }
      var _ := disk.Remove(tempPath);
      var _ := disk.Remove(path);
    }
  }

  // ---------------------------------------------------------------------
  // Store

  /** `path` lies inside directory `base`, which is removed when a store opens on it. */
  predicate InDir(base: string, path: string) {
    base != [] && (path == base || JoinPath(base, []) <= path)
  }

  /** Each entry of `m` is the file allocated under `base` for its own key. */
  predicate EntriesMatch(base: string, m: map<string, AudioFile>) {
    forall k :: k in m ==> m[k].id == k && m[k].path == FilePath(base, k) && m[k].tempPath == TempPath(base, k)
  }

  lemma MapRemoveOne<K, V>(m: map<K, V>, k: K)
    requires k in m
    ensures |m - {k}| == |m| - 1
  {
    assert (m - {k}).Keys == m.Keys - {k};
  }

  lemma MapAddOne<K, V>(m: map<K, V>, k: K, v: V)
    requires k !in m
    ensures |m[k := v]| == |m| + 1
  {
    assert m[k := v].Keys == m.Keys + {k};
  }

  lemma EvictionKeepsOthers<V>(m: map<string, V>, victim: string, k: string, v: V)
    ensures var r := (m - {victim})[k := v];
      k in r && r[k] == v && forall j :: j in r && j != k ==> j in m && r[j] == m[j]
  {
  }

  /**
   * The files left when the entry allocated for `id` under `base` is
   * dropped: both of its files go, but only when the final one exists.
   */
  function Dropped(files: set<string>, base: string, id: string): set<string> {
    if FilePath(base, id) in files then files - {TempPath(base, id), FilePath(base, id)} else files
  }

  /**
   * Dropping an entry never adds a file and leaves its final file absent;
   * its temporary file survives exactly when no final file was there.
   */
  lemma DroppedLeavesNoFinalFile(files: set<string>, base: string, id: string)
    ensures Dropped(files, base, id) <= files
    ensures FilePath(base, id) !in Dropped(files, base, id)
    ensures TempPath(base, id) in Dropped(files, base, id) <==>
      TempPath(base, id) in files && FilePath(base, id) !in files
    ensures forall p :: p in files && p != FilePath(base, id) && p != TempPath(base, id) ==> p in Dropped(files, base, id)
  {
  }

  class Store {
    const baseDir: string
    var files: map<string, AudioFile>

    /** Bounded, and each entry is the file allocated for its own key. */
    predicate Valid()
      reads this
    {
      |files| <= CAPACITY && EntriesMatch(baseDir, files)
    }

    /** An empty store over `dir`, with every file left inside `dir` deleted. */
    constructor (dir: string, disk: Disk)
      modifies disk
      ensures baseDir == dir && files == map[] && Valid()
      ensures disk.files == set p | p in old(disk.files) && !InDir(dir, p)
    {
      baseDir := dir;
      files := map[];
      disk.files := set p | p in disk.files && !InDir(dir, p);
    }

    /**
     * The stored file for `audioId`, or a fresh `New` one stored under it;
     * `isNew` tells the two apart. A full table makes room by evicting one
     * other entry, named by `evicted`; the store held the last reference to
     * it, so it is dropped.
     */
    method GetOrAllocate(audioId: string, now: nat, disk: Disk)
      returns (file: AudioFile, isNew: bool, ghost evicted: Option<string>)
      requires Valid()
      modifies this, disk
      ensures Valid()
      ensures isNew <==> audioId !in old(files)
      ensures !isNew ==> file == old(files)[audioId] && files == old(files)
      ensures isNew ==> fresh(file) && file.state == New && file.createdAt == now
      ensures audioId in files && files[audioId] == file
      ensures evicted.Some? <==> isNew && |old(files)| >= CAPACITY
      ensures evicted.None? ==> disk.files == old(disk.files)
      ensures isNew && evicted.None? ==> files == old(files)[audioId := file]
      ensures evicted.Some? ==>
        && evicted.value in old(files) && evicted.value != audioId
        && files == (old(files) - {evicted.value})[audioId := file]
        && disk.files == Dropped(old(disk.files), baseDir, evicted.value)
      ensures forall k :: k in files && k != audioId ==> k in old(files) && files[k] == old(files)[k]
    {
      if audioId in files {
        return files[audioId], false, None;
      }
      file := new AudioFile(baseDir, audioId, now);
      isNew := true;
      ghost var before := files;
      evicted := Admit(audioId, file, disk);
      if evicted.Some? {
        EvictionKeepsOthers(before, evicted.value, audioId, file);
      }
    }

    /** Stores a new file, first evicting and dropping one entry when the table is full. */
    method Admit(audioId: string, file: AudioFile, disk: Disk) returns (ghost evicted: Option<string>)
      requires Valid() && audioId !in files
      requires file.id == audioId && file.path == FilePath(baseDir, audioId) && file.tempPath == TempPath(baseDir, audioId)
      modifies this, disk
      ensures Valid()
      ensures evicted.Some? <==> |old(files)| >= CAPACITY
      ensures evicted.None? ==> files == old(files)[audioId := file] && disk.files == old(disk.files)
      ensures evicted.Some? ==>
        && evicted.value in old(files)
        && files == (old(files) - {evicted.value})[audioId := file]
        && disk.files == Dropped(old(disk.files), baseDir, evicted.value)
    {
      var kept := files;
      evicted := None;
      if |files| >= CAPACITY {
        var victim :| victim in files;
        files[victim].Drop(disk);
        kept := files - {victim};
        MapRemoveOne(files, victim);
        evicted := Some(victim);
      }
      assert |kept| < CAPACITY;
      assert EntriesMatch(baseDir, kept);
      MapAddOne(kept, audioId, file);
      files := kept[audioId := file];
    }

    /**
     * Forgets the entry for `audioId`; the next allocation of it is a fresh
     * `New` file. The store held the last reference to the entry, so it is
     * dropped.
     */
    method Remove(audioId: string, disk: Disk)
      requires Valid()
      modifies this, disk
      ensures Valid()
      ensures files == old(files) - {audioId}
      ensures audioId in old(files) ==> disk.files == Dropped(old(disk.files), baseDir, audioId)
      ensures audioId !in old(files) ==> disk.files == old(disk.files)
    {
      if audioId in files {
        files[audioId].Drop(disk);
      }
      files := files - {audioId};
    }
  }
}
