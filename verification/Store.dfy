/** The versioned document store of one session, over the disk it mirrors. */
module Store {
  import opened Common
  import opened Paths
  import opened Listing

  datatype Snapshot = Snapshot(version: nat, source: Bytes, files: seq<File>)

  datatype StoreError =
    | RegressiveVersion
    | NoSuchFile
    | FileExists
    | TooManyFiles
    | TooLarge
    | CannotRename
    | CannotDelete
    | EntryMissing
    | InvalidSources
    | DiskError

  /** The four edits, and the reset, as a client asks for them. */
  datatype Mutation =
    | Update(version: nat, path: string, text: Bytes)
    | Create(version: nat, path: string, text: Bytes)
    | Rename(version: nat, path: string, newPath: string)
    | Delete(version: nat, path: string)
    | Reset(version: nat, sources: seq<File>)

  const MAX_SOURCE_BYTES: nat := 1024 * 1024

  function TextAt(files: seq<File>, path: string): Option<Bytes> {
    if files == [] then None
    else if files[0].path == path then Some(files[0].source)
    else TextAt(files[1..], path)
  }

  predicate WithinLimits(files: seq<File>) {
    |files| <= MAX_PROJECT_FILES && TotalBytes(files) <= MAX_PROJECT_BYTES
  }

  /** What every committed snapshot looks like. */
  predicate SnapshotOk(entry: string, snapshot: Snapshot) {
    && Sorted(snapshot.files)
    && WithinLimits(snapshot.files)
    && TextAt(snapshot.files, entry) == Some(snapshot.source)
  }

  // ---- the operations -------------------------------------------------------------

  datatype Outcome = Outcome(result: Result<(), StoreError>, snapshot: Snapshot, disk: Disk)

  /** The sources of a reset or a restore; their paths have been validated as project paths. */
  predicate ValidSources(sources: seq<File>) {
    && 0 < |sources| <= MAX_PROJECT_FILES
    && UniquePaths(sources)
    && (forall i :: 0 <= i < |sources| ==> |sources[i].source| <= MAX_SOURCE_BYTES)
    && TotalBytes(sources) <= MAX_PROJECT_BYTES
    && (forall i, j :: 0 <= i < |sources| && 0 <= j < |sources| ==> !(sources[i].path + "/" <= sources[j].path))
  }

  function Committed(entry: string, version: nat, files: seq<File>): Option<Snapshot> {
    var sorted := Sort(files);
    var source := TextAt(sorted, entry);
    if source.Some? then Some(Snapshot(version, source.value, sorted)) else None
  }

  /** The snapshot is replaced only by a commit that finds the entry file; the disk is as it is by then. */
  function Commit(entry: string, snapshot: Snapshot, version: nat, files: seq<File>, disk: Disk): Outcome {
    var next := Committed(entry, version, files);
    if next.Some? then Outcome(Ok(()), next.value, disk) else Outcome(Err(EntryMissing), snapshot, disk)
  }

  function Refused(error: StoreError, snapshot: Snapshot, disk: Disk): Outcome {
    Outcome(Err(error), snapshot, disk)
  }

  function WithText(files: seq<File>, path: string, text: Bytes): seq<File> {
    seq(|files|, i requires 0 <= i < |files| => if files[i].path == path then File(path, text) else files[i])
  }

  function WithPath(files: seq<File>, path: string, newPath: string): seq<File> {
    seq(|files|, i requires 0 <= i < |files| => if files[i].path == path then File(newPath, files[i].source) else files[i])
  }

  function Without(files: seq<File>, path: string): seq<File> {
    if files == [] then []
    else if files[0].path == path then Without(files[1..], path)
    else [files[0]] + Without(files[1..], path)
  }

  function DiskOf(files: seq<File>): Disk {
    if files == [] then map[] else DiskOf(files[..|files| - 1])[files[|files| - 1].path := files[|files| - 1].source]
  }

  /** `replace_files`: the whole tree is staged, then swapped in. */
  function Replace(entry: string, snapshot: Snapshot, disk: Disk, version: nat, sources: seq<File>, io: bool): Outcome {
    if !ValidSources(sources) || !Has(sources, entry) then Refused(InvalidSources, snapshot, disk)
    else if version < snapshot.version then Refused(RegressiveVersion, snapshot, disk)
    else if !io then Refused(DiskError, snapshot, disk)
    else Commit(entry, snapshot, version, sources, DiskOf(sources))
  }

  /** `io` says whether the disk operation, where there is one that may fail, succeeds. */
  function Apply(entry: string, snapshot: Snapshot, disk: Disk, m: Mutation, io: bool): Outcome {
    var files := snapshot.files;
    if m.version <= snapshot.version then Refused(RegressiveVersion, snapshot, disk)
    else match m
      case Update(version, path, text) =>
        if !Has(files, path) then Refused(NoSuchFile, snapshot, disk)
        else if TotalBytes(WithText(files, path, text)) > MAX_PROJECT_BYTES then Refused(TooLarge, snapshot, disk)
        else if !io then Refused(DiskError, snapshot, disk)
        else Commit(entry, snapshot, version, WithText(files, path, text), disk[path := text])
      case Create(version, path, text) =>
        if |files| >= MAX_PROJECT_FILES then Refused(TooManyFiles, snapshot, disk)
        else if Has(files, path) then Refused(FileExists, snapshot, disk)
        else if TotalBytes(files + [File(path, text)]) > MAX_PROJECT_BYTES then Refused(TooLarge, snapshot, disk)
        else if !io then Refused(DiskError, snapshot, disk)
        else Commit(entry, snapshot, version, files + [File(path, text)], disk[path := text])
      case Rename(version, path, newPath) =>
        if path == entry then Refused(CannotRename, snapshot, disk)
        else if !Has(files, path) then Refused(NoSuchFile, snapshot, disk)
        else if Has(files, newPath) then Refused(FileExists, snapshot, disk)
        else if !io || path !in disk then Refused(DiskError, snapshot, disk)
        else Commit(entry, snapshot, version, WithPath(files, path, newPath), (disk - {path})[newPath := disk[path]])
      case Delete(version, path) =>
        if path == entry then Refused(CannotDelete, snapshot, disk)
        else if !Has(files, path) then Refused(NoSuchFile, snapshot, disk)
        else Commit(entry, snapshot, version, Without(files, path), disk - {path})
      case Reset(version, sources) => Replace(entry, snapshot, disk, version, sources, io)
  }

  /** What an accepted mutation means for the disk alone. */
  function Effect(disk: Disk, m: Mutation): Disk {
    match m
    case Update(_, path, text) => disk[path := text]
    case Create(_, path, text) => disk[path := text]
    case Rename(_, path, newPath) => if path in disk then (disk - {path})[newPath := disk[path]] else disk
    case Delete(_, path) => disk - {path}
    case Reset(_, sources) => DiskOf(sources)
  }

  // ---- what commits need ------------------------------------------------------------

  lemma {:induction false} FoundTextAt(files: seq<File>, path: string)
    requires Has(files, path)
    ensures TextAt(files, path).Some?
  {
    if files[0].path != path {
      var i :| 0 <= i < |files| && files[i].path == path;
      assert files[1..][i - 1].path == path;
      FoundTextAt(files[1..], path);
    }
  }

  lemma {:induction false} TextAtHas(files: seq<File>, path: string)
    requires TextAt(files, path).Some?
    ensures Has(files, path)
  {
    if files[0].path != path {
      TextAtHas(files[1..], path);
      var i :| 0 <= i < |files[1..]| && files[1..][i].path == path;
      assert files[i + 1].path == path;
    }
  }

  /** A commit succeeds, and leaves a good snapshot, whenever the new file list is unique, within limits and has the entry. */
  lemma {:induction false} CommitSucceeds(entry: string, snapshot: Snapshot, version: nat, files: seq<File>, disk: Disk)
    requires UniquePaths(files) && Has(files, entry) && WithinLimits(files)
    ensures var out := Commit(entry, snapshot, version, files, disk);
            && out.result.Ok? && out.disk == disk
            && out.snapshot.version == version && SnapshotOk(entry, out.snapshot)
            && (Mirrors(files, disk) ==> Mirrors(out.snapshot.files, disk))
  {
    SortKeeps(files);
    var i :| 0 <= i < |files| && files[i].path == entry;
    assert files[i] in Sort(files);
    assert Has(Sort(files), entry);
    FoundTextAt(Sort(files), entry);
    if Mirrors(files, disk) {
      MirrorsByMembers(files, Sort(files), disk);
    }
  }

  // ---- the new file lists ------------------------------------------------------------

  /** The same paths in the same places. */
  lemma {:induction false} WithTextPaths(files: seq<File>, path: string, text: Bytes)
    ensures var next := WithText(files, path, text);
            && |next| == |files|
            && (forall i :: 0 <= i < |files| ==> next[i] == if files[i].path == path then File(path, text) else files[i])
  {}

  lemma {:induction false} SamePathsHave(files: seq<File>, next: seq<File>, p: string)
    requires |next| == |files| && forall i :: 0 <= i < |files| ==> next[i].path == files[i].path
    ensures Has(files, p) ==> Has(next, p)
  {
    if i :| 0 <= i < |files| && files[i].path == p {
      assert next[i].path == p;
    }
  }

  lemma {:induction false} WithTextMirrors(files: seq<File>, path: string, text: Bytes, disk: Disk)
    requires Mirrors(files, disk)
    requires Has(files, path)
    ensures Mirrors(WithText(files, path, text), disk[path := text])
  {
    hide WithText, Has;
    var next := WithText(files, path, text);
    WithTextPaths(files, path, text);
    forall p | p in disk[path := text]
      ensures Has(next, p)
    {
      SamePathsHave(files, next, p);
    }
  }

  lemma {:induction false} WithTextKeeps(files: seq<File>, path: string, text: Bytes, entry: string, disk: Disk)
    requires UniquePaths(files) && Has(files, path)
    ensures var next := WithText(files, path, text);
            && UniquePaths(next) && |next| == |files|
            && (Has(files, entry) ==> Has(next, entry))
            && (Mirrors(files, disk) ==> Mirrors(next, disk[path := text]))
  {
    hide WithText, Has, Mirrors;
    WithTextPaths(files, path, text);
    SamePathsHave(files, WithText(files, path, text), entry);
    if Mirrors(files, disk) {
      WithTextMirrors(files, path, text, disk);
    }
  }

  lemma {:induction false} AppendedKeeps(files: seq<File>, f: File, entry: string, disk: Disk)
    requires UniquePaths(files) && !Has(files, f.path)
    ensures var next := files + [f];
            && UniquePaths(next)
            && (Has(files, entry) ==> Has(next, entry))
            && (Mirrors(files, disk) ==> Mirrors(next, disk[f.path := f.source]))
  {
    var next := files + [f];
    assert next[|files|].path == f.path;
    assert forall p :: Has(files, p) ==> Has(next, p) by {
      forall p | Has(files, p)
        ensures Has(next, p)
      {
        var i :| 0 <= i < |files| && files[i].path == p;
        assert next[i].path == p;
      }
    }
  }

  lemma {:induction false} SameSizes(a: seq<File>, b: seq<File>)
    requires |a| == |b| && forall i :: 0 <= i < |a| ==> |a[i].source| == |b[i].source|
    ensures TotalBytes(a) == TotalBytes(b)
  {
    if a != [] {
      SameSizes(a[1..], b[1..]);
    }
  }

  lemma {:induction false} WithPathHas(files: seq<File>, path: string, newPath: string)
    requires Has(files, path)
    ensures Has(WithPath(files, path, newPath), newPath)
    ensures forall p :: p != path && Has(files, p) ==> Has(WithPath(files, path, newPath), p)
  {
    var next := WithPath(files, path, newPath);
    var k :| 0 <= k < |files| && files[k].path == path;
    assert next[k].path == newPath;
    forall p | p != path && Has(files, p)
      ensures Has(next, p)
    {
      var i :| 0 <= i < |files| && files[i].path == p;
      assert next[i].path == p;
    }
  }

  lemma {:induction false} WithPathKeeps(files: seq<File>, path: string, newPath: string, entry: string)
    requires UniquePaths(files) && Has(files, path) && !Has(files, newPath) && path != entry
    ensures var next := WithPath(files, path, newPath);
            && UniquePaths(next) && |next| == |files| && TotalBytes(next) == TotalBytes(files)
            && (Has(files, entry) ==> Has(next, entry))
  {
    SameSizes(WithPath(files, path, newPath), files);
    WithPathHas(files, path, newPath);
  }

  lemma {:induction false} WithPathMirrors(files: seq<File>, path: string, newPath: string, disk: Disk)
    requires UniquePaths(files) && Has(files, path) && !Has(files, newPath) && Mirrors(files, disk)
    ensures path in disk && Mirrors(WithPath(files, path, newPath), (disk - {path})[newPath := disk[path]])
  {
    WithPathHas(files, path, newPath);
    var next := WithPath(files, path, newPath);
    var moved := (disk - {path})[newPath := disk[path]];
    forall i | 0 <= i < |next|
      ensures next[i].path in moved && moved[next[i].path] == next[i].source
    {
      assert files[i].path in disk && disk[files[i].path] == files[i].source;
    }
    assert forall p :: p in moved ==> p == newPath || (p != path && Has(files, p));
  }

  lemma {:induction false} WithoutKeeps(files: seq<File>, path: string)
    requires Sorted(files)
    ensures Sorted(Without(files, path))
    ensures |Without(files, path)| <= |files| && TotalBytes(Without(files, path)) <= TotalBytes(files)
    ensures forall g :: g in Without(files, path) <==> g in files && g.path != path
  {
    if files != [] {
      var rest := files[1..];
      WithoutKeeps(rest, path);
      var tail := Without(rest, path);
      forall j | 0 <= j < |tail|
        ensures Before(files[0].path, tail[j].path)
      {
        assert tail[j] in rest;
      }
      assert ([files[0]] + tail)[1..] == tail;
      assert files == [files[0]] + rest;
    }
  }

  lemma {:induction false} WithoutMirrors(files: seq<File>, path: string, entry: string, disk: Disk)
    requires Sorted(files) && path != entry
    ensures Has(files, entry) ==> Has(Without(files, path), entry)
    ensures Mirrors(files, disk) ==> Mirrors(Without(files, path), disk - {path})
  {
    WithoutKeeps(files, path);
    var next := Without(files, path);
    forall p | p != path && Has(files, p)
      ensures Has(next, p)
    {
      var i :| 0 <= i < |files| && files[i].path == p;
      assert files[i] in next;
    }
    if Mirrors(files, disk) {
      forall i | 0 <= i < |next|
        ensures next[i].path in disk - {path} && (disk - {path})[next[i].path] == next[i].source
      {
        assert next[i] in next && next[i] in files;
      }
    }
  }

  lemma {:induction false} DiskOfMirrors(files: seq<File>)
    requires UniquePaths(files)
    ensures Mirrors(files, DiskOf(files))
  {
    if files != [] {
      var front := files[..|files| - 1];
      DiskOfMirrors(front);
      forall p | p in DiskOf(files)
        ensures Has(files, p)
      {
        if p != files[|files| - 1].path {
          var i :| 0 <= i < |front| && front[i].path == p;
          assert files[i].path == p;
        }
      }
      forall i | 0 <= i < |files|
        ensures files[i].path in DiskOf(files) && DiskOf(files)[files[i].path] == files[i].source
      {
        assert i < |front| ==> front[i] == files[i];
      }
    }
  }

  // ---- the store's promises -----------------------------------------------------------

  /** From a good snapshot, an accepted mutation gives a good one at the client's newer version. */
  lemma {:induction false} AcceptedIsGood(entry: string, snapshot: Snapshot, disk: Disk, m: Mutation, io: bool)
    requires SnapshotOk(entry, snapshot) && Apply(entry, snapshot, disk, m, io).result.Ok?
    ensures var out := Apply(entry, snapshot, disk, m, io);
            && SnapshotOk(entry, out.snapshot)
            && out.snapshot.version == m.version > snapshot.version
            && out.disk == Effect(disk, m)
            && (Mirrors(snapshot.files, disk) ==> Mirrors(out.snapshot.files, out.disk))
  {
    ApplyIsGood(entry, snapshot, disk, m, io);
  }

  /** An error changes nothing: in particular no commit fails after the disk was written. */
  lemma {:induction false} ErrorChangesNothing(entry: string, snapshot: Snapshot, disk: Disk, m: Mutation, io: bool)
    requires SnapshotOk(entry, snapshot) && Apply(entry, snapshot, disk, m, io).result.Err?
    ensures var out := Apply(entry, snapshot, disk, m, io);
            out.snapshot == snapshot && out.disk == disk && out.result.error != EntryMissing
  {
    ApplyIsGood(entry, snapshot, disk, m, io);
  }

  ghost predicate GoodOutcome(entry: string, snapshot: Snapshot, disk: Disk, m: Mutation, out: Outcome) {
    if out.result.Ok? then
      && SnapshotOk(entry, out.snapshot)
      && out.snapshot.version == m.version > snapshot.version
      && out.disk == Effect(disk, m)
      && (Mirrors(snapshot.files, disk) ==> Mirrors(out.snapshot.files, out.disk))
    else
      out.snapshot == snapshot && out.disk == disk && out.result.error != EntryMissing
  }

  lemma {:induction false} ApplyIsGood(entry: string, snapshot: Snapshot, disk: Disk, m: Mutation, io: bool)
    requires SnapshotOk(entry, snapshot)
    ensures GoodOutcome(entry, snapshot, disk, m, Apply(entry, snapshot, disk, m, io))
  {
    if m.version > snapshot.version {
      SortedIsUnique(snapshot.files);
      TextAtHas(snapshot.files, entry);
      match m
      case Update(_, _, _) => UpdateIsGood(entry, snapshot, disk, m, io);
      case Create(_, _, _) => CreateIsGood(entry, snapshot, disk, m, io);
      case Rename(_, _, _) => RenameIsGood(entry, snapshot, disk, m, io);
      case Delete(_, _) => DeleteIsGood(entry, snapshot, disk, m, io);
      case Reset(_, _) => ResetIsGood(entry, snapshot, disk, m, io);
    }
  }

  lemma {:induction false} UpdateIsGood(entry: string, snapshot: Snapshot, disk: Disk, m: Mutation, io: bool)
    requires SnapshotOk(entry, snapshot) && UniquePaths(snapshot.files) && Has(snapshot.files, entry)
    requires m.Update? && m.version > snapshot.version
    ensures GoodOutcome(entry, snapshot, disk, m, Apply(entry, snapshot, disk, m, io))
  {
    if Has(snapshot.files, m.path) && TotalBytes(WithText(snapshot.files, m.path, m.text)) <= MAX_PROJECT_BYTES {
      WithTextKeeps(snapshot.files, m.path, m.text, entry, disk);
      CommitSucceeds(entry, snapshot, m.version, WithText(snapshot.files, m.path, m.text), disk[m.path := m.text]);
    }
  }

  lemma {:induction false} CreateIsGood(entry: string, snapshot: Snapshot, disk: Disk, m: Mutation, io: bool)
    requires SnapshotOk(entry, snapshot) && UniquePaths(snapshot.files) && Has(snapshot.files, entry)
    requires m.Create? && m.version > snapshot.version
    ensures GoodOutcome(entry, snapshot, disk, m, Apply(entry, snapshot, disk, m, io))
  {
    var next := snapshot.files + [File(m.path, m.text)];
    if |snapshot.files| < MAX_PROJECT_FILES && !Has(snapshot.files, m.path) && TotalBytes(next) <= MAX_PROJECT_BYTES {
      AppendedKeeps(snapshot.files, File(m.path, m.text), entry, disk);
      CommitSucceeds(entry, snapshot, m.version, next, disk[m.path := m.text]);
    }
  }

  lemma {:induction false} RenameIsGood(entry: string, snapshot: Snapshot, disk: Disk, m: Mutation, io: bool)
    requires SnapshotOk(entry, snapshot) && UniquePaths(snapshot.files) && Has(snapshot.files, entry)
    requires m.Rename? && m.version > snapshot.version
    ensures GoodOutcome(entry, snapshot, disk, m, Apply(entry, snapshot, disk, m, io))
  {
    if m.path != entry && Has(snapshot.files, m.path) && !Has(snapshot.files, m.newPath) && m.path in disk {
      WithPathKeeps(snapshot.files, m.path, m.newPath, entry);
      if Mirrors(snapshot.files, disk) {
        WithPathMirrors(snapshot.files, m.path, m.newPath, disk);
      }
      CommitSucceeds(entry, snapshot, m.version, WithPath(snapshot.files, m.path, m.newPath), (disk - {m.path})[m.newPath := disk[m.path]]);
    }
  }

  lemma {:induction false} DeleteIsGood(entry: string, snapshot: Snapshot, disk: Disk, m: Mutation, io: bool)
    requires SnapshotOk(entry, snapshot) && Has(snapshot.files, entry)
    requires m.Delete? && m.version > snapshot.version
    ensures GoodOutcome(entry, snapshot, disk, m, Apply(entry, snapshot, disk, m, io))
  {
    if m.path != entry {
      WithoutKeeps(snapshot.files, m.path);
      WithoutMirrors(snapshot.files, m.path, entry, disk);
      SortedIsUnique(Without(snapshot.files, m.path));
      CommitSucceeds(entry, snapshot, m.version, Without(snapshot.files, m.path), disk - {m.path});
    }
  }

  lemma {:induction false} ResetIsGood(entry: string, snapshot: Snapshot, disk: Disk, m: Mutation, io: bool)
    requires SnapshotOk(entry, snapshot)
    requires m.Reset? && m.version > snapshot.version
    ensures GoodOutcome(entry, snapshot, disk, m, Apply(entry, snapshot, disk, m, io))
  {
    if ValidSources(m.sources) && Has(m.sources, entry) {
      DiskOfMirrors(m.sources);
      CommitSucceeds(entry, snapshot, m.version, m.sources, DiskOf(m.sources));
    }
  }

  // ---- refreshing from the shared disk --------------------------------------------------

  /** `refresh_files`: same version, the files read back from the disk. */
  function Refreshed(entry: string, snapshot: Snapshot, order: seq<string>, disk: Disk): Outcome
    requires forall p :: p in order ==> p in disk
  {
    Commit(entry, snapshot, snapshot.version, ReadSources(order, disk), disk)
  }

  lemma {:induction false} SortingSortedIsIdentity(files: seq<File>)
    requires Sorted(files)
    ensures Sort(files) == files
  {
    if files != [] {
      SortingSortedIsIdentity(files[1..]);
      assert files == [files[0]] + files[1..];
      if |files| > 1 {
        assert Before(files[0].path, files[1].path);
      }
    }
  }

  /** A refresh never fails while the entry is on the disk, and shows the disk's one listing. */
  lemma {:induction false} RefreshShowsTheDisk(entry: string, snapshot: Snapshot, order: seq<string>, disk: Disk, listing: seq<File>)
    requires Enumerates(order, disk) && IsListing(listing, disk) && entry in disk
    ensures var out := Refreshed(entry, snapshot, order, disk);
            && out.result.Ok? && out.disk == disk
            && out.snapshot.version == snapshot.version && out.snapshot.files == listing
            && SnapshotOk(entry, out.snapshot)
  {
    ReadingIsCanonical(order, disk, listing);
    SortedIsUnique(listing);
    CommitSucceeds(entry, snapshot, snapshot.version, listing, disk);
    SortingSortedIsIdentity(listing);
  }
}
