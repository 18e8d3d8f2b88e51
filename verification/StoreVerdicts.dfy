/** Exactly when each edit of the store is accepted, why not otherwise, and what the files are then. */
module StoreVerdicts {
  import opened Common
  import opened Paths
  import opened Listing
  import opened Store

  /** Some file has this path. */
  predicate Among(files: seq<File>, path: string) {
    exists f :: f in files && f.path == path
  }

  lemma {:induction false} AmongIsHas(files: seq<File>, path: string)
    ensures Among(files, path) <==> Has(files, path)
  {
    if Has(files, path) {
      var i :| 0 <= i < |files| && files[i].path == path;
      assert files[i] in files;
    }
  }

  // ---- sizes -----------------------------------------------------------------------

  /** The size of a list is the sum over its files. */
  lemma {:induction false} SizeOfBoth(a: seq<File>, b: seq<File>)
    ensures TotalBytes([]) == 0
    ensures forall f: File :: TotalBytes([f]) == |f.source|
    ensures TotalBytes(a + b) == TotalBytes(a) + TotalBytes(b)
    decreases |a|
  {
    forall f: File
      ensures TotalBytes([f]) == |f.source|
    {
      assert [f][1..] == [];
    }
    if a == [] {
      assert a + b == b;
    } else {
      assert (a + b)[1..] == a[1..] + b;
      SizeOfBoth(a[1..], b);
    }
  }

  /** Replacing one file's text changes the size by the difference. */
  lemma {:induction false} SizeWithText(files: seq<File>, old_: File, text: Bytes)
    requires UniquePaths(files) && old_ in files
    ensures TotalBytes(WithText(files, old_.path, text)) + |old_.source| == TotalBytes(files) + |text|
    decreases |files|
  {
    var rest := files[1..];
    assert WithText(files, old_.path, text)[1..] == WithText(rest, old_.path, text);
    assert files == [files[0]] + rest;
    if files[0] == old_ {
      forall i | 0 <= i < |rest|
        ensures rest[i].path != old_.path
      {
        assert rest[i] == files[i + 1];
      }
      assert WithText(rest, old_.path, text) == rest;
    } else {
      var k :| 0 <= k < |files| && files[k] == old_;
      assert rest[k - 1] == old_ && files[0].path != old_.path;
      SizeWithText(rest, old_, text);
    }
  }

  // ---- when an edit is accepted -----------------------------------------------------------

  lemma {:induction false} GoodStart(entry: string, snapshot: Snapshot)
    requires SnapshotOk(entry, snapshot)
    ensures UniquePaths(snapshot.files) && Has(snapshot.files, entry)
  {
    SortedIsUnique(snapshot.files);
    TextAtHas(snapshot.files, entry);
  }

  /** An update of the file `was`, or of one that is not there. */
  lemma {:induction false} UpdateVerdict(entry: string, snapshot: Snapshot, disk: Disk, version: nat, path: string, text: Bytes, io: bool)
    requires SnapshotOk(entry, snapshot)
    ensures var r := Apply(entry, snapshot, disk, Update(version, path, text), io).result;
            && (r == Err(RegressiveVersion) <==> version <= snapshot.version)
            && (r == Err(NoSuchFile) <==> version > snapshot.version && !Among(snapshot.files, path))
            && (forall was :: was in snapshot.files && was.path == path && version > snapshot.version ==>
                  var size := TotalBytes(snapshot.files) - |was.source| + |text|;
                  && (r == Err(TooLarge) <==> size > 8388608)
                  && (r == Err(DiskError) <==> size <= 8388608 && !io)
                  && (r.Ok? <==> size <= 8388608 && io))
  {
    hide WithText, TotalBytes, Commit;
    var m := Update(version, path, text);
    GoodStart(entry, snapshot);
    AmongIsHas(snapshot.files, path);
    ApplyIsGood(entry, snapshot, disk, m, io);
    forall was | was in snapshot.files && was.path == path && version > snapshot.version
      ensures TotalBytes(WithText(snapshot.files, path, text)) == TotalBytes(snapshot.files) - |was.source| + |text|
    {
      SizeWithText(snapshot.files, was, text);
    }
    CommitErrors(entry, snapshot, version, WithText(snapshot.files, path, text), disk[path := text]);
  }

  /** A commit can only miss the entry file. */
  lemma {:induction false} CommitErrors(entry: string, snapshot: Snapshot, version: nat, files: seq<File>, disk: Disk)
    ensures var r := Commit(entry, snapshot, version, files, disk).result;
            r.Ok? || r == Err(EntryMissing)
  {}

  lemma {:induction false} CreateVerdict(entry: string, snapshot: Snapshot, disk: Disk, version: nat, path: string, text: Bytes, io: bool)
    requires SnapshotOk(entry, snapshot)
    ensures var r := Apply(entry, snapshot, disk, Create(version, path, text), io).result;
            var newer, room := version > snapshot.version, |snapshot.files| < 64;
            var free, size := !Among(snapshot.files, path), TotalBytes(snapshot.files) + |text|;
            && (r == Err(RegressiveVersion) <==> !newer)
            && (r == Err(TooManyFiles) <==> newer && !room)
            && (r == Err(FileExists) <==> newer && room && !free)
            && (r == Err(TooLarge) <==> newer && room && free && size > 8388608)
            && (r == Err(DiskError) <==> newer && room && free && size <= 8388608 && !io)
            && (r.Ok? <==> newer && room && free && size <= 8388608 && io)
  {
    hide TotalBytes, Commit;
    AmongIsHas(snapshot.files, path);
    var f := File(path, text);
    SizeOfBoth(snapshot.files, [f]);
    ApplyIsGood(entry, snapshot, disk, Create(version, path, text), io);
    CommitErrors(entry, snapshot, version, snapshot.files + [f], disk[path := text]);
  }

  lemma {:induction false} RenameVerdict(entry: string, snapshot: Snapshot, disk: Disk, version: nat, path: string, newPath: string, io: bool)
    requires SnapshotOk(entry, snapshot)
    ensures var r := Apply(entry, snapshot, disk, Rename(version, path, newPath), io).result;
            var newer, there, free := version > snapshot.version, Among(snapshot.files, path), !Among(snapshot.files, newPath);
            && (r == Err(RegressiveVersion) <==> !newer)
            && (r == Err(CannotRename) <==> newer && path == entry)
            && (r == Err(NoSuchFile) <==> newer && path != entry && !there)
            && (r == Err(FileExists) <==> newer && path != entry && there && !free)
            && (r == Err(DiskError) <==> newer && path != entry && there && free && !(io && path in disk))
            && (r.Ok? <==> newer && path != entry && there && free && io && path in disk)
  {
    hide Commit, WithPath;
    AmongIsHas(snapshot.files, path);
    AmongIsHas(snapshot.files, newPath);
    ApplyIsGood(entry, snapshot, disk, Rename(version, path, newPath), io);
    if path in disk {
      CommitErrors(entry, snapshot, version, WithPath(snapshot.files, path, newPath), (disk - {path})[newPath := disk[path]]);
    }
  }

  lemma {:induction false} DeleteVerdict(entry: string, snapshot: Snapshot, disk: Disk, version: nat, path: string, io: bool)
    requires SnapshotOk(entry, snapshot)
    ensures var r := Apply(entry, snapshot, disk, Delete(version, path), io).result;
            var newer, there := version > snapshot.version, Among(snapshot.files, path);
            && (r == Err(RegressiveVersion) <==> !newer)
            && (r == Err(CannotDelete) <==> newer && path == entry)
            && (r == Err(NoSuchFile) <==> newer && path != entry && !there)
            && (r.Ok? <==> newer && path != entry && there)
  {
    hide Commit, Without;
    AmongIsHas(snapshot.files, path);
    ApplyIsGood(entry, snapshot, disk, Delete(version, path), io);
    CommitErrors(entry, snapshot, version, Without(snapshot.files, path), disk - {path});
  }

  /** Sources fit for a whole tree: within the limits, each path once, none a directory of another, the entry among them. */
  predicate FitSources(entry: string, sources: seq<File>) {
    && 1 <= |sources| <= 64 && TotalBytes(sources) <= 8388608
    && (forall f :: f in sources ==> |f.source| <= 1048576)
    && (forall i, j :: 0 <= i < |sources| && 0 <= j < |sources| && i != j ==> sources[i].path != sources[j].path)
    && !(exists f, g :: f in sources && g in sources && f.path + "/" <= g.path)
    && Among(sources, entry)
  }

  lemma {:induction false} FitIsValid(entry: string, sources: seq<File>)
    ensures FitSources(entry, sources) <==> ValidSources(sources) && Has(sources, entry)
  {
    AmongIsHas(sources, entry);
    assert forall i :: 0 <= i < |sources| ==> sources[i] in sources;
  }

  lemma {:induction false} ReplaceVerdict(entry: string, snapshot: Snapshot, disk: Disk, version: nat, sources: seq<File>, io: bool)
    ensures var r := Replace(entry, snapshot, disk, version, sources, io).result;
            && (r == Err(InvalidSources) <==> !FitSources(entry, sources))
            && (r == Err(RegressiveVersion) <==> FitSources(entry, sources) && version < snapshot.version)
            && (r == Err(DiskError) <==> FitSources(entry, sources) && version >= snapshot.version && !io)
            && (r.Ok? <==> FitSources(entry, sources) && version >= snapshot.version && io)
  {
    hide Commit, FitSources, DiskOf;
    FitIsValid(entry, sources);
    CommitErrors(entry, snapshot, version, sources, DiskOf(sources));
    if ValidSources(sources) && Has(sources, entry) {
      CommitSucceeds(entry, snapshot, version, sources, DiskOf(sources));
    }
  }

  lemma {:induction false} ResetVerdict(entry: string, snapshot: Snapshot, disk: Disk, version: nat, sources: seq<File>, io: bool)
    ensures var r := Apply(entry, snapshot, disk, Reset(version, sources), io).result;
            && (r == Err(RegressiveVersion) <==> version <= snapshot.version)
            && (r == Err(InvalidSources) <==> version > snapshot.version && !FitSources(entry, sources))
            && (r == Err(DiskError) <==> version > snapshot.version && FitSources(entry, sources) && !io)
            && (r.Ok? <==> version > snapshot.version && FitSources(entry, sources) && io)
  {
    hide Replace, FitSources;
    ReplaceVerdict(entry, snapshot, disk, version, sources, io);
  }

  // ---- what the files are then ---------------------------------------------------------------

  /** The files that an accepted edit makes of the present ones. */
  ghost predicate Becomes(files: seq<File>, m: Mutation, next: seq<File>) {
    match m
    case Update(_, path, text) => forall g :: g in next <==> g == File(path, text) || (g in files && g.path != path)
    case Create(_, path, text) => forall g :: g in next <==> g == File(path, text) || g in files
    case Rename(_, path, newPath) =>
      forall g :: g in next <==> (g.path == newPath && File(path, g.source) in files) || (g in files && g.path != path)
    case Delete(_, path) => forall g :: g in next <==> g in files && g.path != path
    case Reset(_, sources) => forall g :: g in next <==> g in sources
  }

  lemma {:induction false} WithTextBecomes(files: seq<File>, path: string, text: Bytes)
    requires Has(files, path)
    ensures forall g :: g in WithText(files, path, text) <==> g == File(path, text) || (g in files && g.path != path)
  {
    var next := WithText(files, path, text);
    var k :| 0 <= k < |files| && files[k].path == path;
    assert next[k] == File(path, text);
    forall g | g in files && g.path != path
      ensures g in next
    {
      var i :| 0 <= i < |files| && files[i] == g;
      assert next[i] == g;
    }
  }

  lemma {:induction false} WithPathBecomes(files: seq<File>, path: string, newPath: string)
    requires !Has(files, newPath)
    ensures forall g :: g in WithPath(files, path, newPath) <==> (g.path == newPath && File(path, g.source) in files) || (g in files && g.path != path)
  {
    var next := WithPath(files, path, newPath);
    forall g: File | g.path == newPath && File(path, g.source) in files
      ensures g in next
    {
      var i :| 0 <= i < |files| && files[i] == File(path, g.source);
      assert next[i] == g;
    }
    forall g | g in files && g.path != path
      ensures g in next
    {
      var i :| 0 <= i < |files| && files[i] == g;
      assert next[i] == g;
    }
  }

  lemma {:induction false} CommitHolds(entry: string, snapshot: Snapshot, version: nat, files: seq<File>, disk: Disk)
    requires UniquePaths(files)
    ensures var out := Commit(entry, snapshot, version, files, disk);
            out.result.Ok? ==> forall g :: g in out.snapshot.files <==> g in files
  {
    SortKeeps(files);
  }

  lemma {:induction false} TextAtIs(files: seq<File>, path: string)
    requires TextAt(files, path).Some?
    ensures File(path, TextAt(files, path).value) in files
  {
    if files[0].path != path {
      TextAtIs(files[1..], path);
      assert files == [files[0]] + files[1..];
    }
  }

  /**
   * An accepted edit changes exactly the files it names; they are in collation
   * order, and the entry's text is the snapshot's source.
   */
  lemma {:induction false} AcceptedBecomes(entry: string, snapshot: Snapshot, disk: Disk, m: Mutation, io: bool)
    requires SnapshotOk(entry, snapshot) && Apply(entry, snapshot, disk, m, io).result.Ok?
    ensures var next := Apply(entry, snapshot, disk, m, io).snapshot;
            && Becomes(snapshot.files, m, next.files) && Sorted(next.files)
            && next.version == m.version && File(entry, next.source) in next.files
  {
    hide WithText, WithPath, Without, TotalBytes, Commit, TextAt, Mirrors;
    var files := snapshot.files;
    GoodStart(entry, snapshot);
    ApplyIsGood(entry, snapshot, disk, m, io);
    TextAtIs(Apply(entry, snapshot, disk, m, io).snapshot.files, entry);
    match m
    case Update(version, path, text) =>
      WithTextKeeps(files, path, text, entry, disk);
      WithTextBecomes(files, path, text);
      CommitHolds(entry, snapshot, version, WithText(files, path, text), disk[path := text]);
    case Create(version, path, text) =>
      AppendedKeeps(files, File(path, text), entry, disk);
      CommitHolds(entry, snapshot, version, files + [File(path, text)], disk[path := text]);
    case Rename(version, path, newPath) =>
      WithPathKeeps(files, path, newPath, entry);
      WithPathBecomes(files, path, newPath);
      CommitHolds(entry, snapshot, version, WithPath(files, path, newPath), (disk - {path})[newPath := disk[path]]);
    case Delete(version, path) =>
      WithoutKeeps(files, path);
      SortedIsUnique(Without(files, path));
      CommitHolds(entry, snapshot, version, Without(files, path), disk - {path});
    case Reset(version, sources) =>
      CommitHolds(entry, snapshot, version, sources, DiskOf(sources));
  }

  // ---- reading a disk that does not fit --------------------------------------------------------

  /** Whatever is on the disk, what is read is from it and within the limits. */
  lemma {:induction false} CollectFits(order: seq<string>, disk: Disk, found: seq<File>, total: nat)
    requires (forall p :: p in order ==> p in disk) && |found| <= 64 && total == TotalBytes(found) <= 8388608
    ensures var all := Collect(order, disk, found, total);
            && |all| <= 64 && TotalBytes(all) <= 8388608 && found <= all
            && forall f :: f in all[|found|..] ==> f.path in order && disk[f.path] == f.source
    decreases |order|
  {
    if order == [] {
    } else {
      var f := File(order[0], disk[order[0]]);
      SizeOfBoth(found, [f]);
      if |found| >= MAX_PROJECT_FILES || total + |f.source| > MAX_PROJECT_BYTES {
        CollectFits(order[1..], disk, found, total);
      } else {
        CollectFits(order[1..], disk, found + [f], total + |f.source|);
        var all := Collect(order[1..], disk, found + [f], total + |f.source|);
        assert all[|found|] == f;
        assert all[|found|..] == [f] + all[|found| + 1..];
      }
    }
  }
}
