/** A session's snapshot and the disk under it, updated in place. */
module SessionStore {
  import opened Common
  import opened Paths
  import opened Listing
  import opened Store
  import opened StoreVerdicts

  /** `src/`, shared by every session of one workspace. */
  class SourceTree {
    var files: Disk

    constructor (files: Disk)
      ensures this.files == files
    {
      this.files := files;
    }
  }

  class Session {
    const entry: string
    /** Attached to a persistent workspace. */
    const shared: bool
    const tree: SourceTree
    var snapshot: Snapshot

    predicate Valid()
      reads this
    {
      SnapshotOk(entry, snapshot)
    }

    function Now(result: Result<(), StoreError>): Outcome
      reads this, tree
    {
      Outcome(result, snapshot, tree.files)
    }

    constructor (entry: string, shared: bool, tree: SourceTree, snapshot: Snapshot)
      requires SnapshotOk(entry, snapshot)
      ensures Valid() && this.entry == entry && this.shared == shared && this.tree == tree && this.snapshot == snapshot
    {
      this.entry, this.shared, this.tree, this.snapshot := entry, shared, tree, snapshot;
    }

    method CommitFiles(version: nat, files: seq<File>) returns (r: Result<(), StoreError>)
      modifies this
      ensures Now(r) == old(Commit(entry, snapshot, version, files, tree.files))
      ensures r.Ok? ==> snapshot.version == version && snapshot.files == Sort(files)
      ensures r.Err? ==> snapshot == old(snapshot)
    {
      var sorted := Sort(files);
      var main := TextAt(sorted, entry);
      if main.None? {
        return Err(EntryMissing);
      }
      snapshot := Snapshot(version, main.value, sorted);
      return Ok(());
    }

    method UpdateFile(version: nat, path: string, text: Bytes, io: bool) returns (r: Result<(), StoreError>)
      requires Valid()
      modifies this, tree
      ensures Now(r) == old(Apply(entry, snapshot, tree.files, Update(version, path, text), io))
      ensures Valid() && snapshot.version >= old(snapshot.version)
      ensures r.Err? ==> snapshot == old(snapshot) && tree.files == old(tree.files)
      ensures r.Ok? ==> snapshot.version == version && tree.files == old(tree.files)[path := text]
      ensures r.Ok? <==> version > old(snapshot.version) && io
                         && exists f :: f in old(snapshot.files) && f.path == path
                                        && TotalBytes(old(snapshot.files)) - |f.source| + |text| <= 8388608
      ensures r.Ok? ==> Becomes(old(snapshot.files), Update(version, path, text), snapshot.files) && Sorted(snapshot.files)
    {
      UpdateVerdict(entry, snapshot, tree.files, version, path, text, io);
      Accepted(entry, snapshot, tree.files, Update(version, path, text), io);
      ApplyIsGood(entry, snapshot, tree.files, Update(version, path, text), io);
      if version <= snapshot.version {
        return Err(RegressiveVersion);
      }
      if !Has(snapshot.files, path) {
        return Err(NoSuchFile);
      }
      var files := WithText(snapshot.files, path, text);
      if TotalBytes(files) > MAX_PROJECT_BYTES {
        return Err(TooLarge);
      }
      if !io {
        return Err(DiskError);
      }
      tree.files := tree.files[path := text];
      r := CommitFiles(version, files);
    }

    method CreateFile(version: nat, path: string, text: Bytes, io: bool) returns (r: Result<(), StoreError>)
      requires Valid()
      modifies this, tree
      ensures Now(r) == old(Apply(entry, snapshot, tree.files, Create(version, path, text), io))
      ensures Valid() && snapshot.version >= old(snapshot.version)
      ensures r.Err? ==> snapshot == old(snapshot) && tree.files == old(tree.files)
      ensures r.Ok? ==> snapshot.version == version && tree.files == old(tree.files)[path := text]
      ensures r.Ok? <==> version > old(snapshot.version) && io && |old(snapshot.files)| < 64
                         && !Among(old(snapshot.files), path) && TotalBytes(old(snapshot.files)) + |text| <= 8388608
      ensures r.Ok? ==> Becomes(old(snapshot.files), Create(version, path, text), snapshot.files) && Sorted(snapshot.files)
    {
      CreateVerdict(entry, snapshot, tree.files, version, path, text, io);
      Accepted(entry, snapshot, tree.files, Create(version, path, text), io);
      ApplyIsGood(entry, snapshot, tree.files, Create(version, path, text), io);
      if version <= snapshot.version {
        return Err(RegressiveVersion);
      }
      if |snapshot.files| >= MAX_PROJECT_FILES {
        return Err(TooManyFiles);
      }
      if Has(snapshot.files, path) {
        return Err(FileExists);
      }
      var files := snapshot.files + [File(path, text)];
      if TotalBytes(files) > MAX_PROJECT_BYTES {
        return Err(TooLarge);
      }
      if !io {
        return Err(DiskError);
      }
      tree.files := tree.files[path := text];
      r := CommitFiles(version, files);
    }

    method RenameFile(version: nat, path: string, newPath: string, io: bool) returns (r: Result<(), StoreError>)
      requires Valid()
      modifies this, tree
      ensures Now(r) == old(Apply(entry, snapshot, tree.files, Rename(version, path, newPath), io))
      ensures Valid() && snapshot.version >= old(snapshot.version)
      ensures r.Err? ==> snapshot == old(snapshot) && tree.files == old(tree.files)
      ensures r.Ok? ==> path in old(tree.files) && tree.files == (old(tree.files) - {path})[newPath := old(tree.files)[path]]
      ensures r.Ok? <==> version > old(snapshot.version) && io && path != entry && path in old(tree.files)
                         && Among(old(snapshot.files), path) && !Among(old(snapshot.files), newPath)
      ensures r.Ok? ==> Becomes(old(snapshot.files), Rename(version, path, newPath), snapshot.files) && Sorted(snapshot.files)
    {
      RenameVerdict(entry, snapshot, tree.files, version, path, newPath, io);
      Accepted(entry, snapshot, tree.files, Rename(version, path, newPath), io);
      ApplyIsGood(entry, snapshot, tree.files, Rename(version, path, newPath), io);
      if version <= snapshot.version {
        return Err(RegressiveVersion);
      }
      if entry == path {
        return Err(CannotRename);
      }
      if !Has(snapshot.files, path) {
        return Err(NoSuchFile);
      }
      if Has(snapshot.files, newPath) {
        return Err(FileExists);
      }
      if !io || path !in tree.files {
        return Err(DiskError);
      }
      tree.files := (tree.files - {path})[newPath := tree.files[path]];
      r := CommitFiles(version, WithPath(snapshot.files, path, newPath));
    }

    method DeleteFile(version: nat, path: string) returns (r: Result<(), StoreError>)
      requires Valid()
      modifies this, tree
      ensures Now(r) == old(Apply(entry, snapshot, tree.files, Delete(version, path), true))
      ensures Valid() && snapshot.version >= old(snapshot.version)
      ensures r.Err? ==> snapshot == old(snapshot) && tree.files == old(tree.files)
      ensures r.Ok? ==> path != entry && tree.files == old(tree.files) - {path}
      ensures r.Ok? <==> version > old(snapshot.version) && path != entry && Among(old(snapshot.files), path)
      ensures r.Ok? ==> Becomes(old(snapshot.files), Delete(version, path), snapshot.files) && Sorted(snapshot.files)
    {
      DeleteVerdict(entry, snapshot, tree.files, version, path, true);
      Accepted(entry, snapshot, tree.files, Delete(version, path), true);
      ApplyIsGood(entry, snapshot, tree.files, Delete(version, path), true);
      if version <= snapshot.version {
        return Err(RegressiveVersion);
      }
      if entry == path {
        return Err(CannotDelete);
      }
      if !Has(snapshot.files, path) {
        return Err(NoSuchFile);
      }
      tree.files := tree.files - {path};
      r := CommitFiles(version, Without(snapshot.files, path));
    }

    method ReplaceFiles(version: nat, sources: seq<File>, io: bool) returns (r: Result<(), StoreError>)
      requires Valid()
      modifies this, tree
      ensures Now(r) == old(Replace(entry, snapshot, tree.files, version, sources, io))
      ensures Valid() && snapshot.version >= old(snapshot.version)
      ensures r.Err? ==> snapshot == old(snapshot) && tree.files == old(tree.files)
      ensures r.Ok? ==> Mirrors(snapshot.files, tree.files) && tree.files == DiskOf(sources)
      ensures r.Ok? <==> FitSources(entry, sources) && version >= old(snapshot.version) && io
      ensures r.Ok? ==> snapshot.version == version && Sorted(snapshot.files) && forall f :: f in snapshot.files <==> f in sources
    {
      hide FitSources, DiskOf, Mirrors, Sort, Committed, SnapshotOk;
      ReplaceVerdict(entry, snapshot, tree.files, version, sources, io);
      Replaced(entry, snapshot, tree.files, version, sources, io);
      if !ValidSources(sources) || !Has(sources, entry) {
        return Err(InvalidSources);
      }
      if version < snapshot.version {
        return Err(RegressiveVersion);
      }
      if !io {
        return Err(DiskError);
      }
      tree.files := DiskOf(sources);
      r := CommitFiles(version, sources);
    }

    method ResetFiles(version: nat, sources: seq<File>, io: bool) returns (r: Result<(), StoreError>)
      requires Valid()
      modifies this, tree
      ensures Now(r) == old(Apply(entry, snapshot, tree.files, Reset(version, sources), io))
      ensures Valid() && snapshot.version >= old(snapshot.version)
      ensures r.Ok? <==> version > old(snapshot.version) && FitSources(entry, sources) && io
      ensures r.Ok? ==> Becomes(old(snapshot.files), Reset(version, sources), snapshot.files) && Sorted(snapshot.files)
    {
      ResetVerdict(entry, snapshot, tree.files, version, sources, io);
      Accepted(entry, snapshot, tree.files, Reset(version, sources), io);
      if version <= snapshot.version {
        return Err(RegressiveVersion);
      }
      r := ReplaceFiles(version, sources, io);
    }

    /** `order` is the order in which the directory walk meets the files. */
    method RefreshFiles(order: seq<string>) returns (r: Result<(), StoreError>)
      requires Valid() && Enumerates(order, tree.files)
      modifies this
      ensures snapshot.version == old(snapshot.version)
      ensures !shared ==> r.Ok? && snapshot == old(snapshot)
      ensures shared ==> Now(r) == old(Refreshed(entry, snapshot, order, tree.files))
      ensures shared && r.Err? ==> snapshot == old(snapshot)
      ensures forall listing :: shared && IsListing(listing, tree.files) && entry in tree.files ==>
                r.Ok? && snapshot.files == listing && Valid()
    {
      if !shared {
        return Ok(());
      }
      forall listing | IsListing(listing, tree.files) && entry in tree.files
        ensures Refreshed(entry, snapshot, order, tree.files).result.Ok?
        ensures Refreshed(entry, snapshot, order, tree.files).snapshot.files == listing
        ensures SnapshotOk(entry, Refreshed(entry, snapshot, order, tree.files).snapshot)
      {
        RefreshShowsTheDisk(entry, snapshot, order, tree.files, listing);
      }
      r := CommitFiles(snapshot.version, ReadSources(order, tree.files));
    }
  }

  lemma {:induction false} Accepted(entry: string, snapshot: Snapshot, disk: Disk, m: Mutation, io: bool)
    requires SnapshotOk(entry, snapshot)
    ensures var out := Apply(entry, snapshot, disk, m, io);
            out.result.Ok? ==> Becomes(snapshot.files, m, out.snapshot.files) && Sorted(out.snapshot.files)
  {
    hide Apply, Becomes, Sorted;
    if Apply(entry, snapshot, disk, m, io).result.Ok? {
      AcceptedBecomes(entry, snapshot, disk, m, io);
    }
  }

  lemma {:induction false} Replaced(entry: string, snapshot: Snapshot, disk: Disk, version: nat, sources: seq<File>, io: bool)
    ensures var out := Replace(entry, snapshot, disk, version, sources, io);
            if out.result.Ok? then
              && out.disk == DiskOf(sources) && Mirrors(out.snapshot.files, out.disk) && SnapshotOk(entry, out.snapshot)
              && out.snapshot.version == version && Sorted(out.snapshot.files)
              && forall f :: f in out.snapshot.files <==> f in sources
            else out.snapshot == snapshot && out.disk == disk
  {
    hide Sorted, Mirrors, SnapshotOk, WithinLimits, DiskOf, Commit;
    if ValidSources(sources) && Has(sources, entry) {
      DiskOfMirrors(sources);
      SourcesFit(sources);
      CommitSucceeds(entry, snapshot, version, sources, DiskOf(sources));
      CommitHolds(entry, snapshot, version, sources, DiskOf(sources));
      CommitDisk(entry, snapshot, version, sources, DiskOf(sources));
      SortedWhenOk(entry, Commit(entry, snapshot, version, sources, DiskOf(sources)).snapshot);
    }
  }

  lemma {:induction false} SourcesFit(sources: seq<File>)
    requires ValidSources(sources)
    ensures WithinLimits(sources) && UniquePaths(sources)
  {}

  lemma {:induction false} CommitDisk(entry: string, snapshot: Snapshot, version: nat, files: seq<File>, disk: Disk)
    ensures Commit(entry, snapshot, version, files, disk).disk == disk
  {}

  lemma {:induction false} SortedWhenOk(entry: string, snapshot: Snapshot)
    requires SnapshotOk(entry, snapshot)
    ensures Sorted(snapshot.files)
  {}
}
