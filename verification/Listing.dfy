/** File lists in collation order, and the disk they mirror. */
module Listing {
  import opened Common
  import opened Paths

  datatype File = File(path: string, source: Bytes)

  /** What is under `src/`: each file's text by its path. */
  type Disk = map<string, Bytes>

  predicate Has(files: seq<File>, path: string) {
    exists i :: 0 <= i < |files| && files[i].path == path
  }

  predicate UniquePaths(files: seq<File>) {
    forall i, j :: 0 <= i < j < |files| ==> files[i].path != files[j].path
  }

  predicate Sorted(files: seq<File>) {
    forall i, j :: 0 <= i < j < |files| ==> Before(files[i].path, files[j].path)
  }

  function TotalBytes(files: seq<File>): nat {
    if files == [] then 0 else |files[0].source| + TotalBytes(files[1..])
  }

  /** The disk holds exactly these files. */
  predicate Mirrors(files: seq<File>, disk: Disk) {
    && (forall i :: 0 <= i < |files| ==> files[i].path in disk && disk[files[i].path] == files[i].source)
    && (forall p :: p in disk ==> Has(files, p))
  }

  // ---- sorting ------------------------------------------------------------------

  /** Stable: a file goes after those it does not come before. */
  function Insert(f: File, files: seq<File>): seq<File> {
    if files == [] || Before(f.path, files[0].path) then [f] + files
    else [files[0]] + Insert(f, files[1..])
  }

  function Sort(files: seq<File>): seq<File> {
    if files == [] then [] else Insert(files[0], Sort(files[1..]))
  }

  lemma {:induction false} InsertKeeps(f: File, files: seq<File>)
    requires Sorted(files) && !Has(files, f.path)
    ensures Sorted(Insert(f, files))
    ensures |Insert(f, files)| == |files| + 1
    ensures TotalBytes(Insert(f, files)) == |f.source| + TotalBytes(files)
    ensures forall g :: g in Insert(f, files) <==> g == f || g in files
  {
    hide Before;
    if files == [] {
    } else if Before(f.path, files[0].path) {
      forall j | 0 <= j < |files|
        ensures Before(f.path, files[j].path)
      {
        StrictTotalOrder(f.path, files[0].path, files[j].path);
      }
      assert ([f] + files)[1..] == files;
    } else {
      var rest := files[1..];
      assert files == [files[0]] + rest;
      InsertKeeps(f, rest);
      var tail := Insert(f, rest);
      StrictTotalOrder(f.path, files[0].path, f.path);
      assert files[0].path != f.path;
      assert ([files[0]] + tail)[1..] == tail;
      forall j | 0 <= j < |tail|
        ensures Before(files[0].path, tail[j].path)
      {
        assert tail[j] in tail;
      }
    }
  }

  lemma {:induction false} SortKeeps(files: seq<File>)
    requires UniquePaths(files)
    ensures Sorted(Sort(files))
    ensures |Sort(files)| == |files|
    ensures TotalBytes(Sort(files)) == TotalBytes(files)
    ensures forall g :: g in Sort(files) <==> g in files
  {
    if files != [] {
      var rest := files[1..];
      SortKeeps(rest);
      forall i | 0 <= i < |Sort(rest)|
        ensures Sort(rest)[i].path != files[0].path
      {
        assert Sort(rest)[i] in rest;
      }
      InsertKeeps(files[0], Sort(rest));
      assert files == [files[0]] + rest;
    }
  }

  lemma {:induction false} SortedIsUnique(files: seq<File>)
    requires Sorted(files)
    ensures UniquePaths(files)
  {
    forall i, j | 0 <= i < j < |files|
      ensures files[i].path != files[j].path
    {
      StrictTotalOrder(files[i].path, files[j].path, files[i].path);
    }
  }

  lemma {:induction false} MirrorsByMembers(a: seq<File>, b: seq<File>, disk: Disk)
    requires forall g :: g in a <==> g in b
    requires Mirrors(a, disk)
    ensures Mirrors(b, disk)
  {
    forall i | 0 <= i < |b|
      ensures b[i].path in disk && disk[b[i].path] == b[i].source
    {
      assert b[i] in a;
    }
    forall p | p in disk
      ensures Has(b, p)
    {
      var i :| 0 <= i < |a| && a[i].path == p;
      assert a[i] in b;
    }
  }

  lemma {:induction false} RestMirrors(a: seq<File>, disk: Disk)
    requires a != [] && Sorted(a) && Mirrors(a, disk)
    ensures Sorted(a[1..]) && Mirrors(a[1..], disk - {a[0].path})
  {
    SortedIsUnique(a);
    forall p | p in disk - {a[0].path}
      ensures Has(a[1..], p)
    {
      var i :| 0 <= i < |a| && a[i].path == p;
      assert a[1..][i - 1].path == p;
    }
  }

  /** No file of a sorted list comes before its first. */
  lemma {:induction false} FirstIsFirst(a: seq<File>, path: string)
    requires Sorted(a) && Has(a, path)
    ensures path == a[0].path || Before(a[0].path, path)
  {}

  lemma {:induction false} SameFirst(a: seq<File>, b: seq<File>, disk: Disk)
    requires Sorted(a) && Sorted(b) && Mirrors(a, disk) && Mirrors(b, disk)
    requires a != [] && b != []
    ensures a[0] == b[0]
  {
    FirstIsFirst(a, b[0].path);
    FirstIsFirst(b, a[0].path);
    StrictTotalOrder(a[0].path, b[0].path, a[0].path);
  }

  /** Two listings of one disk agree from the first file on. */
  lemma {:induction false} ListingIsCanonical(a: seq<File>, b: seq<File>, disk: Disk)
    requires Sorted(a) && Sorted(b) && Mirrors(a, disk) && Mirrors(b, disk)
    ensures a == b
    decreases |a|
  {
    assert a != [] ==> Has(b, a[0].path);
    assert b != [] ==> Has(a, b[0].path);
    if a != [] {
      SameFirst(a, b, disk);
      RestMirrors(a, disk);
      RestMirrors(b, disk);
      ListingIsCanonical(a[1..], b[1..], disk - {a[0].path});
      assert a == [a[0]] + a[1..] && b == [b[0]] + b[1..];
    }
  }

  // ---- reading the disk -----------------------------------------------------------

  const MAX_PROJECT_FILES: nat := 64
  const MAX_PROJECT_BYTES: nat := 8 * 1024 * 1024

  /** The directory walk lists every file once, in no particular order. */
  ghost predicate Enumerates(order: seq<string>, disk: Disk) {
    && (forall i, j :: 0 <= i < j < |order| ==> order[i] != order[j])
    && (forall p :: p in order <==> p in disk)
  }

  function FilesAt(order: seq<string>, disk: Disk): seq<File>
    requires forall p :: p in order ==> p in disk
  {
    seq(|order|, i requires 0 <= i < |order| => File(order[i], disk[order[i]]))
  }

  /** Files beyond the store's limits are skipped as the walk meets them. */
  function Collect(order: seq<string>, disk: Disk, found: seq<File>, total: nat): seq<File>
    requires forall p :: p in order ==> p in disk
    decreases |order|
  {
    if order == [] then found
    else
      var text := disk[order[0]];
      if |found| >= MAX_PROJECT_FILES || total + |text| > MAX_PROJECT_BYTES then
        Collect(order[1..], disk, found, total)
      else
        Collect(order[1..], disk, found + [File(order[0], text)], total + |text|)
  }

  function ReadSources(order: seq<string>, disk: Disk): seq<File>
    requires forall p :: p in order ==> p in disk
  {
    Sort(Collect(order, disk, [], 0))
  }

  /** The one sorted listing of a disk that fits the store. */
  predicate IsListing(files: seq<File>, disk: Disk) {
    Sorted(files) && Mirrors(files, disk) && |files| <= MAX_PROJECT_FILES && TotalBytes(files) <= MAX_PROJECT_BYTES
  }

  lemma {:induction false} CollectsAll(order: seq<string>, disk: Disk, found: seq<File>, total: nat)
    requires forall p :: p in order ==> p in disk
    requires |found| + |order| <= MAX_PROJECT_FILES
    requires total + TotalBytes(FilesAt(order, disk)) <= MAX_PROJECT_BYTES
    ensures Collect(order, disk, found, total) == found + FilesAt(order, disk)
    decreases |order|
  {
    if order != [] {
      var f := File(order[0], disk[order[0]]);
      assert FilesAt(order, disk)[1..] == FilesAt(order[1..], disk);
      CollectsAll(order[1..], disk, found + [f], total + |f.source|);
      assert found + FilesAt(order, disk) == found + [f] + FilesAt(order[1..], disk);
    }
  }

  lemma {:induction false} EnumerationMirrors(order: seq<string>, disk: Disk)
    requires Enumerates(order, disk)
    ensures UniquePaths(FilesAt(order, disk)) && Mirrors(FilesAt(order, disk), disk)
  {
    var all := FilesAt(order, disk);
    forall p | p in disk
      ensures Has(all, p)
    {
      var i :| 0 <= i < |order| && order[i] == p;
      assert all[i].path == p;
    }
  }

  /** Whatever order the directory is walked in, reading a fitting disk gives its listing. */
  lemma {:induction false} ReadingIsCanonical(order: seq<string>, disk: Disk, listing: seq<File>)
    requires Enumerates(order, disk) && IsListing(listing, disk)
    ensures ReadSources(order, disk) == listing
  {
    var all := FilesAt(order, disk);
    EnumerationMirrors(order, disk);
    SortKeeps(all);
    MirrorsByMembers(all, Sort(all), disk);
    ListingIsCanonical(Sort(all), listing, disk);
    CollectsAll(order, disk, [], 0);
    assert [] + all == all;
  }
}
