/**
 * SourceFileStateService of
 * packages/main/src/app/source-file-state/source-file-state.service.ts: a
 * cache of the Source-A files keyed by path, holding each file's last seen
 * modification time and whether its `TXXX:DJBIBLIOTHEK` tag puts it in the
 * DJ library. The tag is read again only for new or modified files.
 */
module FileState {
  import opened Wrappers
  import opened Text
  import opened Assoc
  import opened Values
  import opened Mp3Tag

  /** A row of the `sourceFileState` table (the path is its key). */
  datatype FileState = FileState(lastModifiedAt: Option<nat>, inLibrary: bool, lastChecked: Option<nat>)

  /** The one tag the scan reads. */
  const LibraryTag: string := "TXXX:DJBIBLIOTHEK"

  /** The `sourceFileState` table. */
  class FileStateTable {
    var rows: Table<string, FileState>

    ghost predicate Valid()
      reads this
    {
      Unique(rows)
    }

    constructor ()
      ensures Valid() && rows == []
    {
      rows := [];
    }
  }

  /** The tag reads as a string whose lower case is not "nein". */
  predicate Membership(raw: Option<Value>) {
    raw.Some? && raw.value.Str? && ToLower(raw.value.s) != "nein"
  }

  /** The membership flag a fresh read of the file gives. */
  predicate InLibraryOnRead(o: ReadOutcome) {
    Membership(Find(ReadSpec(o, [LibraryTag]), LibraryTag))
  }

  /** The flag a fresh read gives, path by path. */
  function Flags(read: string -> ReadOutcome): string -> bool {
    p => InLibraryOnRead(read(p))
  }

  lemma FlagOfRead(read: string -> ReadOutcome, path: string, entries: Table<string, Value>)
    requires entries == ReadSpec(read(path), [LibraryTag])
    ensures Flags(read)(path) == Membership(Find(entries, LibraryTag))
  {
  }

  /** No row, a row without a time, or a row whose time differs: the tag must be read again. */
  predicate NeedsRead(existing: Option<FileState>, mtime: nat) {
    existing.None? || existing.value.lastModifiedAt.None? || existing.value.lastModifiedAt.value != mtime
  }

  /** The file has a readable time and its tag must be read again. */
  predicate Stale(rows: Table<string, FileState>, mtime: string -> Option<nat>, path: string) {
    mtime(path).Some? && NeedsRead(Find(rows, path), mtime(path).value)
  }

  /** One file of the loop: a stale file's row is updated, or created. */
  function Refresh(rows: Table<string, FileState>, flag: string -> bool, mtime: string -> Option<nat>,
                   now: nat, path: string): Table<string, FileState>
  {
    if Stale(rows, mtime, path) then Put(rows, path, FileState(mtime(path), flag(path), Some(now))) else rows
  }

  /** The table after the loop over `files`. */
  function ScanRows(rows: Table<string, FileState>, files: seq<string>, flag: string -> bool,
                    mtime: string -> Option<nat>, now: nat): Table<string, FileState>
  {
    if files == [] then rows
    else Refresh(ScanRows(rows, files[..|files| - 1], flag, mtime, now), flag, mtime, now, files[|files| - 1])
  }

  /** The number of files the loop over `files` updated. */
  function ScanCount(rows: Table<string, FileState>, files: seq<string>, flag: string -> bool,
                     mtime: string -> Option<nat>, now: nat): nat
  {
    if files == [] then 0
    else
      var init := files[..|files| - 1];
      ScanCount(rows, init, flag, mtime, now) + if Stale(ScanRows(rows, init, flag, mtime, now), mtime, files[|files| - 1]) then 1 else 0
  }

  /**
   * `scanAndUpdate()`: a missing Source-A root fails before anything is
   * listed; otherwise every listed file is visited in order and
   * `(total, updated)` is returned.
   */
  method ScanAndUpdate(store: FileStateTable, lib: NodeId3, root: Option<string>,
                       listFiles: string -> seq<string>, mtime: string -> Option<nat>, now: nat)
    returns (r: Result<(nat, nat)>)
    requires store.Valid()
    modifies store
    ensures store.Valid()
    ensures root.None? || root.value == "" ==> r.Failure? && store.rows == old(store.rows)
    ensures root.Some? && root.value != "" ==>
      && r == Success((|listFiles(root.value)|, ScanCount(old(store.rows), listFiles(root.value), Flags(lib.read), mtime, now)))
      && store.rows == ScanRows(old(store.rows), listFiles(root.value), Flags(lib.read), mtime, now)
  {
    if root.None? || root.value == "" {
      return Failure("Source A path not configured");
    }
    var files := listFiles(root.value);
    var updated := 0;
    ghost var start := store.rows;
    ghost var flag := Flags(lib.read);
    for i := 0 to |files|
      invariant store.Valid()
      invariant store.rows == ScanRows(start, files[..i], flag, mtime, now)
      invariant updated == ScanCount(start, files[..i], flag, mtime, now)
    {
      ScanStep(start, files, i, flag, mtime, now);
      var changed := ScanFile(store, lib, files[i], mtime, now);
      if changed {
        updated := updated + 1;
      }
    }
    assert files[..|files|] == files;
    r := Success((|files|, updated));
  }

  /** The body of the loop for one file: re-read its tag and upsert its row if it is stale. */
  method ScanFile(store: FileStateTable, lib: NodeId3, path: string, mtime: string -> Option<nat>, now: nat)
    returns (changed: bool)
    requires store.Valid()
    modifies store
    ensures store.Valid()
    ensures changed == Stale(old(store.rows), mtime, path)
    ensures store.rows == Refresh(old(store.rows), Flags(lib.read), mtime, now, path)
  {
    var m := mtime(path);
    if m.None? {
      return false;
    }
    var existing := Find(store.rows, path);
    var shouldRead := false;
    if existing.None? {
      shouldRead := true;
    } else if existing.value.lastModifiedAt.None? || existing.value.lastModifiedAt.value != m.value {
      shouldRead := true;
    }
    if !shouldRead {
      return false;
    }
    var tags := ReadTags(lib, path, [LibraryTag]);
    var raw := tags.Get(LibraryTag);
    var inLibrary := raw.Some? && raw.value.Str? && ToLower(raw.value.s) != "nein";
    FlagOfRead(lib.read, path, tags.entries);
    var row := FileState(Some(m.value), inLibrary, Some(now));
    // update the row, or create it
    PutKeepsUnique(store.rows, path, row);
    store.rows := Put(store.rows, path, row);
    changed := true;
  }

  lemma ScanStep(rows: Table<string, FileState>, files: seq<string>, i: nat, flag: string -> bool,
                 mtime: string -> Option<nat>, now: nat)
    requires i < |files|
    ensures ScanRows(rows, files[..i + 1], flag, mtime, now) == Refresh(ScanRows(rows, files[..i], flag, mtime, now), flag, mtime, now, files[i])
    ensures ScanCount(rows, files[..i + 1], flag, mtime, now)
      == ScanCount(rows, files[..i], flag, mtime, now) + if Stale(ScanRows(rows, files[..i], flag, mtime, now), mtime, files[i]) then 1 else 0
  {
    var prefix := files[..i + 1];
    assert prefix[..|prefix| - 1] == files[..i];
  }

  // ---------------------------------------------------------------------
  // Properties of the scan

  /** `updated` never exceeds `total`. */
  lemma {:induction false} ScanCountBound(rows: Table<string, FileState>, files: seq<string>, flag: string -> bool,
                                          mtime: string -> Option<nat>, now: nat)
    ensures ScanCount(rows, files, flag, mtime, now) <= |files|
  {
    if files != [] {
      ScanCountBound(rows, files[..|files| - 1], flag, mtime, now);
    }
  }

  /**
   * The row of each path after the scan: a listed file with a readable time
   * that needed a fresh read holds that time, the flag read now and `now`;
   * every other row (files skipped for lack of a time, files unchanged since
   * the last scan, paths not listed) is what it was. No row is dropped, and a
   * row is added only for a path that needed a read.
   */
  lemma {:induction false} ScanLookup(rows: Table<string, FileState>, files: seq<string>, flag: string -> bool,
                                      mtime: string -> Option<nat>, now: nat, p: string)
    ensures Find(ScanRows(rows, files, flag, mtime, now), p) ==
      if p in files && Stale(rows, mtime, p)
      then Some(FileState(mtime(p), flag(p), Some(now)))
      else Find(rows, p)
  {
    if files != [] {
      var init, f := files[..|files| - 1], files[|files| - 1];
      ScanLookup(rows, init, flag, mtime, now, p);
      assert files == init + [f];
      assert p in files <==> p in init || p == f;
    }
  }

  /** A scan keeps the table free of repeated paths. */
  lemma {:induction false} ScanKeepsUnique(rows: Table<string, FileState>, files: seq<string>, flag: string -> bool,
                                           mtime: string -> Option<nat>, now: nat)
    requires Unique(rows)
    ensures Unique(ScanRows(rows, files, flag, mtime, now))
  {
    if files != [] {
      var init, f := files[..|files| - 1], files[|files| - 1];
      ScanKeepsUnique(rows, init, flag, mtime, now);
      var before := ScanRows(rows, init, flag, mtime, now);
      PutKeepsUnique(before, f, FileState(mtime(f), flag(f), Some(now)));
    }
  }

  /** Every listed path with a readable time is up to date after the scan. */
  predicate UpToDate(rows: Table<string, FileState>, files: seq<string>, mtime: string -> Option<nat>) {
    forall i :: 0 <= i < |files| ==> !Stale(rows, mtime, files[i])
  }

  lemma ScanMakesUpToDate(rows: Table<string, FileState>, files: seq<string>, flag: string -> bool,
                          mtime: string -> Option<nat>, now: nat)
    ensures UpToDate(ScanRows(rows, files, flag, mtime, now), files, mtime)
  {
    forall i | 0 <= i < |files|
      ensures !Stale(ScanRows(rows, files, flag, mtime, now), mtime, files[i])
    {
      ScanLookup(rows, files, flag, mtime, now, files[i]);
    }
  }

  /** Over a table that is up to date, a scan changes nothing and counts no update. */
  lemma {:induction false} UpToDateScan(rows: Table<string, FileState>, files: seq<string>, flag: string -> bool,
                                        mtime: string -> Option<nat>, now: nat)
    requires UpToDate(rows, files, mtime)
    ensures ScanRows(rows, files, flag, mtime, now) == rows
    ensures ScanCount(rows, files, flag, mtime, now) == 0
  {
    if files != [] {
      var init := files[..|files| - 1];
      assert forall i :: 0 <= i < |init| ==> init[i] == files[i];
      UpToDateScan(rows, init, flag, mtime, now);
      assert !Stale(rows, mtime, files[|files| - 1]);
    }
  }

  /** A second scan with unchanged times (and any later clock) reports no update and leaves the table as it is. */
  lemma SecondScan(rows: Table<string, FileState>, files: seq<string>, flag: string -> bool,
                   mtime: string -> Option<nat>, now: nat, later: nat)
    ensures ScanRows(ScanRows(rows, files, flag, mtime, now), files, flag, mtime, later) == ScanRows(rows, files, flag, mtime, now)
    ensures ScanCount(ScanRows(rows, files, flag, mtime, now), files, flag, mtime, later) == 0
  {
    ScanMakesUpToDate(rows, files, flag, mtime, now);
    UpToDateScan(ScanRows(rows, files, flag, mtime, now), files, flag, mtime, later);
  }

  /** A file the library gives no tags for, or whose tag is absent, is not in the library. */
  lemma MembershipOfRead(o: ReadOutcome)
    ensures InLibraryOnRead(o) <==>
      o.Tags? && !AnyThrows(Resolver(o.top), [LibraryTag]) && Resolve(o.top, LibraryTag).Found?
      && Resolve(o.top, LibraryTag).v.Str? && ToLower(Resolve(o.top, LibraryTag).v.s) != "nein"
  {
    ReadSpecLookup(o, [LibraryTag], LibraryTag);
  }

  // ---------------------------------------------------------------------
  // listInLibrary

  /** `listInLibrary()`: path and time of every row flagged as in the library, in row order. */
  function InLibrary(rows: Table<string, FileState>): (r: seq<(string, Option<nat>)>)
    ensures |r| <= |rows|
    ensures forall x :: x in r <==>
      exists i :: 0 <= i < |rows| && rows[i].1.inLibrary && x == (rows[i].0, rows[i].1.lastModifiedAt)
  {
    if rows == [] then []
    else
      var rest := InLibrary(rows[1..]);
      assert forall i :: 1 <= i < |rows| ==> rows[i] == rows[1..][i - 1];
      if rows[0].1.inLibrary then [(rows[0].0, rows[0].1.lastModifiedAt)] + rest else rest
  }

  function ListInLibrary(store: FileStateTable): seq<(string, Option<nat>)>
    reads store
  {
    InLibrary(store.rows)
  }
}
