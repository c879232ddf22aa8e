/**
 * The FileMappingState table and PairingService of
 * packages/main/src/app/pairing/pairing.service.ts: one row per Source-A
 * path, naming its Source-B partner and when the pair was last synced.
 */
module Pairing {
  import opened Wrappers
  import opened Assoc

  /** A FileMappingState row without its key; `lastSyncTimestamp` is none until the first sync. */
  datatype Mapping = Mapping(sourceBPath: string, lastSyncTimestamp: Option<nat>)

  /** `{sourceAPath, sourceBPath}`: an entry to save, and a row as `getMappings` lists it. */
  datatype Pair = Pair(sourceAPath: string, sourceBPath: string)

  /** The `{count}` that `saveMappings` resolves to. */
  datatype Saved = Saved(count: nat)

  /** The FileMappingState table, keyed by `sourceAPath`. */
  class MappingTable {
    var rows: Table<string, Mapping>

    ghost predicate Valid()
      reads this
    {
      Unique(rows)
    }

    constructor ()
      ensures Valid() && rows == []
    {
      rows := [];
    }
  }

  // ---------------------------------------------------------------------
  // upsert

  /** One `upsert`: a new key is created with no sync time, an existing row only gets the new `sourceBPath`. */
  function Upserted(rows: Table<string, Mapping>, e: Pair): Table<string, Mapping> {
    var existing := Find(rows, e.sourceAPath);
    Put(rows, e.sourceAPath,
      if existing.Some? then existing.value.(sourceBPath := e.sourceBPath) else Mapping(e.sourceBPath, None))
  }

  /** The entries upserted one after the other, in order. */
  function UpsertedAll(rows: Table<string, Mapping>, es: seq<Pair>): Table<string, Mapping> {
    if es == [] then rows else Upserted(UpsertedAll(rows, es[..|es| - 1]), es[|es| - 1])
  }

  /** The entries as (key, value) pairs. */
  function AsPairs(es: seq<Pair>): (r: seq<(string, string)>)
    ensures |r| == |es|
    ensures forall i :: 0 <= i < |es| ==> r[i] == (es[i].sourceAPath, es[i].sourceBPath)
  {
    seq(|es|, i requires 0 <= i < |es| => (es[i].sourceAPath, es[i].sourceBPath))
  }

  method Upsert(store: MappingTable, e: Pair)
    requires store.Valid()
    modifies store
    ensures store.Valid()
    ensures store.rows == Upserted(old(store.rows), e)
  {
    var existing := Find(store.rows, e.sourceAPath);
    var row := if existing.Some? then existing.value.(sourceBPath := e.sourceBPath) else Mapping(e.sourceBPath, None);
    PutKeepsUnique(store.rows, e.sourceAPath, row);
    store.rows := Put(store.rows, e.sourceAPath, row);
  }

  lemma UpsertedStep(rows: Table<string, Mapping>, es: seq<Pair>, i: nat)
    requires i < |es|
    ensures UpsertedAll(rows, es[..i + 1]) == Upserted(UpsertedAll(rows, es[..i]), es[i])
  {
    assert es[..i + 1][..i] == es[..i];
  }

  /** `upsertMappings(entries)`: every entry is upserted in order, and the number of entries is returned. */
  method UpsertMappings(store: MappingTable, entries: seq<Pair>) returns (count: nat)
    requires store.Valid()
    modifies store
    ensures store.Valid()
    ensures store.rows == UpsertedAll(old(store.rows), entries)
    ensures count == |entries|
  {
    count := 0;
    for i := 0 to |entries|
      invariant count == i
      invariant store.Valid()
      invariant store.rows == UpsertedAll(old(store.rows), entries[..i])
    {
      UpsertedStep(old(store.rows), entries, i);
      Upsert(store, entries[i]);
      count := count + 1;
    }
    assert entries[..|entries|] == entries;
  }

  /** `saveMappings(entries)`: its own loop, with the same effect on the table as `upsertMappings`. */
  method SaveMappings(store: MappingTable, entries: seq<Pair>) returns (r: Saved)
    requires store.Valid()
    modifies store
    ensures store.Valid()
    ensures store.rows == UpsertedAll(old(store.rows), entries)
    ensures r.count == |entries|
  {
    var count := 0;
    for i := 0 to |entries|
      invariant count == i
      invariant store.Valid()
      invariant store.rows == UpsertedAll(old(store.rows), entries[..i])
    {
      UpsertedStep(old(store.rows), entries, i);
      Upsert(store, entries[i]);
      count := count + 1;
    }
    assert entries[..|entries|] == entries;
    r := Saved(count);
  }

  /**
   * After the upserts a key named by some entry holds the `sourceBPath` of the
   * last such entry and keeps the sync time it had (none for a new row); a key
   * named by no entry keeps its row, or stays absent.
   */
  lemma {:induction false} UpsertedAllLookup(rows: Table<string, Mapping>, es: seq<Pair>, k: string)
    ensures Find(UpsertedAll(rows, es), k) ==
      match LastValue(AsPairs(es), k)
      case None => Find(rows, k)
      case Some(b) => Some(Mapping(b, if Find(rows, k).Some? then Find(rows, k).value.lastSyncTimestamp else None))
  {
    if es != [] {
      var init := es[..|es| - 1];
      UpsertedAllLookup(rows, init, k);
      assert AsPairs(es)[..|es| - 1] == AsPairs(init);
    }
  }

  /** The table never holds two rows for one `sourceAPath`. */
  lemma {:induction false} UpsertedAllUnique(rows: Table<string, Mapping>, es: seq<Pair>)
    requires Unique(rows)
    ensures Unique(UpsertedAll(rows, es))
  {
    if es != [] {
      var before := UpsertedAll(rows, es[..|es| - 1]);
      UpsertedAllUnique(rows, es[..|es| - 1]);
      var e := es[|es| - 1];
      var existing := Find(before, e.sourceAPath);
      PutKeepsUnique(before, e.sourceAPath,
        if existing.Some? then existing.value.(sourceBPath := e.sourceBPath) else Mapping(e.sourceBPath, None));
    }
  }

  // ---------------------------------------------------------------------
  // getMappings

  /** Every row as its `{sourceAPath, sourceBPath}` pair, in row order. */
  function Listed(rows: Table<string, Mapping>): (r: seq<Pair>)
    ensures |r| == |rows|
    ensures forall i :: 0 <= i < |rows| ==> r[i] == Pair(rows[i].0, rows[i].1.sourceBPath)
  {
    seq(|rows|, i requires 0 <= i < |rows| => Pair(rows[i].0, rows[i].1.sourceBPath))
  }

  function GetMappings(store: MappingTable): seq<Pair>
    reads store
  {
    Listed(store.rows)
  }

  /** A pair is listed exactly when its Source-A path has a row pointing at that Source-B path. */
  lemma ListedFind(rows: Table<string, Mapping>, a: string, b: string)
    requires Unique(rows)
    ensures Pair(a, b) in Listed(rows) <==> Find(rows, a).Some? && Find(rows, a).value.sourceBPath == b
  {
    if Pair(a, b) in Listed(rows) {
      var i :| 0 <= i < |rows| && Listed(rows)[i] == Pair(a, b);
      FindUnique(rows, i);
    }
    if Find(rows, a).Some? && Find(rows, a).value.sourceBPath == b {
      var i :| 0 <= i < |rows| && rows[i] == (a, Find(rows, a).value);
      assert Listed(rows)[i] == Pair(a, b);
    }
  }

  // ---------------------------------------------------------------------
  // fileMappingState.update({lastSyncTimestamp: now})

  /** The row of `a` with its sync time set to `now`; without a row the update finds nothing to change. */
  function Stamped(rows: Table<string, Mapping>, a: string, now: nat): Table<string, Mapping> {
    var m := Find(rows, a);
    if m.Some? then Put(rows, a, m.value.(lastSyncTimestamp := Some(now))) else rows
  }

  /** `update({where: {sourceAPath: a}, data: {lastSyncTimestamp: now}})`; `found` is false where the update would reject. */
  method Stamp(store: MappingTable, a: string, now: nat) returns (found: bool)
    requires store.Valid()
    modifies store
    ensures store.Valid()
    ensures found <==> a in Keys(old(store.rows))
    ensures store.rows == Stamped(old(store.rows), a, now)
  {
    var m := Find(store.rows, a);
    found := m.Some?;
    if found {
      PutKeepsUnique(store.rows, a, m.value.(lastSyncTimestamp := Some(now)));
      store.rows := Put(store.rows, a, m.value.(lastSyncTimestamp := Some(now)));
    }
  }

  /** Stamping changes the sync time of that one row and nothing else. */
  lemma StampedLookup(rows: Table<string, Mapping>, a: string, now: nat, k: string)
    ensures Keys(Stamped(rows, a, now)) == Keys(rows)
    ensures Find(Stamped(rows, a, now), k) ==
      if k == a && Find(rows, k).Some? then Some(Find(rows, k).value.(lastSyncTimestamp := Some(now))) else Find(rows, k)
  {
  }
}
