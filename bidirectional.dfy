/**
 * BidirectionalSyncService of
 * packages/main/src/app/bidirectional-sync/bidirectional-sync.service.ts:
 * one mapped pair is reconciled tag by tag against a ledger that remembers,
 * per file and tag, the stringified values both sides had at the last sync.
 */
module Bidirectional {
  import opened Wrappers
  import opened Assoc
  import opened Values
  import opened Mp3Tag
  import opened Pairing

  /** A SyncStateTag row without its key: both values as `String(...)` made them. */
  datatype LedgerRow = LedgerRow(sourceAValue: string, sourceBValue: string)

  /**
   * The SyncStateTag table, keyed by (Source-A path, tag name). The source
   * keys it by the mapping row's id; a mapping row is identified by its
   * Source-A path just as well.
   */
  class Ledger {
    var rows: Table<(string, string), LedgerRow>

    ghost predicate Valid()
      reads this
    {
      Unique(rows)
    }

    constructor ()
      ensures Valid() && rows == []
    {
      rows := [];
    }

    /** `syncStateTag.upsert(...)`: the row of `key` gets `row`, created if missing. */
    method Upsert(key: (string, string), row: LedgerRow)
      requires Valid()
      modifies this
      ensures Valid()
      ensures rows == Put(old(rows), key, row)
    {
      PutKeepsUnique(rows, key, row);
      rows := Put(rows, key, row);
    }
  }

  /** `{tag, a, b}`: both sides changed a tag, to different values. */
  datatype Conflict = Conflict(tag: string, a: Value, b: Value)

  /** `{updatedAtoB, updatedBtoA, conflicts}`. */
  datatype Report = Report(updatedAtoB: seq<string>, updatedBtoA: seq<string>, conflicts: seq<Conflict>)

  /** What happens to one tag. */
  datatype Verdict = AtoB | BtoA | Clash | Keep

  /** The decision for a tag from the current values and the values the ledger remembers. */
  function VerdictOf(curA: Value, curB: Value, lastA: Value, lastB: Value): (r: Verdict)
    ensures r == AtoB ==> !StrictEq(curA, lastA) && StrictEq(curB, lastB)
    ensures r == BtoA ==> StrictEq(curA, lastA) && !StrictEq(curB, lastB)
    ensures r == Clash <==> !StrictEq(curA, lastA) && !StrictEq(curB, lastB) && !StrictEq(curA, curB)
    ensures r == Keep ==> StrictEq(curA, lastA) == StrictEq(curB, lastB)
  {
    var aChanged := !StrictEq(curA, lastA);
    var bChanged := !StrictEq(curB, lastB);
    if aChanged && !bChanged then AtoB
    else if !aChanged && bChanged then BtoA
    else if aChanged && bChanged && !StrictEq(curA, curB) then Clash
    else Keep
  }

  /** The verdict treats the two sides alike: swapping A and B swaps the copy directions. */
  function Swapped(v: Verdict): Verdict {
    match v
    case AtoB => BtoA
    case BtoA => AtoB
    case _ => v
  }

  lemma VerdictSwap(curA: Value, curB: Value, lastA: Value, lastB: Value)
    ensures VerdictOf(curB, curA, lastB, lastA) == Swapped(VerdictOf(curA, curB, lastA, lastB))
  {
  }

  /** `entry?.sourceAValue ?? null`: the remembered value, null without a ledger row. */
  function Remembered(row: Option<LedgerRow>, sideA: bool): (r: Value)
    ensures r.Null? <==> row.None?
    ensures row.Some? ==> r == Str(if sideA then row.value.sourceAValue else row.value.sourceBValue)
  {
    if row.None? then Null
    else if sideA then Str(row.value.sourceAValue)
    else Str(row.value.sourceBValue)
  }

  /** The verdict for `tag` of the file `path`, given both reads and the ledger as it was before the loop. */
  function TagVerdict(tag: string, a: Table<string, Value>, b: Table<string, Value>,
                      snap: Table<(string, string), LedgerRow>, path: string): Verdict
  {
    var row := Find(snap, (path, tag));
    VerdictOf(OrNull(Find(a, tag)), OrNull(Find(b, tag)), Remembered(row, true), Remembered(row, false))
  }

  /** The report after the loop has visited `tags`, in order. */
  function ReportOf(tags: seq<string>, a: Table<string, Value>, b: Table<string, Value>,
                    snap: Table<(string, string), LedgerRow>, path: string): Report
  {
    if tags == [] then Report([], [], [])
    else
      var tag := tags[|tags| - 1];
      Noted(ReportOf(tags[..|tags| - 1], a, b, snap, path), tag, TagVerdict(tag, a, b, snap, path),
            OrNull(Find(a, tag)), OrNull(Find(b, tag)))
  }

  /** The report once a tag with this verdict is pushed onto its list. */
  function Noted(r: Report, tag: string, v: Verdict, curA: Value, curB: Value): Report {
    match v
    case AtoB => r.(updatedAtoB := r.updatedAtoB + [tag])
    case BtoA => r.(updatedBtoA := r.updatedBtoA + [tag])
    case Clash => r.(conflicts := r.conflicts + [Conflict(tag, curA, curB)])
    case Keep => r
  }

  /** The `writeTags` call a tag with this verdict makes: `{[tag]: curA}` to B, `{[tag]: curB}` to A, or none. */
  function WriteFor(tag: string, v: Verdict, curA: Value, curB: Value, path: string, dest: string)
    : seq<(string, Table<string, Value>)>
  {
    match v
    case AtoB => [(dest, [(tag, curA)])]
    case BtoA => [(path, [(tag, curB)])]
    case _ => []
  }

  /** What NodeID3 receives for a series of `writeTags(path, tags)` calls: each tag object turned into its payload. */
  function Sent(calls: seq<(string, Table<string, Value>)>): (r: seq<(string, Table<string, Value>)>)
    ensures |r| == |calls|
    ensures forall i :: 0 <= i < |calls| ==> r[i] == (calls[i].0, Payload(calls[i].1))
  {
    seq(|calls|, i requires 0 <= i < |calls| => (calls[i].0, Payload(calls[i].1)))
  }

  lemma SentAppend(x: seq<(string, Table<string, Value>)>, y: seq<(string, Table<string, Value>)>)
    ensures Sent(x + y) == Sent(x) + Sent(y)
  {
  }

  /** The `writeTags` calls of the loop over `tags`, tag by tag, as (path, tag object). */
  function WriteCalls(tags: seq<string>, a: Table<string, Value>, b: Table<string, Value>,
                      snap: Table<(string, string), LedgerRow>, path: string, dest: string)
    : (r: seq<seq<(string, Table<string, Value>)>>)
    ensures |r| == |tags|
    ensures forall i :: 0 <= i < |tags| ==>
      r[i] == WriteFor(tags[i], TagVerdict(tags[i], a, b, snap, path), OrNull(Find(a, tags[i])), OrNull(Find(b, tags[i])), path, dest)
  {
    seq(|tags|, i requires 0 <= i < |tags| =>
      WriteFor(tags[i], TagVerdict(tags[i], a, b, snap, path), OrNull(Find(a, tags[i])), OrNull(Find(b, tags[i])), path, dest))
  }

  /** The calls of the loop over `tags` in order: the current value of one side copied onto the other. */
  function WritesOf(tags: seq<string>, a: Table<string, Value>, b: Table<string, Value>,
                    snap: Table<(string, string), LedgerRow>, path: string, dest: string): seq<(string, Table<string, Value>)>
  {
    Concat(WriteCalls(tags, a, b, snap, path, dest))
  }

  /** The lists one after the other. */
  function Concat<T>(xs: seq<seq<T>>): seq<T> {
    if xs == [] then [] else Concat(xs[..|xs| - 1]) + xs[|xs| - 1]
  }

  lemma ConcatStep<T>(xs: seq<seq<T>>, i: nat)
    requires i < |xs|
    ensures Concat(xs[..i + 1]) == Concat(xs[..i]) + xs[i]
  {
    assert xs[..i + 1][..i] == xs[..i];
  }

  /** The ledger upserts of the loop, one per visited tag, in order. */
  function LedgerPairs(tags: seq<string>, a: Table<string, Value>, b: Table<string, Value>, path: string)
    : (r: seq<((string, string), LedgerRow)>)
    ensures |r| == |tags|
    ensures forall i :: 0 <= i < |tags| ==>
      r[i] == ((path, tags[i]), LedgerRow(Stringify(OrNull(Find(a, tags[i]))), Stringify(OrNull(Find(b, tags[i])))))
  {
    seq(|tags|, i requires 0 <= i < |tags| =>
      ((path, tags[i]), LedgerRow(Stringify(OrNull(Find(a, tags[i]))), Stringify(OrNull(Find(b, tags[i]))))))
  }

  /** The ledger after the loop. */
  function LedgerAfter(snap: Table<(string, string), LedgerRow>, tags: seq<string>,
                       a: Table<string, Value>, b: Table<string, Value>, path: string): Table<(string, string), LedgerRow>
  {
    PutAll(snap, LedgerPairs(tags, a, b, path))
  }

  // ---------------------------------------------------------------------
  // syncFile

  /**
   * `syncFile(filePath)`: without a mapping row it fails and changes nothing;
   * otherwise both files are read for the bidirectional tags, every tag is
   * decided against the ledger as it stood before the loop, the writes and
   * ledger upserts happen in tag order, and the mapping is stamped with `now`.
   */
  method SyncFile(maps: MappingTable, ledger: Ledger, lib: NodeId3, bidir: seq<string>, filePath: string, now: nat)
    returns (r: Result<Report>)
    requires maps.Valid() && ledger.Valid()
    modifies maps, ledger, lib
    ensures maps.Valid() && ledger.Valid()
    ensures Find(old(maps.rows), filePath).None? ==>
      && r == Failure("No mapping for " + filePath)
      && maps.rows == old(maps.rows) && ledger.rows == old(ledger.rows) && lib.updates == old(lib.updates)
    ensures Find(old(maps.rows), filePath).Some? ==>
      var dest := Find(old(maps.rows), filePath).value.sourceBPath;
      var a := ReadSpec(lib.read(filePath), bidir);
      var b := ReadSpec(lib.read(dest), bidir);
      && r == Success(ReportOf(bidir, a, b, old(ledger.rows), filePath))
      && lib.updates == old(lib.updates) + Sent(WritesOf(bidir, a, b, old(ledger.rows), filePath, dest))
      && ledger.rows == LedgerAfter(old(ledger.rows), bidir, a, b, filePath)
      && maps.rows == Stamped(old(maps.rows), filePath, now)
  {
    var record := Find(maps.rows, filePath);
    if record.None? {
      return Failure("No mapping for " + filePath);
    }
    var dest := record.value.sourceBPath;
    var tagsA := ReadTags(lib, filePath, bidir);
    var tagsB := ReadTags(lib, dest, bidir);
    var report := SyncTags(ledger, lib, tagsA, tagsB, filePath, dest, bidir);
    var _ := Stamp(maps, filePath, now);
    r := Success(report);
  }

  /** The loop over the bidirectional tags, deciding each against the ledger as it was before the loop. */
  method SyncTags(ledger: Ledger, lib: NodeId3, tagsA: TagRecord, tagsB: TagRecord, filePath: string, dest: string,
                  bidir: seq<string>) returns (report: Report)
    requires ledger.Valid()
    modifies ledger, lib
    ensures ledger.Valid()
    ensures report == ReportOf(bidir, tagsA.entries, tagsB.entries, old(ledger.rows), filePath)
    ensures lib.updates == old(lib.updates) + Sent(WritesOf(bidir, tagsA.entries, tagsB.entries, old(ledger.rows), filePath, dest))
    ensures ledger.rows == LedgerAfter(old(ledger.rows), bidir, tagsA.entries, tagsB.entries, filePath)
  {
    var syncTags := ledger.rows;
    ghost var a, b := tagsA.entries, tagsB.entries;
    ghost var pairs := LedgerPairs(bidir, a, b, filePath);
    ghost var calls := WriteCalls(bidir, a, b, syncTags, filePath, dest);
    report := Report([], [], []);
    for i := 0 to |bidir|
      invariant ledger.Valid()
      invariant report == ReportOf(bidir[..i], a, b, syncTags, filePath)
      invariant lib.updates == old(lib.updates) + Sent(Concat(calls[..i]))
      invariant ledger.rows == PutAll(syncTags, pairs[..i])
    {
      LoopStep(bidir, a, b, syncTags, filePath, i);
      PutAllStep(syncTags, pairs, i);
      ConcatStep(calls, i);
      SentAppend(Concat(calls[..i]), calls[i]);
      AppendAssoc(old(lib.updates), Sent(Concat(calls[..i])), Sent(calls[i]));
      report := SyncTag(ledger, lib, tagsA, tagsB, syncTags, filePath, dest, bidir[i], report);
    }
    TakeAll(bidir);
    TakeAll(pairs);
    TakeAll(calls);
  }

  /** The body of the loop for one tag. */
  method SyncTag(ledger: Ledger, lib: NodeId3, tagsA: TagRecord, tagsB: TagRecord,
                 syncTags: Table<(string, string), LedgerRow>, filePath: string, dest: string, tag: string, report: Report)
    returns (report': Report)
    requires ledger.Valid()
    modifies ledger, lib
    ensures ledger.Valid()
    ensures var curA, curB := OrNull(Find(tagsA.entries, tag)), OrNull(Find(tagsB.entries, tag));
      var v := TagVerdict(tag, tagsA.entries, tagsB.entries, syncTags, filePath);
      && report' == Noted(report, tag, v, curA, curB)
      && lib.updates == old(lib.updates) + Sent(WriteFor(tag, v, curA, curB, filePath, dest))
      && ledger.rows == Put(old(ledger.rows), (filePath, tag), LedgerRow(Stringify(curA), Stringify(curB)))
  {
    var entry := Find(syncTags, (filePath, tag));
    var lastA := if entry.Some? then Str(entry.value.sourceAValue) else Null;
    var lastB := if entry.Some? then Str(entry.value.sourceBValue) else Null;
    var curA := OrNull(tagsA.Get(tag));
    var curB := OrNull(tagsB.Get(tag));
    ghost var v := TagVerdict(tag, tagsA.entries, tagsB.entries, syncTags, filePath);
    assert v == VerdictOf(curA, curB, lastA, lastB);
    report' := Reconcile(lib, tag, curA, curB, lastA, lastB, filePath, dest, report);
    ledger.Upsert((filePath, tag), LedgerRow(Stringify(curA), Stringify(curB)));
  }

  /** The comparison of one tag's current values with the remembered ones: a copy, a conflict, or nothing. */
  method Reconcile(lib: NodeId3, tag: string, curA: Value, curB: Value, lastA: Value, lastB: Value,
                   filePath: string, dest: string, report: Report) returns (report': Report)
    modifies lib
    ensures var v := VerdictOf(curA, curB, lastA, lastB);
      && report' == Noted(report, tag, v, curA, curB)
      && lib.updates == old(lib.updates) + Sent(WriteFor(tag, v, curA, curB, filePath, dest))
  {
    var aChanged := !StrictEq(curA, lastA);
    var bChanged := !StrictEq(curB, lastB);
    report' := report;
    if aChanged && !bChanged {
      WriteOne(lib, dest, tag, curA);
      report' := report'.(updatedAtoB := report'.updatedAtoB + [tag]);
    } else if !aChanged && bChanged {
      WriteOne(lib, filePath, tag, curB);
      report' := report'.(updatedBtoA := report'.updatedBtoA + [tag]);
    } else if aChanged && bChanged && !StrictEq(curA, curB) {
      report' := report'.(conflicts := report'.conflicts + [Conflict(tag, curA, curB)]);
    }
  }

  /** `writeTags(path, {[tag]: v})`, its result ignored. */
  method WriteOne(lib: NodeId3, path: string, tag: string, v: Value)
    modifies lib
    ensures lib.updates == old(lib.updates) + Sent([(path, [(tag, v)])])
  {
    var toWrite := new TagRecord();
    toWrite.Set(tag, v);
    var _ := WriteTags(lib, path, toWrite);
    assert toWrite.entries == [(tag, v)];
  }

  lemma LoopStep(tags: seq<string>, a: Table<string, Value>, b: Table<string, Value>,
                 snap: Table<(string, string), LedgerRow>, path: string, i: nat)
    requires i < |tags|
    ensures var tag := tags[i];
      ReportOf(tags[..i + 1], a, b, snap, path) ==
        Noted(ReportOf(tags[..i], a, b, snap, path), tag, TagVerdict(tag, a, b, snap, path), OrNull(Find(a, tag)), OrNull(Find(b, tag)))
  {
    assert tags[..i + 1][..i] == tags[..i];
  }

  // ---------------------------------------------------------------------
  // Properties

  /**
   * A tag is reported as copied A to B, copied B to A, or in conflict exactly
   * when its verdict says so; a conflict carries the two current values.
   */
  lemma {:induction false} ReportMembers(tags: seq<string>, a: Table<string, Value>, b: Table<string, Value>,
                                         snap: Table<(string, string), LedgerRow>, path: string)
    ensures forall t :: t in ReportOf(tags, a, b, snap, path).updatedAtoB <==> t in tags && TagVerdict(t, a, b, snap, path) == AtoB
    ensures forall t :: t in ReportOf(tags, a, b, snap, path).updatedBtoA <==> t in tags && TagVerdict(t, a, b, snap, path) == BtoA
    ensures forall c :: c in ReportOf(tags, a, b, snap, path).conflicts <==>
      c.tag in tags && TagVerdict(c.tag, a, b, snap, path) == Clash && c == Conflict(c.tag, OrNull(Find(a, c.tag)), OrNull(Find(b, c.tag)))
  {
    if tags != [] {
      var init := tags[..|tags| - 1];
      ReportMembers(init, a, b, snap, path);
      assert forall t :: t in tags <==> t in init || t == tags[|tags| - 1];
    }
  }

  /** `c` is the write that the verdict of `t` calls for: its current A value to B, or its current B value to A. */
  predicate CopyOf(c: (string, Table<string, Value>), t: string, a: Table<string, Value>, b: Table<string, Value>,
                   snap: Table<(string, string), LedgerRow>, path: string, dest: string)
  {
    || (TagVerdict(t, a, b, snap, path) == AtoB && c == (dest, [(t, OrNull(Find(a, t)))]))
    || (TagVerdict(t, a, b, snap, path) == BtoA && c == (path, [(t, OrNull(Find(b, t)))]))
  }

  /**
   * Every `writeTags` call of the loop carries one visited tag and is the copy
   * its verdict calls for, and every such copy is made.
   */
  lemma {:induction false} WritesMembers(tags: seq<string>, a: Table<string, Value>, b: Table<string, Value>,
                                         snap: Table<(string, string), LedgerRow>, path: string, dest: string)
    ensures forall c :: c in WritesOf(tags, a, b, snap, path, dest) <==>
      |c.1| == 1 && c.1[0].0 in tags && CopyOf(c, c.1[0].0, a, b, snap, path, dest)
  {
    if tags != [] {
      var init := tags[..|tags| - 1];
      var t := tags[|tags| - 1];
      WritesMembers(init, a, b, snap, path, dest);
      WritesStep(tags, a, b, snap, path, dest);
      WriteForMembers(t, a, b, snap, path, dest);
      assert forall u :: u in tags <==> u in init || u == t;
    }
  }

  /** There are as many `writeTags` calls as tags reported copied in either direction. */
  lemma {:induction false} WritesCount(tags: seq<string>, a: Table<string, Value>, b: Table<string, Value>,
                                       snap: Table<(string, string), LedgerRow>, path: string, dest: string)
    ensures |WritesOf(tags, a, b, snap, path, dest)| ==
      |ReportOf(tags, a, b, snap, path).updatedAtoB| + |ReportOf(tags, a, b, snap, path).updatedBtoA|
  {
    if tags != [] {
      var init := tags[..|tags| - 1];
      var t := tags[|tags| - 1];
      WritesCount(init, a, b, snap, path, dest);
      WritesStep(tags, a, b, snap, path, dest);
      WriteForMembers(t, a, b, snap, path, dest);
    }
  }

  lemma WritesStep(tags: seq<string>, a: Table<string, Value>, b: Table<string, Value>,
                   snap: Table<(string, string), LedgerRow>, path: string, dest: string)
    requires tags != []
    ensures var t := tags[|tags| - 1];
      WritesOf(tags, a, b, snap, path, dest) == WritesOf(tags[..|tags| - 1], a, b, snap, path, dest) +
        WriteFor(t, TagVerdict(t, a, b, snap, path), OrNull(Find(a, t)), OrNull(Find(b, t)), path, dest)
  {
    var calls := WriteCalls(tags, a, b, snap, path, dest);
    assert calls[..|tags| - 1] == WriteCalls(tags[..|tags| - 1], a, b, snap, path, dest);
  }

  /** The write of one tag is the copy its verdict calls for, and there is one exactly when it is copied. */
  lemma WriteForMembers(t: string, a: Table<string, Value>, b: Table<string, Value>,
                        snap: Table<(string, string), LedgerRow>, path: string, dest: string)
    ensures var w := WriteFor(t, TagVerdict(t, a, b, snap, path), OrNull(Find(a, t)), OrNull(Find(b, t)), path, dest);
      && (forall c :: c in w <==> |c.1| == 1 && c.1[0].0 == t && CopyOf(c, t, a, b, snap, path, dest))
      && |w| == (if TagVerdict(t, a, b, snap, path) in {AtoB, BtoA} then 1 else 0)
  {
  }

  /**
   * No tag lands in two lists of the report, even when a tag is configured
   * twice: every visit decides against the ledger as it was before the loop.
   */
  lemma ReportListsDisjoint(tags: seq<string>, a: Table<string, Value>, b: Table<string, Value>,
                            snap: Table<(string, string), LedgerRow>, path: string, t: string)
    ensures var r := ReportOf(tags, a, b, snap, path);
      && !(t in r.updatedAtoB && t in r.updatedBtoA)
      && (t in r.updatedAtoB || t in r.updatedBtoA ==> forall c :: c in r.conflicts ==> c.tag != t)
  {
    ReportMembers(tags, a, b, snap, path);
  }

  /**
   * After the loop the ledger holds, for every visited tag of the file, the
   * stringified current values of both sides; every other row is unchanged.
   */
  lemma LedgerAfterLookup(snap: Table<(string, string), LedgerRow>, tags: seq<string>,
                          a: Table<string, Value>, b: Table<string, Value>, path: string, key: (string, string))
    ensures Find(LedgerAfter(snap, tags, a, b, path), key) ==
      if key.0 == path && key.1 in tags then Some(LedgerRow(Stringify(OrNull(Find(a, key.1))), Stringify(OrNull(Find(b, key.1)))))
      else Find(snap, key)
  {
    var pairs := LedgerPairs(tags, a, b, path);
    PutAllLookup(snap, pairs, key);
    var v := LastValue(pairs, key);
    if v.Some? {
      var i :| 0 <= i < |pairs| && pairs[i] == (key, v.value) && Later(pairs, i, key);
      assert key == (path, tags[i]);
    }
  }

  /** Only a string survives the ledger: the stored `String(v)` compares equal to `v` exactly when `v` is a string. */
  lemma StoredMatchesOnlyStrings(v: Value)
    ensures StrictEq(v, Str(Stringify(v))) <==> v.Str?
  {
  }

  /** A second sync of unchanged files leaves a tag alone when both sides hold strings. */
  lemma ResyncKeepsStrings(snap: Table<(string, string), LedgerRow>, tags: seq<string>,
                           a: Table<string, Value>, b: Table<string, Value>, path: string, t: string)
    requires t in tags
    requires OrNull(Find(a, t)).Str? && OrNull(Find(b, t)).Str?
    ensures TagVerdict(t, a, b, LedgerAfter(snap, tags, a, b, path), path) == Keep
  {
    LedgerAfterLookup(snap, tags, a, b, path, (path, t));
  }

  /**
   * A tag missing on Source A is remembered as the string "null", which never
   * equals the null read next time: while both reads stay the same (the tag
   * still missing on A, a string on B), a later sync copies null from A to B
   * again.
   */
  lemma ResyncCopiesMissingTag(snap: Table<(string, string), LedgerRow>, tags: seq<string>,
                               a: Table<string, Value>, b: Table<string, Value>, path: string, t: string)
    requires t in tags
    requires Find(a, t).None? && OrNull(Find(b, t)).Str?
    ensures TagVerdict(t, a, b, LedgerAfter(snap, tags, a, b, path), path) == AtoB
  {
    LedgerAfterLookup(snap, tags, a, b, path, (path, t));
  }
}
