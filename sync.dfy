/**
 * SyncService of packages/main/src/app/sync/sync.service.ts: the preview
 * of what syncing every in-library Source-A file onto its Source-B partner
 * would change, and the run that writes the conflict-free part of it and
 * stamps the mappings it wrote.
 */
module Sync {
  import opened Wrappers
  import opened Assoc
  import opened Values
  import opened Mp3Tag
  import opened TagTransformer
  import opened FileState
  import opened Pairing

  // ---------------------------------------------------------------------
  // getAllReadKeys

  /** The comment frames the preview reads besides the bidirectional and multi-value ones. */
  const CommentFrames: seq<string> :=
    ["COMM", "TXXX:energylevel", "TXXX:kaufmonat", "TXXX:kaufgrund", "TXXX:kaufort", "TXXX:livegesehen"]

  predicate Distinct(s: seq<string>) {
    forall i, j :: 0 <= i < j < |s| ==> s[i] != s[j]
  }

  /** The index where `x` first occurs in `xs`. */
  function FirstIndex(xs: seq<string>, x: string): (k: nat)
    requires x in xs
    ensures k < |xs| && xs[k] == x
    ensures forall i :: 0 <= i < k ==> xs[i] != x
  {
    if xs[0] == x then 0
    else
      var k := 1 + FirstIndex(xs[1..], x);
      assert forall i :: 1 <= i < k ==> xs[i] == xs[1..][i - 1];
      k
  }

  /** Appending elements does not move a first occurrence. */
  lemma FirstIndexPrefix(xs: seq<string>, n: nat, x: string)
    requires n <= |xs| && x in xs[..n]
    ensures FirstIndex(xs, x) == FirstIndex(xs[..n], x)
  {
    var k, m := FirstIndex(xs, x), FirstIndex(xs[..n], x);
    assert xs[m] == x;
    assert k <= m;
    assert xs[..n][k] == x;
  }

  /**
   * `Array.from(new Set(xs))`: every element once, in the order of their
   * first occurrences.
   */
  function Dedup(xs: seq<string>): (r: seq<string>)
    ensures forall x :: x in r <==> x in xs
    ensures Distinct(r)
    ensures forall i, j :: 0 <= i < j < |r| ==> FirstIndex(xs, r[i]) < FirstIndex(xs, r[j])
  {
    if xs == [] then []
    else
      var init := xs[..|xs| - 1];
      var d := Dedup(init);
      var x := xs[|xs| - 1];
      assert forall y :: y in xs <==> y in init || y == x;
      assert forall i :: 0 <= i < |d| ==> FirstIndex(xs, d[i]) == FirstIndex(init, d[i]) by {
        forall i | 0 <= i < |d| ensures FirstIndex(xs, d[i]) == FirstIndex(init, d[i]) {
          FirstIndexPrefix(xs, |xs| - 1, d[i]);
        }
      }
      if x in d then d
      else
        assert FirstIndex(xs, x) == |xs| - 1;
        d + [x]
  }

  /** A sequence without repeats comes out of `Dedup` unchanged, order included. */
  lemma {:induction false} DedupDistinct(xs: seq<string>)
    requires Distinct(xs)
    ensures Dedup(xs) == xs
  {
    if xs != [] {
      var init, x := xs[..|xs| - 1], xs[|xs| - 1];
      DedupDistinct(init);
      assert x !in Dedup(init);
      assert Dedup(xs) == Dedup(init) + [x];
      assert init + [x] == xs;
    }
  }

  /** `getAllReadKeys()`. */
  function ReadKeys(bidir: seq<string>): (r: seq<string>)
    ensures Distinct(r)
    ensures forall t :: t in r <==> t in bidir || t in MultiValueFrames || t in CommentFrames
  {
    Dedup(bidir + MultiValueFrames + CommentFrames)
  }

  /**
   * The lyrics hint `TXXX:keinelyrics`, which `buildComment` consults, is
   * read only when it is itself configured as bidirectional.
   */
  lemma ReadKeysCover(bidir: seq<string>)
    ensures "TXXX:keinelyrics" in ReadKeys(bidir) <==> "TXXX:keinelyrics" in bidir
  {
    LyricsHintNotListed();
  }

  lemma LyricsHintNotListed()
    ensures "TXXX:keinelyrics" !in MultiValueFrames
    ensures "TXXX:keinelyrics" !in CommentFrames
  {
    var h := "TXXX:keinelyrics";
    assert h[5] != CommentFrames[1][5] && h[5] != CommentFrames[5][5];
    assert |h| != |CommentFrames[0]| && |h| != |CommentFrames[2]| && |h| != |CommentFrames[3]| && |h| != |CommentFrames[4]|;
  }

  // ---------------------------------------------------------------------
  // previewSync: one tag

  /** `{tag, from, to}`: `to` is written over `from` on Source B. */
  datatype Change = Change(tag: string, from: Value, to: Value)

  /** `{tag, a, b}`: the transformed Source-A value and the Source-B value disagree. */
  datatype Conflict = Conflict(tag: string, a: Value, b: Value)

  /** One preview line; `conflicts` is absent rather than empty. */
  datatype PreviewEntry = PreviewEntry(sourcePath: string, destPath: string,
                                       pendingUpdates: seq<Change>, conflicts: Option<seq<Conflict>>)

  /** What the mapping row and the two modification times say about a pair. */
  datatype Baseline = Baseline(firstSync: bool, aChanged: bool, bChanged: bool)

  /** A pair never synced is a first sync; a missing sync or modification time counts as the epoch. */
  function BaselineOf(lastSync: Option<nat>, mtimeA: Option<nat>, mtimeB: Option<nat>): (r: Baseline)
    ensures r.firstSync <==> lastSync.None?
    ensures lastSync.None? ==> (r.aChanged <==> mtimeA.Some? && mtimeA.value > 0)
    ensures lastSync.None? ==> (r.bChanged <==> mtimeB.Some? && mtimeB.value > 0)
    ensures lastSync.Some? ==> (r.aChanged <==> mtimeA.Some? && mtimeA.value > lastSync.value)
    ensures lastSync.Some? ==> (r.bChanged <==> mtimeB.Some? && mtimeB.value > lastSync.value)
  {
    var since := lastSync.GetOr(0);
    Baseline(lastSync.None?, mtimeA.GetOr(0) > since, mtimeB.GetOr(0) > since)
  }

  datatype Outcome = Unchanged | Pending(change: Change) | Clash(conflict: Conflict)

  /** The preview's decision for one tag whose transformed Source-A value is `to` and whose Source-B value is `from`. */
  function Decide(tag: string, to: Value, from: Value, isBi: bool, b: Baseline): (r: Outcome)
    ensures StrictEq(to, from) ==> r == Unchanged
    ensures r.Clash? <==> isBi && !StrictEq(to, from) && (b.firstSync || (b.aChanged && b.bChanged))
    ensures r.Clash? ==> r.conflict == Conflict(tag, to, from)
    ensures r.Pending? ==> r.change.tag == tag && !StrictEq(r.change.from, r.change.to)
    ensures !isBi && !StrictEq(to, from) ==> r == Pending(Change(tag, from, to))
  {
    if isBi then
      if b.firstSync then
        if !StrictEq(to, from) then Clash(Conflict(tag, to, from)) else Unchanged
      else if b.aChanged && b.bChanged && !StrictEq(to, from) then Clash(Conflict(tag, to, from))
      else if b.aChanged && !StrictEq(to, from) then Pending(Change(tag, from, to))
      else if b.bChanged && !StrictEq(to, from) then Pending(Change(tag, to, from))
      else Unchanged
    else if !StrictEq(to, from) then Pending(Change(tag, from, to))
    else Unchanged
  }

  /**
   * The rest of the decision table, for a bidirectional tag after the first
   * sync: it follows Source A when only A changed, when only B changed it
   * proposes writing B's own value (`to` is `from`), and with neither side
   * changed it proposes nothing.
   */
  lemma DecideTable(tag: string, to: Value, from: Value, b: Baseline)
    ensures !StrictEq(to, from) && !b.firstSync && b.aChanged && !b.bChanged ==>
      Decide(tag, to, from, true, b) == Pending(Change(tag, from, to))
    ensures !StrictEq(to, from) && !b.firstSync && !b.aChanged && b.bChanged ==>
      Decide(tag, to, from, true, b) == Pending(Change(tag, to, from))
    ensures !b.firstSync && !b.aChanged && !b.bChanged ==> Decide(tag, to, from, true, b) == Unchanged
  {
  }

  /** One row of the transformed record, against the Source-B record. */
  function DecideRow(row: (string, Value), dst: Table<string, Value>, bidir: seq<string>, b: Baseline): Outcome {
    Decide(row.0, row.1, OrNull(Find(dst, row.0)), row.0 in bidir, b)
  }

  /** The changes the loop over `Object.entries(transformed)` collects, in order. */
  function Changes(tr: Table<string, Value>, dst: Table<string, Value>, bidir: seq<string>, b: Baseline): seq<Change> {
    if tr == [] then []
    else
      var o := DecideRow(tr[|tr| - 1], dst, bidir, b);
      Changes(tr[..|tr| - 1], dst, bidir, b) + (if o.Pending? then [o.change] else [])
  }

  /** The conflicts the same loop collects, in order. */
  function Conflicts(tr: Table<string, Value>, dst: Table<string, Value>, bidir: seq<string>, b: Baseline): seq<Conflict> {
    if tr == [] then []
    else
      var o := DecideRow(tr[|tr| - 1], dst, bidir, b);
      Conflicts(tr[..|tr| - 1], dst, bidir, b) + (if o.Clash? then [o.conflict] else [])
  }

  /** A change or conflict is listed exactly when some row of the record decides it. */
  lemma {:induction false} OutcomesListed(tr: Table<string, Value>, dst: Table<string, Value>, bidir: seq<string>, b: Baseline)
    ensures forall c :: c in Changes(tr, dst, bidir, b) <==>
      exists i :: 0 <= i < |tr| && DecideRow(tr[i], dst, bidir, b) == Pending(c)
    ensures forall c :: c in Conflicts(tr, dst, bidir, b) <==>
      exists i :: 0 <= i < |tr| && DecideRow(tr[i], dst, bidir, b) == Clash(c)
  {
    if tr != [] {
      var init := tr[..|tr| - 1];
      OutcomesListed(init, dst, bidir, b);
      assert forall i :: 0 <= i < |init| ==> init[i] == tr[i];
    }
  }

  /** Every outcome carries the tag of the row it was decided for. */
  lemma OutcomeTag(row: (string, Value), dst: Table<string, Value>, bidir: seq<string>, b: Baseline)
    ensures DecideRow(row, dst, bidir, b).Pending? ==> DecideRow(row, dst, bidir, b).change.tag == row.0
    ensures DecideRow(row, dst, bidir, b).Clash? ==> DecideRow(row, dst, bidir, b).conflict.tag == row.0
  {
  }

  /**
   * For a record without repeated keys, the changes and conflicts about the
   * tag of row `i` are exactly what the decision for that row gives.
   */
  lemma TagOutcome(tr: Table<string, Value>, dst: Table<string, Value>, bidir: seq<string>, b: Baseline, i: nat)
    requires Unique(tr) && i < |tr|
    ensures forall c :: c in Changes(tr, dst, bidir, b) && c.tag == tr[i].0 <==> DecideRow(tr[i], dst, bidir, b) == Pending(c)
    ensures forall c :: c in Conflicts(tr, dst, bidir, b) && c.tag == tr[i].0 <==> DecideRow(tr[i], dst, bidir, b) == Clash(c)
  {
    OutcomesListed(tr, dst, bidir, b);
    forall j | 0 <= j < |tr|
      ensures DecideRow(tr[j], dst, bidir, b).Pending? ==> DecideRow(tr[j], dst, bidir, b).change.tag == tr[j].0
      ensures DecideRow(tr[j], dst, bidir, b).Clash? ==> DecideRow(tr[j], dst, bidir, b).conflict.tag == tr[j].0
    {
      OutcomeTag(tr[j], dst, bidir, b);
    }
  }

  /** Only a bidirectional tag can conflict; on a first sync a bidirectional tag is never a change. */
  lemma ConflictsAreBidirectional(tr: Table<string, Value>, dst: Table<string, Value>, bidir: seq<string>, b: Baseline)
    ensures forall c :: c in Conflicts(tr, dst, bidir, b) ==> c.tag in bidir
    ensures b.firstSync ==> forall c :: c in Changes(tr, dst, bidir, b) ==> c.tag !in bidir
  {
    OutcomesListed(tr, dst, bidir, b);
  }

  /**
   * A bidirectional change proposed while Source A is unchanged writes back
   * the value Source B already holds for that tag.
   */
  lemma BackwardChangeRewritesB(tr: Table<string, Value>, dst: Table<string, Value>, bidir: seq<string>, b: Baseline)
    ensures forall c :: c in Changes(tr, dst, bidir, b) && c.tag in bidir && !b.aChanged ==>
      c.to == OrNull(Find(dst, c.tag))
  {
    OutcomesListed(tr, dst, bidir, b);
  }

  /** In a record without repeated keys, no two changes are about the same tag. */
  lemma ChangeTagsDistinct(tr: Table<string, Value>, dst: Table<string, Value>, bidir: seq<string>, b: Baseline)
    requires Unique(tr)
    ensures var cs := Changes(tr, dst, bidir, b); forall i, j :: 0 <= i < j < |cs| ==> cs[i].tag != cs[j].tag
  {
    var cs := Changes(tr, dst, bidir, b);
    forall i, j | 0 <= i < j < |cs| ensures cs[i].tag != cs[j].tag {
      ChangeTagsOrdered(tr, dst, bidir, b, i, j);
    }
  }

  lemma {:induction false} ChangeTagsOrdered(tr: Table<string, Value>, dst: Table<string, Value>, bidir: seq<string>, b: Baseline, i: nat, j: nat)
    requires Unique(tr)
    requires i < j < |Changes(tr, dst, bidir, b)|
    ensures Changes(tr, dst, bidir, b)[i].tag != Changes(tr, dst, bidir, b)[j].tag
  {
    var init := tr[..|tr| - 1];
    var before := Changes(init, dst, bidir, b);
    assert Unique(init);
    if j < |before| {
      ChangeTagsOrdered(init, dst, bidir, b, i, j);
    } else {
      OutcomesListed(init, dst, bidir, b);
      var k :| 0 <= k < |init| && DecideRow(init[k], dst, bidir, b) == Pending(before[i]);
      OutcomeTag(init[k], dst, bidir, b);
      OutcomeTag(tr[|tr| - 1], dst, bidir, b);
      assert init[k] == tr[k];
    }
  }

  /** `ClassifyTags`: the loop over the transformed record's entries, in order. */
  method ClassifyTags(transformed: TagRecord, dstTags: TagRecord, bidir: seq<string>, b: Baseline)
    returns (changes: seq<Change>, conflicts: seq<Conflict>)
    ensures changes == Changes(transformed.entries, dstTags.entries, bidir, b)
    ensures conflicts == Conflicts(transformed.entries, dstTags.entries, bidir, b)
  {
    var tr := transformed.entries;
    changes, conflicts := [], [];
    for i := 0 to |tr|
      invariant changes == Changes(tr[..i], dstTags.entries, bidir, b)
      invariant conflicts == Conflicts(tr[..i], dstTags.entries, bidir, b)
    {
      assert tr[..i + 1][..i] == tr[..i];
      var tag, to := tr[i].0, tr[i].1;
      var from := OrNull(dstTags.Get(tag));
      var isBi := IsBidirectional(bidir, tag);
      var o := Decide(tag, to, from, isBi, b);
      if o.Pending? {
        changes := changes + [o.change];
      } else if o.Clash? {
        conflicts := conflicts + [o.conflict];
      }
    }
    assert tr[..|tr|] == tr;
  }

  // ---------------------------------------------------------------------
  // previewSync: one file

  /** `new Map(mappings.map(m => [m.sourceAPath, m.sourceBPath]))`. */
  function DestByPath(rows: Table<string, Mapping>): Table<string, string> {
    PutAll([], AsPairs(Listed(rows)))
  }

  /** The map gives each Source-A path with a row the Source-B path of that row. */
  lemma DestByPathLookup(rows: Table<string, Mapping>, k: string)
    requires Unique(rows)
    ensures Find(DestByPath(rows), k) == if Find(rows, k).Some? then Some(Find(rows, k).value.sourceBPath) else None
  {
    var kvs := AsPairs(Listed(rows));
    PutAllLookup([], kvs, k);
    var v := LastValue(kvs, k);
    if v.Some? {
      var i :| 0 <= i < |kvs| && kvs[i] == (k, v.value) && Later(kvs, i, k);
      FindUnique(rows, i);
    }
  }

  /** The entry a file contributes: only when something is pending or conflicting. */
  function EntryOf(src: string, dst: string, changes: seq<Change>, conflicts: seq<Conflict>): Option<PreviewEntry> {
    if |changes| > 0 || |conflicts| > 0 then
      Some(PreviewEntry(src, dst, changes, if |conflicts| > 0 then Some(conflicts) else None))
    else None
  }

  /** The body of the preview loop for one in-library path: skip it, add an entry, or throw. */
  function PreviewStep(src: string, rows: Table<string, Mapping>, read: string -> ReadOutcome,
                       mtime: string -> Option<nat>, bidir: seq<string>): Result<Option<PreviewEntry>>
  {
    var dst := Find(DestByPath(rows), src);
    if dst.None? || dst.value == "" then Success(None)
    else
      var row := Find(rows, src);
      PairStep(src, dst.value, if row.Some? then row.value.lastSyncTimestamp else None, read, mtime, bidir)
  }

  /** The rest of the body, once `src` is known to have the destination `dst`. */
  function PairStep(src: string, dst: string, lastSync: Option<nat>, read: string -> ReadOutcome,
                    mtime: string -> Option<nat>, bidir: seq<string>): Result<Option<PreviewEntry>>
  {
    var keys := ReadKeys(bidir);
    var transformed := Transformed(ReadSpec(read(src), keys));
    if transformed.Failure? then Failure(transformed.error)
    else
      var dstTags := ReadSpec(read(dst), keys);
      var b := BaselineOf(lastSync, mtime(src), mtime(dst));
      Success(EntryOf(src, dst, Changes(transformed.value, dstTags, bidir, b),
                      Conflicts(transformed.value, dstTags, bidir, b)))
  }

  /**
   * An entry names a path that has a mapping row, the non-empty Source-B
   * path of that row, and something to do: pending updates or a non-empty
   * list of conflicts.
   */
  lemma PreviewStepEntry(src: string, rows: Table<string, Mapping>, read: string -> ReadOutcome,
                         mtime: string -> Option<nat>, bidir: seq<string>, e: PreviewEntry)
    requires Unique(rows)
    requires PreviewStep(src, rows, read, mtime, bidir) == Success(Some(e))
    ensures e.sourcePath == src
    ensures Find(rows, src).Some? && e.destPath == Find(rows, src).value.sourceBPath && e.destPath != ""
    ensures |e.pendingUpdates| > 0 || e.conflicts.Some?
    ensures e.conflicts.Some? ==> |e.conflicts.value| > 0
  {
    DestByPathLookup(rows, src);
    var row := Find(rows, src);
    PairStepEntry(src, Find(DestByPath(rows), src).value, if row.Some? then row.value.lastSyncTimestamp else None,
                  read, mtime, bidir, e);
  }

  lemma PairStepEntry(src: string, dst: string, lastSync: Option<nat>, read: string -> ReadOutcome,
                      mtime: string -> Option<nat>, bidir: seq<string>, e: PreviewEntry)
    requires PairStep(src, dst, lastSync, read, mtime, bidir) == Success(Some(e))
    ensures e.sourcePath == src && e.destPath == dst
    ensures |e.pendingUpdates| > 0 || e.conflicts.Some?
    ensures e.conflicts.Some? ==> |e.conflicts.value| > 0
  {
  }

  method PreviewFile(src: string, maps: MappingTable, mapB: Table<string, string>, lib: NodeId3,
                     mtime: string -> Option<nat>, bidir: seq<string>, keys: seq<string>)
    returns (r: Result<Option<PreviewEntry>>)
    requires mapB == DestByPath(maps.rows) && keys == ReadKeys(bidir)
    ensures r == PreviewStep(src, maps.rows, lib.read, mtime, bidir)
  {
    var dst := Find(mapB, src);
    if dst.None? || dst.value == "" {
      return Success(None);
    }
    var row := Find(maps.rows, src);
    var lastSync := if row.Some? then row.value.lastSyncTimestamp else None;
    r := PreviewPair(src, dst.value, lastSync, lib, mtime, bidir, keys);
  }

  method PreviewPair(src: string, dst: string, lastSync: Option<nat>, lib: NodeId3,
                     mtime: string -> Option<nat>, bidir: seq<string>, keys: seq<string>)
    returns (r: Result<Option<PreviewEntry>>)
    requires keys == ReadKeys(bidir)
    ensures r == PairStep(src, dst, lastSync, lib.read, mtime, bidir)
  {
    var srcTags := ReadTags(lib, src, keys);
    var dstTags := ReadTags(lib, dst, keys);
    ghost var dstRead := dstTags.entries;
    var transformed := TransformAll(srcTags);
    if transformed.Failure? {
      return Failure(transformed.error);
    }
    assert dstTags.entries == dstRead;
    var b := BaselineOf(lastSync, mtime(src), mtime(dst));
    var changes, conflicts := ClassifyTags(transformed.value, dstTags, bidir, b);
    r := Success(EntryOf(src, dst, changes, conflicts));
  }

  // ---------------------------------------------------------------------
  // previewSync

  function Paths(inLib: seq<(string, Option<nat>)>): (r: seq<string>)
    ensures |r| == |inLib|
    ensures forall i :: 0 <= i < |inLib| ==> r[i] == inLib[i].0
  {
    seq(|inLib|, i requires 0 <= i < |inLib| => inLib[i].0)
  }

  /** The results of the loop body for each listed path, in order. */
  function StepResults(paths: seq<string>, rows: Table<string, Mapping>, read: string -> ReadOutcome,
                       mtime: string -> Option<nat>, bidir: seq<string>): (r: seq<Result<Option<PreviewEntry>>>)
    ensures |r| == |paths|
    ensures forall i :: 0 <= i < |paths| ==> r[i] == PreviewStep(paths[i], rows, read, mtime, bidir)
  {
    seq(|paths|, i requires 0 <= i < |paths| => PreviewStep(paths[i], rows, read, mtime, bidir))
  }

  /** Running the loop body in order: the entries produced, or the first error thrown. */
  function Collate<T>(rs: seq<Result<Option<T>>>): Result<seq<T>> {
    if rs == [] then Success([])
    else
      var before := Collate(rs[..|rs| - 1]);
      var step := rs[|rs| - 1];
      if before.Failure? then before
      else if step.Failure? then Failure(step.error)
      else if step.value.Some? then Success(before.value + [step.value.value])
      else before
  }

  /** `previewSync()` over the listed paths. */
  function PreviewOf(paths: seq<string>, rows: Table<string, Mapping>, read: string -> ReadOutcome,
                     mtime: string -> Option<nat>, bidir: seq<string>): Result<seq<PreviewEntry>>
  {
    Collate(StepResults(paths, rows, read, mtime, bidir))
  }

  /** Collating fails exactly when some step failed; otherwise it keeps exactly the entries the steps produced. */
  lemma {:induction false} CollateMembers<T>(rs: seq<Result<Option<T>>>)
    ensures Collate(rs).Failure? <==> exists i :: 0 <= i < |rs| && rs[i].Failure?
    ensures Collate(rs).Success? ==> forall e :: e in Collate(rs).value <==> exists i :: 0 <= i < |rs| && rs[i] == Success(Some(e))
  {
    if rs != [] {
      var init := rs[..|rs| - 1];
      CollateMembers(init);
      assert forall i :: 0 <= i < |init| ==> init[i] == rs[i];
    }
  }

  /**
   * The preview fails exactly when some path's step throws; otherwise its
   * entries are exactly the entries the paths' steps produce.
   */
  lemma PreviewOfMembers(paths: seq<string>, rows: Table<string, Mapping>, read: string -> ReadOutcome,
                         mtime: string -> Option<nat>, bidir: seq<string>)
    ensures PreviewOf(paths, rows, read, mtime, bidir).Failure? <==>
      exists i :: 0 <= i < |paths| && PreviewStep(paths[i], rows, read, mtime, bidir).Failure?
    ensures PreviewOf(paths, rows, read, mtime, bidir).Success? ==>
      forall e :: e in PreviewOf(paths, rows, read, mtime, bidir).value <==>
        exists i :: 0 <= i < |paths| && PreviewStep(paths[i], rows, read, mtime, bidir) == Success(Some(e))
  {
    CollateMembers(StepResults(paths, rows, read, mtime, bidir));
  }

  /** Every entry of a successful preview satisfies `PreviewStepEntry` for a listed path. */
  lemma PreviewEntries(paths: seq<string>, rows: Table<string, Mapping>, read: string -> ReadOutcome,
                       mtime: string -> Option<nat>, bidir: seq<string>)
    requires Unique(rows)
    requires PreviewOf(paths, rows, read, mtime, bidir).Success?
    ensures forall e :: e in PreviewOf(paths, rows, read, mtime, bidir).value ==>
      && e.sourcePath in paths
      && Find(rows, e.sourcePath).Some? && e.destPath == Find(rows, e.sourcePath).value.sourceBPath && e.destPath != ""
      && (|e.pendingUpdates| > 0 || e.conflicts.Some?)
      && (e.conflicts.Some? ==> |e.conflicts.value| > 0)
  {
    PreviewOfMembers(paths, rows, read, mtime, bidir);
    forall e | e in PreviewOf(paths, rows, read, mtime, bidir).value
      ensures e.sourcePath in paths
      ensures Find(rows, e.sourcePath).Some? && e.destPath == Find(rows, e.sourcePath).value.sourceBPath && e.destPath != ""
      ensures (|e.pendingUpdates| > 0 || e.conflicts.Some?) && (e.conflicts.Some? ==> |e.conflicts.value| > 0)
    {
      var i :| 0 <= i < |paths| && PreviewStep(paths[i], rows, read, mtime, bidir) == Success(Some(e));
      PreviewStepEntry(paths[i], rows, read, mtime, bidir, e);
    }
  }

  /** One more step of the loop. */
  lemma CollateNext<T>(rs: seq<Result<Option<T>>>, k: nat)
    requires k < |rs| && Collate(rs[..k]).Success?
    ensures Collate(rs[..k + 1]) ==
      if rs[k].Failure? then Failure(rs[k].error)
      else if rs[k].value.Some? then Success(Collate(rs[..k]).value + [rs[k].value.value])
      else Collate(rs[..k])
  {
    assert rs[..k + 1][..k] == rs[..k];
  }

  /** Once a prefix has failed, every longer prefix fails the same way. */
  lemma {:induction false} CollateStaysFailed<T>(rs: seq<Result<Option<T>>>, k: nat, n: nat)
    requires k <= n <= |rs|
    requires Collate(rs[..k]).Failure?
    ensures Collate(rs[..n]) == Collate(rs[..k])
  {
    if n > k {
      CollateStaysFailed(rs, k, n - 1);
      assert rs[..n][..n - 1] == rs[..n - 1];
    }
  }

  /** `previewSync()`. */
  method PreviewSync(files: FileStateTable, maps: MappingTable, lib: NodeId3,
                     mtime: string -> Option<nat>, bidir: seq<string>)
    returns (r: Result<seq<PreviewEntry>>)
    ensures r == PreviewOf(Paths(ListInLibrary(files)), maps.rows, lib.read, mtime, bidir)
  {
    var paths := Paths(ListInLibrary(files));
    var mapB := DestByPath(maps.rows);
    var keys := ReadKeys(bidir);
    ghost var results := StepResults(paths, maps.rows, lib.read, mtime, bidir);
    var preview: seq<PreviewEntry> := [];
    for k := 0 to |paths|
      invariant Collate(results[..k]) == Success(preview)
    {
      var step := PreviewFile(paths[k], maps, mapB, lib, mtime, bidir, keys);
      assert step == results[k];
      CollateNext(results, k);
      if step.Failure? {
        CollateStaysFailed(results, k + 1, |paths|);
        assert results[..|paths|] == results;
        return Failure(step.error);
      }
      if step.value.Some? {
        preview := preview + [step.value.value];
      }
    }
    assert results[..|paths|] == results;
    r := Success(preview);
  }

  // ---------------------------------------------------------------------
  // runSync

  /** A conflict as `runSync` reports it, with the Source-A path it came from. */
  datatype SourceConflict = SourceConflict(source: string, tag: string, a: Value, b: Value)

  /** `{applied, conflicts}`. */
  datatype RunReport = RunReport(applied: nat, conflicts: seq<SourceConflict>)

  /** An entry the run writes and stamps: no conflicts and at least one pending update. */
  predicate Clean(e: PreviewEntry) {
    e.conflicts.None? && |e.pendingUpdates| > 0
  }

  function WithSource(src: string, cs: seq<Conflict>): (r: seq<SourceConflict>)
    ensures |r| == |cs|
    ensures forall i :: 0 <= i < |cs| ==> r[i] == SourceConflict(src, cs[i].tag, cs[i].a, cs[i].b)
  {
    seq(|cs|, i requires 0 <= i < |cs| => SourceConflict(src, cs[i].tag, cs[i].a, cs[i].b))
  }

  /** The conflicts of the entries, in order, each tagged with its entry's source. */
  function Reported(pv: seq<PreviewEntry>): seq<SourceConflict> {
    if pv == [] then []
    else
      var e := pv[|pv| - 1];
      Reported(pv[..|pv| - 1]) + (if e.conflicts.Some? then WithSource(e.sourcePath, e.conflicts.value) else [])
  }

  /** How many entries the run writes. */
  function AppliedCount(pv: seq<PreviewEntry>): nat {
    if pv == [] then 0 else AppliedCount(pv[..|pv| - 1]) + (if Clean(pv[|pv| - 1]) then 1 else 0)
  }

  /** The pending updates as `(tag, to)` pairs. */
  function ToPairs(cs: seq<Change>): (r: seq<(string, Value)>)
    ensures |r| == |cs|
    ensures forall i :: 0 <= i < |cs| ==> r[i] == (cs[i].tag, cs[i].to)
  {
    seq(|cs|, i requires 0 <= i < |cs| => (cs[i].tag, cs[i].to))
  }

  /** `toWrite`: every pending tag set to its `to` value, a later update of a tag overriding an earlier one. */
  function WriteSet(cs: seq<Change>): Table<string, Value> {
    PutAll([], ToPairs(cs))
  }

  /** When no tag repeats, `toWrite` holds exactly the pending tags, each with its own `to`. */
  lemma WriteSetLookup(cs: seq<Change>, t: string)
    requires forall i, j :: 0 <= i < j < |cs| ==> cs[i].tag != cs[j].tag
    ensures Unique(WriteSet(cs))
    ensures forall i :: 0 <= i < |cs| && cs[i].tag == t ==> Find(WriteSet(cs), t) == Some(cs[i].to)
    ensures (forall i :: 0 <= i < |cs| ==> cs[i].tag != t) ==> Find(WriteSet(cs), t) == None
  {
    PutAllKeepsUnique([], ToPairs(cs));
    PutAllLookup([], ToPairs(cs), t);
    var v := LastValue(ToPairs(cs), t);
    if v.Some? {
      var i :| 0 <= i < |cs| && ToPairs(cs)[i] == (t, v.value) && Later(ToPairs(cs), i, t);
      assert forall j :: 0 <= j < |cs| && cs[j].tag == t ==> j == i;
    }
  }

  /** The `writeTags` calls the run makes: one per clean entry, in order, to its Source-B path. */
  function Writes(pv: seq<PreviewEntry>): seq<(string, Table<string, Value>)> {
    if pv == [] then []
    else
      var e := pv[|pv| - 1];
      Writes(pv[..|pv| - 1]) + (if Clean(e) then [(e.destPath, Payload(WriteSet(e.pendingUpdates)))] else [])
  }

  /** `applied` counts the writes, whatever each write reported. */
  lemma {:induction false} AppliedCountsWrites(pv: seq<PreviewEntry>)
    ensures AppliedCount(pv) == |Writes(pv)|
  {
    if pv != [] {
      AppliedCountsWrites(pv[..|pv| - 1]);
    }
  }

  predicate ReportsConflict(e: PreviewEntry, x: SourceConflict) {
    e.conflicts.Some? && exists j :: 0 <= j < |e.conflicts.value| && x == WithSource(e.sourcePath, e.conflicts.value)[j]
  }

  /** Every conflict of every entry is reported once, with its source, and nothing else is. */
  lemma {:induction false} ReportedMembers(pv: seq<PreviewEntry>)
    ensures forall x :: x in Reported(pv) <==> exists i :: 0 <= i < |pv| && ReportsConflict(pv[i], x)
    ensures |Reported(pv)| == ConflictCount(pv)
  {
    if pv != [] {
      var init := pv[..|pv| - 1];
      ReportedMembers(init);
      assert forall i :: 0 <= i < |init| ==> init[i] == pv[i];
    }
  }

  /** The number of conflicts over all entries. */
  function ConflictCount(pv: seq<PreviewEntry>): nat {
    if pv == [] then 0
    else
      var e := pv[|pv| - 1];
      ConflictCount(pv[..|pv| - 1]) + (if e.conflicts.Some? then |e.conflicts.value| else 0)
  }

  /** The mappings once every clean entry's row is stamped with `now`, in entry order. */
  function StampAll(rows: Table<string, Mapping>, pv: seq<PreviewEntry>, now: nat): Table<string, Mapping> {
    if pv == [] then rows
    else
      var r := StampAll(rows, pv[..|pv| - 1], now);
      if Clean(pv[|pv| - 1]) then Stamped(r, pv[|pv| - 1].sourcePath, now) else r
  }

  predicate StampedBy(pv: seq<PreviewEntry>, k: string) {
    exists i :: 0 <= i < |pv| && Clean(pv[i]) && pv[i].sourcePath == k
  }

  /**
   * Exactly the rows of clean entries get `lastSyncTimestamp = now`; no row
   * is added or removed and nothing else in a row changes.
   */
  lemma {:induction false} StampAllLookup(rows: Table<string, Mapping>, pv: seq<PreviewEntry>, now: nat, k: string)
    ensures Keys(StampAll(rows, pv, now)) == Keys(rows)
    ensures Find(StampAll(rows, pv, now), k) ==
      if StampedBy(pv, k) && Find(rows, k).Some? then Some(Find(rows, k).value.(lastSyncTimestamp := Some(now)))
      else Find(rows, k)
  {
    if pv != [] {
      var init := pv[..|pv| - 1];
      StampAllLookup(rows, init, now, k);
      StampedLookup(StampAll(rows, init, now), pv[|pv| - 1].sourcePath, now, k);
      assert forall i :: 0 <= i < |init| ==> init[i] == pv[i];
      assert StampedBy(pv, k) <==> StampedBy(init, k) || (Clean(pv[|pv| - 1]) && pv[|pv| - 1].sourcePath == k);
    }
  }

  /** The stamps of a run never miss: every clean entry of a preview has a mapping row to update. */
  lemma CleanEntriesHaveRows(paths: seq<string>, rows: Table<string, Mapping>, read: string -> ReadOutcome,
                             mtime: string -> Option<nat>, bidir: seq<string>)
    requires Unique(rows)
    requires PreviewOf(paths, rows, read, mtime, bidir).Success?
    ensures forall e :: e in PreviewOf(paths, rows, read, mtime, bidir).value ==> e.sourcePath in Keys(rows)
  {
    PreviewEntries(paths, rows, read, mtime, bidir);
  }

  /** `entry.conflicts.forEach(c => conflicts.push({source, ...c}))`, as the pushed sequence. */
  method WithSourceOf(src: string, cs: seq<Conflict>) returns (tagged: seq<SourceConflict>)
    ensures tagged == WithSource(src, cs)
  {
    tagged := [];
    for j := 0 to |cs|
      invariant tagged == WithSource(src, cs[..j])
    {
      assert WithSource(src, cs[..j + 1]) == WithSource(src, cs[..j]) + [SourceConflict(src, cs[j].tag, cs[j].a, cs[j].b)];
      tagged := tagged + [SourceConflict(src, cs[j].tag, cs[j].a, cs[j].b)];
    }
    assert cs[..|cs|] == cs;
  }

  /** The final `Promise.all`: each clean entry's mapping row is stamped with `now`, one after the other. */
  method StampClean(maps: MappingTable, pv: seq<PreviewEntry>, now: nat)
    requires maps.Valid()
    modifies maps
    ensures maps.Valid()
    ensures maps.rows == StampAll(old(maps.rows), pv, now)
  {
    for k := 0 to |pv|
      invariant maps.Valid()
      invariant maps.rows == StampAll(old(maps.rows), pv[..k], now)
    {
      StampStep(old(maps.rows), pv, now, k);
      if Clean(pv[k]) {
        var _ := Stamp(maps, pv[k].sourcePath, now);
      }
    }
    assert pv[..|pv|] == pv;
  }

  /** `toWrite`, built by setting each pending tag in order. */
  method CollectWrites(cs: seq<Change>) returns (toWrite: TagRecord)
    ensures fresh(toWrite) && toWrite.Valid()
    ensures toWrite.entries == WriteSet(cs)
  {
    toWrite := new TagRecord();
    var kvs := ToPairs(cs);
    for i := 0 to |cs|
      invariant toWrite.Valid()
      invariant toWrite.entries == PutAll([], kvs[..i])
    {
      PutAllStep([], kvs, i);
      toWrite.Set(cs[i].tag, cs[i].to);
    }
    assert kvs[..|cs|] == kvs;
  }

  lemma RunStep(pv: seq<PreviewEntry>, k: nat)
    requires k < |pv|
    ensures Reported(pv[..k + 1]) ==
      Reported(pv[..k]) + (if pv[k].conflicts.Some? then WithSource(pv[k].sourcePath, pv[k].conflicts.value) else [])
    ensures AppliedCount(pv[..k + 1]) == AppliedCount(pv[..k]) + (if Clean(pv[k]) then 1 else 0)
    ensures Writes(pv[..k + 1]) ==
      Writes(pv[..k]) + (if Clean(pv[k]) then [(pv[k].destPath, Payload(WriteSet(pv[k].pendingUpdates)))] else [])
  {
    assert pv[..k + 1][..k] == pv[..k];
  }

  lemma StampStep(rows: Table<string, Mapping>, pv: seq<PreviewEntry>, now: nat, k: nat)
    requires k < |pv|
    ensures StampAll(rows, pv[..k + 1], now) ==
      if Clean(pv[k]) then Stamped(StampAll(rows, pv[..k], now), pv[k].sourcePath, now) else StampAll(rows, pv[..k], now)
  {
    assert pv[..k + 1][..k] == pv[..k];
  }

  /**
   * `runSync()`: a failing preview fails the run before anything is written;
   * otherwise every clean entry's pending values are written to its Source-B
   * file, every conflict is reported with its source, and the clean entries'
   * mappings are stamped with `now`.
   */
  method RunSync(files: FileStateTable, maps: MappingTable, lib: NodeId3,
                 mtime: string -> Option<nat>, bidir: seq<string>, now: nat)
    returns (r: Result<RunReport>)
    requires maps.Valid()
    modifies maps, lib
    ensures maps.Valid()
    ensures var pv := PreviewOf(Paths(ListInLibrary(files)), old(maps.rows), lib.read, mtime, bidir);
      && (pv.Failure? ==> r == Failure(pv.error) && maps.rows == old(maps.rows) && lib.updates == old(lib.updates))
      && (pv.Success? ==>
            && r == Success(RunReport(AppliedCount(pv.value), Reported(pv.value)))
            && lib.updates == old(lib.updates) + Writes(pv.value)
            && maps.rows == StampAll(old(maps.rows), pv.value, now))
  {
    var preview := PreviewSync(files, maps, lib, mtime, bidir);
    if preview.Failure? {
      return Failure(preview.error);
    }
    var report := ApplyPreview(maps, lib, preview.value, now);
    r := Success(report);
  }

  /** The two loops of `runSync()` over a successful preview: the writes, then the stamps. */
  method ApplyPreview(maps: MappingTable, lib: NodeId3, pv: seq<PreviewEntry>, now: nat) returns (report: RunReport)
    requires maps.Valid()
    modifies maps, lib
    ensures maps.Valid()
    ensures report == RunReport(AppliedCount(pv), Reported(pv))
    ensures lib.updates == old(lib.updates) + Writes(pv)
    ensures maps.rows == StampAll(old(maps.rows), pv, now)
  {
    var applied := 0;
    var conflicts: seq<SourceConflict> := [];
    for k := 0 to |pv|
      invariant applied == AppliedCount(pv[..k])
      invariant conflicts == Reported(pv[..k])
      invariant lib.updates == old(lib.updates) + Writes(pv[..k])
      invariant maps.rows == old(maps.rows)
    {
      RunStep(pv, k);
      var entry := pv[k];
      if entry.conflicts.Some? {
        var tagged := WithSourceOf(entry.sourcePath, entry.conflicts.value);
        conflicts := conflicts + tagged;
        continue;
      }
      if |entry.pendingUpdates| == 0 {
        continue;
      }
      var toWrite := CollectWrites(entry.pendingUpdates);
      var _ := WriteTags(lib, entry.destPath, toWrite);
      applied := applied + 1;
    }
    assert pv[..|pv|] == pv;
    StampClean(maps, pv, now);
    report := RunReport(applied, conflicts);
  }
}
