/**
 * Reading and writing ID3 tags through the NodeID3 library
 * (packages/main/src/app/services/mp3-tag.service.ts). The library itself
 * is outside the model: what `NodeID3.read` returns for a path and what
 * `NodeID3.update` reports are inputs, and every update call is logged.
 */
module Mp3Tag {
  import opened Wrappers
  import opened Text
  import opened Assoc
  import opened Values

  /** `NodeID3.read(path)`: a tag object (its top-level fields in order), or no object at all / a thrown error. */
  datatype ReadOutcome = Tags(top: Table<string, Value>) | NoTags

  /** `NodeID3.update(payload, path)`: `true`, `false`, an Error object, a thrown error, or anything else. */
  datatype UpdateOutcome = ReturnedTrue | ReturnedFalse | ReturnedError | Threw | ReturnedOther

  /** The library and the files it works on, as seen by one operation. */
  class NodeId3 {
    const read: string -> ReadOutcome
    const update: string -> UpdateOutcome
    /** Every `NodeID3.update` call made so far: the path and the tag object passed. */
    var updates: seq<(string, Table<string, Value>)>

    constructor (read: string -> ReadOutcome, update: string -> UpdateOutcome)
      ensures this.read == read && this.update == update && updates == []
    {
      this.read := read;
      this.update := update;
      updates := [];
    }
  }

  /** The fixed table from ID3 frame identifiers to the field names NodeID3 uses at top level. */
  function AliasOf(id: string): Option<string> {
    var aliases := map[
      "TPE1" := "artist", "TIT2" := "title", "TALB" := "album", "TYER" := "year",
      "TCON" := "genre", "TRCK" := "trackNumber", "TPOS" := "partOfSet", "TCOM" := "composer",
      "TPE2" := "performerInfo", "TLEN" := "length", "TBPM" := "bpm", "TKEY" := "initialKey"];
    if id in aliases then Some(aliases[id]) else None
  }

  /** The result of resolving one identifier: no value, a value, or an exception. */
  datatype Lookup = Absent | Found(v: Value) | Throws

  /** What the `find` callback does with one user-defined text entry. */
  datatype EntryTest = NoMatch | Match(value: Option<Value>) | Crash

  /** `f.description?.toLowerCase() === desc.toLowerCase()`, and `f.value` when it holds. */
  function TestEntry(f: Value, desc: string): EntryTest {
    match f
    case Null => Crash
    case Obj(fields) =>
      var d: Option<Value> := Find(fields, "description");
      (match d
       case None => NoMatch
       case Some(Null) => NoMatch
       case Some(Str(d)) => if ToLower(d) == ToLower(desc) then Match(Find(fields, "value")) else NoMatch
       case Some(_) => Crash)
    case _ => NoMatch
  }

  /** `userDefinedText.find(...)`: the first entry whose description matches, ignoring case. */
  function TxxxLookup(items: seq<Value>, desc: string): Lookup {
    if items == [] then Absent
    else
      match TestEntry(items[0], desc)
      case Crash => Throws
      case Match(None) => Absent
      case Match(Some(v)) => Found(v)
      case NoMatch => TxxxLookup(items[1..], desc)
  }

  /** `hasOwnProperty` on a value: only plain objects carry named fields here. */
  function OwnField(o: Option<Value>, name: string): Option<Value> {
    match o
    case Some(Obj(fields)) => Find(fields, name)
    case _ => None
  }

  /** How `readTags` finds one identifier in the library's tag object. */
  function Resolve(top: Table<string, Value>, id: string): (r: Lookup)
    ensures r.Throws? ==> "TXXX:" <= id
    ensures "TXXX:" <= id && !(Find(top, "userDefinedText").Some? && Find(top, "userDefinedText").value.Arr?) ==>
      r == Absent
    ensures id == "COMM" ==>
      (r.Found? <==> Find(top, "comment").Some? && Truthy(Find(top, "comment").value))
    ensures !("TXXX:" <= id) && id != "COMM" ==>
      (r.Found? <==>
        || OwnField(Find(top, "raw"), id).Some?
        || (AliasOf(id).Some? && Find(top, AliasOf(id).value).Some?)
        || Find(top, id).Some?)
  {
    if "TXXX:" <= id then
      var udt: Option<Value> := Find(top, "userDefinedText");
      (match udt
       case Some(Arr(items)) => TxxxLookup(items, id[5..])
       case _ => Absent)
    else if id == "COMM" then
      (match Find(top, "comment")
       case None => Absent
       case Some(c) =>
         if !Truthy(c) then Absent
         else if OwnField(Some(c), "text").Some? then Found(OwnField(Some(c), "text").value)
         else Found(c))
    else if OwnField(Find(top, "raw"), id).Some? then Found(OwnField(Find(top, "raw"), id).value)
    else if AliasOf(id).Some? && Find(top, AliasOf(id).value).Some? then Found(Find(top, AliasOf(id).value).value)
    else if Find(top, id).Some? then Found(Find(top, id).value)
    else Absent
  }

  /** `Resolve` against one tag object, as a function of the identifier. */
  function Resolver(top: Table<string, Value>): string -> Lookup {
    id => Resolve(top, id)
  }

  /** The record built by the loop over `ids`, up to the first exception. */
  function Collect(res: string -> Lookup, ids: seq<string>): Table<string, Value> {
    if ids == [] then []
    else
      var r := Collect(res, ids[..|ids| - 1]);
      match res(ids[|ids| - 1])
      case Found(v) => Put(r, ids[|ids| - 1], v)
      case _ => r
  }

  predicate AnyThrows(res: string -> Lookup, ids: seq<string>) {
    exists i :: 0 <= i < |ids| && res(ids[i]).Throws?
  }

  /** What `readTags(path, ids)` returns, given what the library read. */
  function ReadSpec(o: ReadOutcome, ids: seq<string>): (r: Table<string, Value>)
    ensures Unique(r)
    ensures forall k :: k in Keys(r) ==> k in ids
  {
    match o
    case NoTags => []
    case Tags(top) =>
      if AnyThrows(Resolver(top), ids) then []
      else
        var c := Collect(Resolver(top), ids);
        CollectFind(Resolver(top), ids, "");
        assert forall k :: k in Keys(c) ==> k in ids by {
          forall k | k in Keys(c) ensures k in ids {
            CollectFind(Resolver(top), ids, k);
          }
        }
        c
  }

  method ReadTags(lib: NodeId3, path: string, ids: seq<string>) returns (r: TagRecord)
    ensures fresh(r) && r.Valid()
    ensures r.entries == ReadSpec(lib.read(path), ids)
  {
    r := new TagRecord();
    if lib.read(path).NoTags? {
      return;
    }
    var res := Resolver(lib.read(path).top);
    var i := 0;
    while i < |ids|
      invariant 0 <= i <= |ids|
      invariant r.Valid() && fresh(r)
      invariant r.entries == Collect(res, ids[..i])
      invariant !AnyThrows(res, ids[..i])
    {
      CollectStep(res, ids, i);
      var l := res(ids[i]);
      if l.Throws? {
        r := new TagRecord();
        ThrowsEmpty(lib.read(path), ids, i);
        return;
      } else if l.Found? {
        r.Set(ids[i], l.v);
      }
      i := i + 1;
    }
    assert ids[..i] == ids;
  }

  /** One throwing lookup empties the whole record. */
  lemma ThrowsEmpty(o: ReadOutcome, ids: seq<string>, i: nat)
    requires o.Tags? && i < |ids| && Resolve(o.top, ids[i]).Throws?
    ensures ReadSpec(o, ids) == []
  {
    assert Resolver(o.top)(ids[i]).Throws?;
  }

  lemma CollectStep(res: string -> Lookup, ids: seq<string>, i: nat)
    requires i < |ids|
    ensures Collect(res, ids[..i + 1]) ==
      match res(ids[i]) case Found(v) => Put(Collect(res, ids[..i]), ids[i], v) case _ => Collect(res, ids[..i])
    ensures AnyThrows(res, ids[..i + 1]) <==> AnyThrows(res, ids[..i]) || res(ids[i]).Throws?
    ensures AnyThrows(res, ids[..i]) ==> AnyThrows(res, ids)
  {
    var pre, pre1 := ids[..i], ids[..i + 1];
    assert pre1[..i] == pre && pre1[i] == ids[i];
    ThrowsPrefix(res, ids, i);
  }

  lemma ThrowsPrefix(res: string -> Lookup, ids: seq<string>, i: nat)
    requires i < |ids|
    ensures AnyThrows(res, ids[..i + 1]) <==> AnyThrows(res, ids[..i]) || res(ids[i]).Throws?
    ensures AnyThrows(res, ids[..i]) ==> AnyThrows(res, ids)
  {
    var pre, pre1 := ids[..i], ids[..i + 1];
    assert forall j :: 0 <= j <= i ==> pre1[j] == ids[j];
    assert forall j :: 0 <= j < i ==> pre[j] == ids[j];
  }

  lemma {:induction false} CollectFind(res: string -> Lookup, ids: seq<string>, k: string)
    ensures Unique(Collect(res, ids))
    ensures Find(Collect(res, ids), k) == (if k in ids && res(k).Found? then Some(res(k).v) else None)
  {
    if ids != [] {
      var init := ids[..|ids| - 1];
      var last := ids[|ids| - 1];
      CollectFind(res, init, k);
      LastMember(ids, k);
      var c := Collect(res, init);
      match res(last) {
        case Found(v) =>
          assert Collect(res, ids) == Put(c, last, v);
          PutKeepsUnique(c, last, v);
        case _ =>
          assert Collect(res, ids) == c;
      }
    }
  }


  /**
   * The record `readTags` returns holds an identifier exactly when it was
   * requested and the library's tag object yields a value for it, and then
   * holds that value; with no tag object, or when a lookup throws, it is empty.
   */
  lemma ReadSpecLookup(o: ReadOutcome, ids: seq<string>, k: string)
    ensures Unique(ReadSpec(o, ids))
    ensures (o.NoTags? || AnyThrows(Resolver(o.top), ids)) ==> ReadSpec(o, ids) == []
    ensures o.Tags? && !AnyThrows(Resolver(o.top), ids) ==>
      Find(ReadSpec(o, ids), k) == (if k in ids && Resolve(o.top, k).Found? then Some(Resolve(o.top, k).v) else None)
  {
    if o.Tags? {
      CollectFind(Resolver(o.top), ids, k);
    }
  }

  /**
   * A `TXXX:<desc>` identifier takes the value of the first user-defined text
   * entry whose description equals `desc` ignoring case, when no earlier entry
   * makes the comparison throw.
   */
  lemma {:induction false} TxxxFirstMatch(items: seq<Value>, desc: string, j: nat, d: string, v: Value)
    requires j < |items| && items[j].Obj?
    requires Find(items[j].fields, "description") == Some(Str(d)) && ToLower(d) == ToLower(desc)
    requires Find(items[j].fields, "value") == Some(v)
    requires forall i :: 0 <= i < j ==> TestEntry(items[i], desc) == NoMatch
    ensures TxxxLookup(items, desc) == Found(v)
  {
    TxxxSkip(items, desc, j);
    assert TestEntry(items[j], desc) == Match(Some(v));
    assert items[j..][0] == items[j];
  }

  lemma {:induction false} TxxxSkip(items: seq<Value>, desc: string, j: nat)
    requires j <= |items|
    requires forall i :: 0 <= i < j ==> TestEntry(items[i], desc) == NoMatch
    ensures TxxxLookup(items, desc) == TxxxLookup(items[j..], desc)
  {
    if j > 0 {
      assert TestEntry(items[0], desc) == NoMatch;
      assert items[1..][j - 1..] == items[j..];
      assert forall i :: 0 <= i < j - 1 ==> items[1..][i] == items[i + 1];
      TxxxSkip(items[1..], desc, j - 1);
    }
  }

  /**
   * Which field `readTags` reports for a requested identifier that is
   * neither `TXXX:` nor `COMM`, when no requested lookup throws: the `raw`
   * frame table wins over the alias field, which wins over the field named
   * like the identifier; with none of the three the identifier is absent.
   * For `COMM` the comment's `text` is reported when it has one, else the
   * truthy comment itself.
   */
  lemma ResolvePrecedence(top: Table<string, Value>, ids: seq<string>, id: string)
    ensures id in ids && !("TXXX:" <= id) && id != "COMM" && !AnyThrows(Resolver(top), ids) ==>
      var rec := ReadSpec(Tags(top), ids);
      var raw: Option<Value> := OwnField(Find(top, "raw"), id);
      var alias: Option<Value> := if AliasOf(id).Some? then Find(top, AliasOf(id).value) else None;
      && (raw.Some? ==> Find(rec, id) == raw)
      && (raw.None? && alias.Some? ==> Find(rec, id) == alias)
      && (raw.None? && alias.None? ==> Find(rec, id) == Find(top, id))
    ensures "COMM" in ids && !AnyThrows(Resolver(top), ids) ==>
      var rec := ReadSpec(Tags(top), ids);
      var comment: Option<Value> := Find(top, "comment");
      && (comment.Some? && comment.value.Obj? && Find(comment.value.fields, "text").Some? ==>
            Find(rec, "COMM") == Find(comment.value.fields, "text"))
      && (comment.Some? && comment.value.Obj? && Find(comment.value.fields, "text").None? ==>
            Find(rec, "COMM") == comment)
      && (comment.Some? && !comment.value.Obj? && Truthy(comment.value) ==> Find(rec, "COMM") == comment)
      && (comment.None? || !Truthy(comment.value) ==> Find(rec, "COMM") == None)
  {
    ReadSpecLookup(Tags(top), ids, id);
    ReadSpecLookup(Tags(top), ids, "COMM");
  }

  // ---------------------------------------------------------------------
  // writeTags

  /** The `{language, text}` object written for a `COMM` value, if any. */
  function CommentObject(v: Value): Option<Value> {
    match v
    case Str(s) => Some(Obj([("language", Str("eng")), ("text", Str(s))]))
    case Obj(fields) =>
      if Find(fields, "text").None? then None
      else
        var language: Option<Value> := Find(fields, "language");
        var lang := match language
          case Some(Str(l)) => if l != "" then l else "eng"
          case _ => "eng";
        Some(Obj([("language", Str(lang)), ("text", Find(fields, "text").value)]))
    case _ => None
  }

  /** The entry pushed onto `userDefinedText` for a `TXXX:<desc>` key. */
  function TxxxEntry(key: string, v: Value): Value
    requires "TXXX:" <= key
  {
    Obj([("description", Str(key[5..])), ("value", Str(Stringify(v)))])
  }

  /** One iteration of the payload loop, for the key/value pair `kv`. */
  function PayloadStep(p: Table<string, Value>, kv: (string, Value)): Table<string, Value> {
    if "TXXX:" <= kv.0 then
      var udt: Option<Value> := Find(p, "userDefinedText");
      var items := match udt case Some(Arr(items)) => items case _ => [];
      Put(p, "userDefinedText", Arr(items + [TxxxEntry(kv.0, kv.1)]))
    else if kv.0 == "COMM" then
      (match CommentObject(kv.1)
       case Some(c) => Put(p, "comment", c)
       case None => p)
    else Put(p, kv.0, kv.1)
  }

  /** The tag object after the loop over the entries, before the empty-array clean-up. */
  function PayloadLoop(entries: Table<string, Value>): Table<string, Value> {
    if entries == [] then [("userDefinedText", Arr([]))]
    else PayloadStep(PayloadLoop(entries[..|entries| - 1]), entries[|entries| - 1])
  }

  /** `x?.length === 0`. */
  predicate LengthZero(o: Option<Value>) {
    match o
    case Some(Arr(items)) => items == []
    case Some(Str(s)) => s == ""
    case _ => false
  }

  /** The tag object `writeTags` hands to `NodeID3.update`. */
  function Payload(entries: Table<string, Value>): Table<string, Value> {
    var p := PayloadLoop(entries);
    if LengthZero(Find(p, "userDefinedText")) then Remove(p, "userDefinedText") else p
  }

  /** `writeTags(path, tags)`: build the payload, call the library, report whether it returned `true`. */
  method WriteTags(lib: NodeId3, path: string, tags: TagRecord) returns (ok: bool)
    modifies lib
    ensures lib.updates == old(lib.updates) + [(path, Payload(tags.entries))]
    ensures ok <==> lib.update(path) == ReturnedTrue
  {
    var p: Table<string, Value> := [("userDefinedText", Arr([]))];
    var i := 0;
    while i < |tags.entries|
      invariant 0 <= i <= |tags.entries|
      invariant p == PayloadLoop(tags.entries[..i])
    {
      assert tags.entries[..i + 1][..i] == tags.entries[..i];
      var (key, v) := tags.entries[i];
      if "TXXX:" <= key {
        var udt: Option<Value> := Find(p, "userDefinedText");
        var items := match udt case Some(Arr(items)) => items case _ => [];
        p := Put(p, "userDefinedText", Arr(items + [TxxxEntry(key, v)]));
      } else if key == "COMM" {
        var c := CommentObject(v);
        if c.Some? {
          p := Put(p, "comment", c.value);
        }
      } else {
        p := Put(p, key, v);
      }
      i := i + 1;
    }
    assert tags.entries[..i] == tags.entries;
    if LengthZero(Find(p, "userDefinedText")) {
      p := Remove(p, "userDefinedText");
    }
    lib.updates := lib.updates + [(path, p)];
    ok := lib.update(path) == ReturnedTrue;
  }

  /** The user-defined text entries for the `TXXX:` keys, in key order. */
  function TxxxEntries(entries: Table<string, Value>): seq<Value> {
    if entries == [] then []
    else
      var init := TxxxEntries(entries[..|entries| - 1]);
      var last := entries[|entries| - 1];
      if "TXXX:" <= last.0 then init + [TxxxEntry(last.0, last.1)] else init
  }

  lemma PayloadStepTxxx(p: Table<string, Value>, kv: (string, Value))
    requires kv.0 != "userDefinedText"
    ensures "TXXX:" <= kv.0 && Find(p, "userDefinedText") == Some(Arr(TxxxEntriesOf(p))) ==>
      Find(PayloadStep(p, kv), "userDefinedText") == Some(Arr(TxxxEntriesOf(p) + [TxxxEntry(kv.0, kv.1)]))
    ensures !("TXXX:" <= kv.0) ==> Find(PayloadStep(p, kv), "userDefinedText") == Find(p, "userDefinedText")
  {
  }

  /** The entries of a payload's `userDefinedText` array, if it has one. */
  function TxxxEntriesOf(p: Table<string, Value>): seq<Value> {
    var udt: Option<Value> := Find(p, "userDefinedText");
    match udt case Some(Arr(items)) => items case _ => []
  }

  lemma {:induction false} PayloadLoopTxxx(entries: Table<string, Value>)
    requires "userDefinedText" !in Keys(entries)
    ensures Find(PayloadLoop(entries), "userDefinedText") == Some(Arr(TxxxEntries(entries)))
  {
    if entries != [] {
      var init := entries[..|entries| - 1];
      var last := entries[|entries| - 1];
      KeysInit(entries);
      PayloadLoopTxxx(init);
      PayloadStepTxxx(PayloadLoop(init), last);
    }
  }

  /**
   * Each `TXXX:<desc>` key becomes a `{description: desc, value: String(v)}`
   * entry of `userDefinedText`, in key order, and the array is left out when
   * there is none.
   */
  lemma PayloadTxxx(entries: Table<string, Value>)
    requires "userDefinedText" !in Keys(entries)
    ensures Find(Payload(entries), "userDefinedText") ==
      if TxxxEntries(entries) == [] then None else Some(Arr(TxxxEntries(entries)))
  {
    PayloadLoopTxxx(entries);
  }

  lemma PayloadStepComment(p: Table<string, Value>, kv: (string, Value))
    requires kv.0 != "comment"
    ensures Find(PayloadStep(p, kv), "comment") ==
      if kv.0 == "COMM" && CommentObject(kv.1).Some? then CommentObject(kv.1) else Find(p, "comment")
  {
  }

  lemma {:induction false} PayloadLoopComment(entries: Table<string, Value>)
    requires Unique(entries) && "comment" !in Keys(entries)
    ensures Find(PayloadLoop(entries), "comment") ==
      match Find(entries, "COMM") case Some(v) => CommentObject(v) case None => None
  {
    if entries != [] {
      var init := entries[..|entries| - 1];
      var last := entries[|entries| - 1];
      KeysInit(entries);
      InitUnique(entries);
      PayloadLoopComment(init);
      PayloadStepComment(PayloadLoop(init), last);
      FindLast(entries, "COMM");
      if last.0 == "COMM" {
        LastKeyFresh(entries);
        assert Find(PayloadLoop(init), "comment") == None;
        assert Find(entries, "COMM") == Some(last.1);
      } else {
        assert Find(entries, "COMM") == Find(init, "COMM");
      }
    }
  }

  /** `Find` on a table without repeated keys splits at its last row. */
  lemma FindLast<V>(t: Table<string, V>, k: string)
    requires Unique(t) && t != []
    ensures Find(t, k) == if t[|t| - 1].0 == k then Some(t[|t| - 1].1) else Find(t[..|t| - 1], k)
  {
    var init := t[..|t| - 1];
    if t[|t| - 1].0 == k {
      FindUnique(t, |t| - 1);
    } else {
      FindPrefix(t, |t| - 1, k);
    }
  }

  lemma {:induction false} FindPrefix<V>(t: Table<string, V>, n: nat, k: string)
    requires n <= |t|
    requires forall i :: n <= i < |t| ==> t[i].0 != k
    ensures Find(t, k) == Find(t[..n], k)
  {
    if t != [] && n > 0 {
      assert t[..n][1..] == t[1..][..n - 1];
      FindPrefix(t[1..], n - 1, k);
    } else if t != [] {
      FindPrefix(t[1..], 0, k);
    }
  }

  /**
   * The written comment: a string becomes `{language: 'eng', text}`; an
   * object with `text` keeps a non-empty string language, else 'eng';
   * anything else writes no comment.
   */
  lemma PayloadComment(entries: Table<string, Value>)
    requires Unique(entries) && "comment" !in Keys(entries)
    ensures Find(Payload(entries), "comment") ==
      match Find(entries, "COMM") case Some(v) => CommentObject(v) case None => None
  {
    PayloadLoopComment(entries);
  }

  lemma PayloadStepPlain(p: Table<string, Value>, kv: (string, Value), k: string)
    requires !("TXXX:" <= k) && k != "COMM" && k != "comment" && k != "userDefinedText"
    ensures Find(PayloadStep(p, kv), k) == if kv.0 == k then Some(kv.1) else Find(p, k)
  {
  }

  lemma {:induction false} PayloadLoopPlain(entries: Table<string, Value>, k: string)
    requires Unique(entries)
    requires !("TXXX:" <= k) && k != "COMM" && k != "comment" && k != "userDefinedText"
    ensures Find(PayloadLoop(entries), k) == Find(entries, k)
  {
    if entries != [] {
      var init := entries[..|entries| - 1];
      InitUnique(entries);
      PayloadLoopPlain(init, k);
      PayloadStepPlain(PayloadLoop(init), entries[|entries| - 1], k);
      FindLast(entries, k);
    }
  }

  /** Any other key is copied into the payload unchanged. */
  lemma PayloadPlain(entries: Table<string, Value>, k: string)
    requires Unique(entries)
    requires !("TXXX:" <= k) && k != "COMM" && k != "comment" && k != "userDefinedText"
    ensures Find(Payload(entries), k) == Find(entries, k)
  {
    PayloadLoopPlain(entries, k);
  }
}
