/**
 * TagTransformerService of packages/main/src/app/services/tag-transformer.service.ts:
 * flattening of the multi-value frames, the genre clean-up (module Genre),
 * the composite comment and `transformAll`, which applies all three to a tag
 * record in place.
 */
module TagTransformer {
  import opened Wrappers
  import opened Text
  import opened Assoc
  import opened Values
  import opened Genre

  /** The frames the library may return as arrays. */
  const MultiValueFrames: seq<string> := ["TCON", "TCMP", "TCOM"]

  /** The prefixes and frames of the comment parts that follow the type part, in order. */
  const CommentFields: seq<(string, string)> :=
    [("km", "TXXX:kaufmonat"), ("kg", "TXXX:kaufgrund"), ("ko", "TXXX:kaufort"), ("lg", "TXXX:livegesehen")]

  // ---------------------------------------------------------------------
  // flattenMultiValues

  /** An array becomes its elements joined with ", "; any other value stays. */
  function Flat(v: Value): (r: Value)
    ensures v.Arr? ==> r.Str?
    ensures !v.Arr? ==> r == v
  {
    if v.Arr? then Str(JoinItems(v, ", ")) else v
  }

  /**
   * Flattening keeps the elements and their order: for an array of strings
   * without commas, splitting the flattened text at ',' gives the first
   * element and then each later element behind the space of the ", ".
   */
  lemma FlatSplits(items: seq<Value>)
    requires items != []
    requires forall i :: 0 <= i < |items| ==> items[i].Str? && ',' !in items[i].s
    ensures
      var parts := Split(Flat(Arr(items)).s, ',');
      && |parts| == |items|
      && parts[0] == items[0].s
      && forall i :: 1 <= i < |items| ==> parts[i] == " " + items[i].s
  {
    var arr := Arr(items);
    var texts := seq(|items|, i requires 0 <= i < |items| => if items[i].Null? then "" else Stringify(items[i]));
    assert Flat(arr).s == Join(texts, ", ");
    assert forall i :: 0 <= i < |items| ==> texts[i] == items[i].s;
    assert forall p :: p in texts ==> ',' !in p;
    var joined := Join(texts, ", ");
    SplitJoined("", texts);
    assert "" + joined == joined;
    var parts := Split(Flat(arr).s, ',');
    calc {
      parts;
      Split(joined, ',');
      Split("" + joined, ',');
      ["" + texts[0]] + Spaced(texts[1..]);
      { assert "" + texts[0] == texts[0]; }
      [texts[0]] + Spaced(texts[1..]);
    }
    forall i | 1 <= i < |items|
      ensures parts[i] == " " + items[i].s
    {
      assert parts[i] == Spaced(texts[1..])[i - 1] == " " + texts[1..][i - 1];
    }
  }

  function FlatOpt(o: Option<Value>): Option<Value> {
    match o
    case Some(v) => Some(Flat(v))
    case None => None
  }

  /** One frame of the loop: an array value is replaced, anything else is left alone. */
  function FlattenFrame(t: Table<string, Value>, f: string): Table<string, Value> {
    var o: Option<Value> := Find(t, f);
    if o.Some? && o.value.Arr? then Put(t, f, Flat(o.value)) else t
  }

  /** The loop over the frames `fs`, one after the other. */
  function FlattenFrames(t: Table<string, Value>, fs: seq<string>): Table<string, Value> {
    if fs == [] then t else FlattenFrame(FlattenFrames(t, fs[..|fs| - 1]), fs[|fs| - 1])
  }

  function Flattened(t: Table<string, Value>): Table<string, Value> {
    FlattenFrames(t, MultiValueFrames)
  }

  /**
   * After the loop, the listed frames hold their flattened values and every
   * other key its old value; no key is added or removed.
   */
  lemma {:induction false} FlattenFramesLookup(t: Table<string, Value>, fs: seq<string>, k: string)
    ensures Find(FlattenFrames(t, fs), k) == if k in fs then FlatOpt(Find(t, k)) else Find(t, k)
    ensures Keys(FlattenFrames(t, fs)) == Keys(t)
  {
    if fs != [] {
      var init, f := fs[..|fs| - 1], fs[|fs| - 1];
      var mid := FlattenFrames(t, init);
      FlattenFramesLookup(t, init, k);
      FlattenFrameLookup(mid, f, k);
      assert FlattenFrames(t, fs) == FlattenFrame(mid, f);
      LastMember(fs, k);
      if k == f && Find(t, k).Some? {
        assert Flat(Flat(Find(t, k).value)) == Flat(Find(t, k).value);
      }
    }
  }

  lemma FlattenFrameLookup(t: Table<string, Value>, f: string, k: string)
    ensures Find(FlattenFrame(t, f), k) == if k == f then FlatOpt(Find(t, f)) else Find(t, k)
    ensures Keys(FlattenFrame(t, f)) == Keys(t)
  {
  }

  lemma FlattenFramesStep(t: Table<string, Value>, fs: seq<string>, i: nat)
    requires i < |fs|
    ensures FlattenFrames(t, fs[..i + 1]) == FlattenFrame(FlattenFrames(t, fs[..i]), fs[i])
  {
    assert fs[..i + 1][..i] == fs[..i];
  }

  /** `flattenMultiValues(tags)`. */
  method FlattenMultiValues(tags: TagRecord)
    requires tags.Valid()
    modifies tags
    ensures tags.Valid()
    ensures tags.entries == Flattened(old(tags.entries))
  {
    for i := 0 to |MultiValueFrames|
      invariant tags.Valid()
      invariant tags.entries == FlattenFrames(old(tags.entries), MultiValueFrames[..i])
    {
      var f := MultiValueFrames[i];
      FlattenFramesStep(old(tags.entries), MultiValueFrames, i);
      var v := tags.Get(f);
      if v.Some? && v.value.Arr? {
        tags.Set(f, Str(JoinItems(v.value, ", ")));
      }
    }
    assert MultiValueFrames[..|MultiValueFrames|] == MultiValueFrames;
  }

  // ---------------------------------------------------------------------
  // buildComment

  /**
   * `(v as string || '').toLowerCase()`: "" for an absent or falsy value; a
   * truthy value that is not a string has no `toLowerCase`, and the call throws.
   */
  function LowerText(o: Option<Value>): Result<string> {
    var v := OrNull(o);
    if !Truthy(v) then Success("")
    else if v.Str? then Success(ToLower(v.s))
    else Failure("toLowerCase is not a function")
  }

  /** The comment's type code, by the fixed priority of the tests. */
  function Typ(genre: string, lyrics: string): (r: string)
    ensures r in ["A", "I", "Vfemale", "Vmale", "Vduet", "Vmixed"]
    ensures r == "A" ==> Contains(genre, "a cappella")
    ensures r == "Vfemale" ==> Contains(genre, "female vocals")
    ensures r == "Vduet" ==> Contains(genre, "duet")
    ensures r == "Vmixed" ==> Contains(genre, "mixed vocals")
  {
    if Contains(genre, "a cappella") then "A"
    else if Contains(lyrics, "instrumental") then "I"
    else if Contains(genre, "female vocals") then "Vfemale"
    else if Contains(genre, "male vocals") then "Vmale"
    else if Contains(genre, "duet") then "Vduet"
    else if Contains(genre, "mixed vocals") then "Vmixed"
    else "I"
  }

  /** Every genre that mentions female vocals also mentions male vocals, so the order of the tests decides. */
  lemma FemaleVocalsShadowMale(genre: string, lyrics: string)
    requires Contains(genre, "female vocals")
    requires !Contains(genre, "a cappella") && !Contains(lyrics, "instrumental")
    ensures Contains(genre, "male vocals")
    ensures Typ(genre, lyrics) == "Vfemale"
  {
    FemaleHasMale(genre);
  }

  lemma {:induction false} FemaleHasMale(genre: string)
    requires Contains(genre, "female vocals")
    ensures Contains(genre, "male vocals")
  {
    var female: string := "female vocals";
    var male: string := "male vocals";
    if female <= genre {
      assert |female| == 13 && female[2..] == male;
      assert genre[2..][..11] == male;
      ContainsAt(genre, male, 2);
    } else {
      FemaleHasMale(genre[1..]);
    }
  }

  /** The type code is one of six, and "Vmale" never stands for a genre that mentions female vocals. */
  lemma TypCodes(genre: string, lyrics: string)
    ensures Typ(genre, lyrics) in ["A", "I", "Vfemale", "Vmale", "Vduet", "Vmixed"]
    ensures Typ(genre, lyrics) == "Vmale" ==> Contains(genre, "male vocals") && !Contains(genre, "female vocals")
    ensures Typ(genre, lyrics) == "A" <==> Contains(genre, "a cappella")
    ensures Typ(genre, lyrics) == "I" <==>
      !Contains(genre, "a cappella")
      && (Contains(lyrics, "instrumental")
          || (!Contains(genre, "male vocals") && !Contains(genre, "duet") && !Contains(genre, "mixed vocals")))
    ensures Typ(genre, lyrics) == "Vfemale" <==>
      !Contains(genre, "a cappella") && !Contains(lyrics, "instrumental") && Contains(genre, "female vocals")
    ensures Typ(genre, lyrics) == "Vmale" <==>
      !Contains(genre, "a cappella") && !Contains(lyrics, "instrumental")
      && !Contains(genre, "female vocals") && Contains(genre, "male vocals")
    ensures Typ(genre, lyrics) == "Vduet" <==>
      !Contains(genre, "a cappella") && !Contains(lyrics, "instrumental")
      && !Contains(genre, "male vocals") && Contains(genre, "duet")
    ensures Typ(genre, lyrics) == "Vmixed" <==>
      !Contains(genre, "a cappella") && !Contains(lyrics, "instrumental")
      && !Contains(genre, "male vocals") && !Contains(genre, "duet") && Contains(genre, "mixed vocals")
  {
    if Contains(genre, "female vocals") && !Contains(genre, "a cappella") && !Contains(lyrics, "instrumental") {
      FemaleVocalsShadowMale(genre, lyrics);
    }
  }

  /** `[ <prefix><value> ]` for a truthy field, no part otherwise. */
  function FieldPart(t: Table<string, Value>, prefix: string, frame: string): seq<string> {
    var v := OrNull(Find(t, frame));
    if Truthy(v) then ["[ " + prefix + Stringify(v) + " ]"] else []
  }

  /** The loop over (prefix, frame) pairs. */
  function FieldParts(t: Table<string, Value>, fields: seq<(string, string)>): seq<string> {
    if fields == [] then []
    else FieldParts(t, fields[..|fields| - 1]) + FieldPart(t, fields[|fields| - 1].0, fields[|fields| - 1].1)
  }

  /** The parts of the comment: energy, type, the four fields, the existing comment. */
  function CommentParts(t: Table<string, Value>): Result<seq<string>> {
    var genre := LowerText(Find(t, "TCON"));
    var lyrics := LowerText(Find(t, "TXXX:keinelyrics"));
    var comm := OrNull(Find(t, "COMM"));
    if genre.Failure? then Failure(genre.error)
    else if lyrics.Failure? then Failure(lyrics.error)
    else
      Success(FieldPart(t, "e", "TXXX:energylevel")
              + ["[ typ" + Typ(genre.value, lyrics.value) + " ]"]
              + FieldParts(t, CommentFields)
              + (if Truthy(comm) then [Stringify(comm)] else []))
  }

  /** `buildComment(tags)`: the parts joined with line breaks. */
  function Comment(t: Table<string, Value>): (r: Result<string>)
    ensures r.Failure? <==>
      (Truthy(OrNull(Find(t, "TCON"))) && !OrNull(Find(t, "TCON")).Str?)
      || (Truthy(OrNull(Find(t, "TXXX:keinelyrics"))) && !OrNull(Find(t, "TXXX:keinelyrics")).Str?)
  {
    var ps := CommentParts(t);
    if ps.Failure? then Failure(ps.error) else Success(Join(ps.value, "\n"))
  }

  /** How many of `frames` hold a truthy value. */
  function TruthyCount(t: Table<string, Value>, frames: seq<string>): nat {
    if frames == [] then 0
    else TruthyCount(t, frames[..|frames| - 1]) + (if Truthy(OrNull(Find(t, frames[|frames| - 1]))) then 1 else 0)
  }

  function Frames(fields: seq<(string, string)>): (r: seq<string>)
    ensures |r| == |fields|
    ensures forall i :: 0 <= i < |fields| ==> r[i] == fields[i].1
  {
    seq(|fields|, i requires 0 <= i < |fields| => fields[i].1)
  }

  lemma {:induction false} FieldPartsCount(t: Table<string, Value>, fields: seq<(string, string)>)
    ensures |FieldParts(t, fields)| == TruthyCount(t, Frames(fields))
  {
    if fields != [] {
      FieldPartsCount(t, fields[..|fields| - 1]);
      assert Frames(fields)[..|fields| - 1] == Frames(fields[..|fields| - 1]);
    }
  }

  lemma FieldPartsStep(t: Table<string, Value>, fields: seq<(string, string)>, i: nat)
    requires i < |fields|
    ensures FieldParts(t, fields[..i + 1]) == FieldParts(t, fields[..i]) + FieldPart(t, fields[i].0, fields[i].1)
  {
    assert fields[..i + 1][..i] == fields[..i];
  }

  /** A truthy field contributes its part. */
  lemma {:induction false} FieldPartsHave(t: Table<string, Value>, fields: seq<(string, string)>, j: nat)
    requires j < |fields| && Truthy(OrNull(Find(t, fields[j].1)))
    ensures "[ " + fields[j].0 + Stringify(OrNull(Find(t, fields[j].1))) + " ]" in FieldParts(t, fields)
  {
    if j < |fields| - 1 {
      FieldPartsHave(t, fields[..|fields| - 1], j);
    }
  }

  /**
   * Otherwise the comment has the type part plus one part per truthy field:
   * energy first when present, then the type part, and the existing comment
   * last when present.
   */
  lemma CommentShape(t: Table<string, Value>)
    requires CommentParts(t).Success?
    ensures
      var ps := CommentParts(t).value;
      var energy := OrNull(Find(t, "TXXX:energylevel"));
      var comm := OrNull(Find(t, "COMM"));
      var e := if Truthy(energy) then 1 else 0;
      && |ps| == 1 + TruthyCount(t, ["TXXX:energylevel"] + Frames(CommentFields) + ["COMM"])
      && (Truthy(energy) ==> ps[0] == "[ e" + Stringify(energy) + " ]")
      && ps[e] == "[ typ" + Typ(LowerText(Find(t, "TCON")).value, LowerText(Find(t, "TXXX:keinelyrics")).value) + " ]"
      && (Truthy(comm) ==> ps[|ps| - 1] == Stringify(comm))
  {
    var ps := CommentParts(t).value;
    var energy := OrNull(Find(t, "TXXX:energylevel"));
    var comm := OrNull(Find(t, "COMM"));
    var typ := "[ typ" + Typ(LowerText(Find(t, "TCON")).value, LowerText(Find(t, "TXXX:keinelyrics")).value) + " ]";
    var ep := FieldPart(t, "e", "TXXX:energylevel");
    var fp := FieldParts(t, CommentFields);
    var cp := if Truthy(comm) then [Stringify(comm)] else [];
    assert ps == ep + [typ] + fp + cp;
    assert |ep| == if Truthy(energy) then 1 else 0;
    PartsAt(ep, typ, fp, cp);
    if Truthy(energy) {
      assert ep[0] == "[ e" + Stringify(energy) + " ]" by {
        assert "[ e" == "[ " + "e";
      }
    }
    CommentCount(t, |ep|, |fp|, |cp|);
  }

  /** Where the parts of a four-piece concatenation sit. */
  lemma PartsAt<T>(a: seq<T>, x: T, b: seq<T>, c: seq<T>)
    ensures |a + [x] + b + c| == |a| + 1 + |b| + |c|
    ensures (a + [x] + b + c)[|a|] == x
    ensures a != [] ==> (a + [x] + b + c)[0] == a[0]
    ensures c != [] ==> (a + [x] + b + c)[|a| + 1 + |b| + |c| - 1] == c[|c| - 1]
  {
  }

  lemma CommentCount(t: Table<string, Value>, e: nat, f: nat, c: nat)
    requires e == |FieldPart(t, "e", "TXXX:energylevel")| && f == |FieldParts(t, CommentFields)|
    requires c == if Truthy(OrNull(Find(t, "COMM"))) then 1 else 0
    ensures 1 + e + f + c == 1 + TruthyCount(t, ["TXXX:energylevel"] + Frames(CommentFields) + ["COMM"])
  {
    FieldPartsCount(t, CommentFields);
    var fs := ["TXXX:energylevel"] + Frames(CommentFields) + ["COMM"];
    assert fs[..|fs| - 1] == ["TXXX:energylevel"] + Frames(CommentFields);
    assert TruthyCount(t, ["TXXX:energylevel"]) == e by {
      assert ["TXXX:energylevel"][..0] == [];
    }
    TruthyCountPrefix(t, "TXXX:energylevel", Frames(CommentFields));
  }

  lemma {:induction false} TruthyCountPrefix(t: Table<string, Value>, f: string, fs: seq<string>)
    ensures TruthyCount(t, [f] + fs) == TruthyCount(t, [f]) + TruthyCount(t, fs)
  {
    if fs != [] {
      TruthyCountPrefix(t, f, fs[..|fs| - 1]);
      assert ([f] + fs)[..|fs|] == [f] + fs[..|fs| - 1];
    }
  }

  /** When no part holds a line break, the comment splits back into its parts. */
  lemma CommentLines(t: Table<string, Value>)
    requires CommentParts(t).Success?
    requires forall k :: 0 <= k < |CommentParts(t).value| ==> '\n' !in CommentParts(t).value[k]
    ensures Split(Comment(t).value, '\n') == CommentParts(t).value
  {
    SplitJoin(CommentParts(t).value, '\n');
  }

  /** `buildComment(tags)`. */
  method BuildComment(tags: TagRecord) returns (r: Result<string>)
    ensures r == Comment(tags.entries)
  {
    var parts: seq<string> := [];
    var energy := OrNull(tags.Get("TXXX:energylevel"));
    if Truthy(energy) {
      parts := parts + ["[ e" + Stringify(energy) + " ]"];
    }
    var genre := LowerText(tags.Get("TCON"));
    if genre.Failure? {
      return Failure(genre.error);
    }
    var lyrics := LowerText(tags.Get("TXXX:keinelyrics"));
    if lyrics.Failure? {
      return Failure(lyrics.error);
    }
    var typ := Typ(genre.value, lyrics.value);
    parts := parts + ["[ typ" + typ + " ]"];
    ghost var head := parts;
    var fields := CollectFieldParts(tags);
    parts := parts + fields;
    var comm := OrNull(tags.Get("COMM"));
    if Truthy(comm) {
      parts := parts + [Stringify(comm)];
    }
    assert head == FieldPart(tags.entries, "e", "TXXX:energylevel") + ["[ typ" + typ + " ]"] by {
      assert "[ e" == "[ " + "e";
    }
    CommentPartsOf(tags.entries, typ, head, parts);
    r := Success(Join(parts, "\n"));
  }

  /** The loop over the labelled fields of `buildComment`. */
  method CollectFieldParts(tags: TagRecord) returns (parts: seq<string>)
    ensures parts == FieldParts(tags.entries, CommentFields)
  {
    parts := [];
    for i := 0 to |CommentFields|
      invariant parts == FieldParts(tags.entries, CommentFields[..i])
    {
      var field := CommentFields[i];
      var v := OrNull(tags.Get(field.1));
      FieldPartsStep(tags.entries, CommentFields, i);
      if Truthy(v) {
        parts := parts + ["[ " + field.0 + Stringify(v) + " ]"];
      }
    }
    assert CommentFields[..|CommentFields|] == CommentFields;
  }

  /** The parts the method collects, once both lower-casings have succeeded. */
  lemma CommentPartsOf(t: Table<string, Value>, typ: string, head: seq<string>, parts: seq<string>)
    requires LowerText(Find(t, "TCON")).Success? && LowerText(Find(t, "TXXX:keinelyrics")).Success?
    requires typ == Typ(LowerText(Find(t, "TCON")).value, LowerText(Find(t, "TXXX:keinelyrics")).value)
    requires head == FieldPart(t, "e", "TXXX:energylevel") + ["[ typ" + typ + " ]"]
    requires parts == head + FieldParts(t, CommentFields)
      + (if Truthy(OrNull(Find(t, "COMM"))) then [Stringify(OrNull(Find(t, "COMM")))] else [])
    ensures CommentParts(t) == Success(parts)
  {
  }

  // ---------------------------------------------------------------------
  // transformAll

  /** The genre is cleaned when TCON holds a string. */
  function CleanTcon(t: Table<string, Value>): Table<string, Value> {
    var g: Option<Value> := Find(t, "TCON");
    if g.Some? && g.value.Str? then Put(t, "TCON", Str(CleanGenre(g.value.s))) else t
  }

  /** The record once flattened and genre-cleaned, before the comment is built. */
  function Prepared(t: Table<string, Value>): Table<string, Value> {
    CleanTcon(Flattened(t))
  }

  /** `transformAll(tags)`, or the error `buildComment` throws. */
  function Transformed(t: Table<string, Value>): Result<Table<string, Value>> {
    var p := Prepared(t);
    var c := Comment(p);
    if c.Failure? then Failure(c.error) else Success(Put(p, "COMM", Str(c.value)))
  }

  /**
   * What a transformed record holds: COMM is always the built comment, TCMP
   * and TCOM are flattened, TCON is flattened and then cleaned if it is a
   * string, every other key keeps its value, and only COMM can be new.
   */
  lemma TransformedLookup(t: Table<string, Value>, k: string)
    requires Transformed(t).Success?
    ensures Find(Transformed(t).value, "COMM") == Some(Str(Comment(Prepared(t)).value))
    ensures (k == "TCMP" || k == "TCOM") ==> Find(Transformed(t).value, k) == FlatOpt(Find(t, k))
    ensures Find(Transformed(t).value, "TCON") ==
      var g := FlatOpt(Find(t, "TCON"));
      if g.Some? && g.value.Str? then Some(Str(CleanGenre(g.value.s))) else g
    ensures k != "TCON" && k != "TCMP" && k != "TCOM" && k != "COMM" ==> Find(Transformed(t).value, k) == Find(t, k)
    ensures Keys(Transformed(t).value) == if "COMM" in Keys(t) then Keys(t) else Keys(t) + ["COMM"]
  {
    var p := Prepared(t);
    assert Transformed(t).value == Put(p, "COMM", Str(Comment(p).value));
    PreparedLookup(t, k);
    CommentAdded(t, p, Comment(p).value, k);
  }

  /** Setting COMM on the prepared record leaves every other key as it was. */
  lemma CommentAdded(t: Table<string, Value>, p: Table<string, Value>, c: string, k: string)
    requires Keys(p) == Keys(t)
    requires (k == "TCMP" || k == "TCOM") ==> Find(p, k) == FlatOpt(Find(t, k))
    requires k != "TCON" && k != "TCMP" && k != "TCOM" ==> Find(p, k) == Find(t, k)
    ensures Find(Put(p, "COMM", Str(c)), "COMM") == Some(Str(c))
    ensures Find(Put(p, "COMM", Str(c)), "TCON") == Find(p, "TCON")
    ensures (k == "TCMP" || k == "TCOM") ==> Find(Put(p, "COMM", Str(c)), k) == FlatOpt(Find(t, k))
    ensures k != "TCON" && k != "TCMP" && k != "TCOM" && k != "COMM" ==> Find(Put(p, "COMM", Str(c)), k) == Find(t, k)
    ensures Keys(Put(p, "COMM", Str(c))) == if "COMM" in Keys(t) then Keys(t) else Keys(t) + ["COMM"]
  {
    FrameNamesDiffer();
    var r := Put(p, "COMM", Str(c));
    if "COMM" in Keys(t) {
      calc {
        Keys(r);
        Keys(p);
        Keys(t);
      }
    } else {
      calc {
        Keys(r);
        Keys(p) + ["COMM"];
        Keys(t) + ["COMM"];
      }
    }
  }

  lemma FrameNamesDiffer()
    ensures "TCON" != "COMM" && "TCMP" != "COMM" && "TCOM" != "COMM"
  {
    assert "TCON"[1] != "COMM"[1] && "TCMP"[1] != "COMM"[1] && "TCOM"[2] != "COMM"[2];
  }

  /** After flattening and genre clean-up, only the three frames can differ, and no key is added or removed. */
  lemma PreparedLookup(t: Table<string, Value>, k: string)
    ensures (k == "TCMP" || k == "TCOM") ==> Find(Prepared(t), k) == FlatOpt(Find(t, k))
    ensures Find(Prepared(t), "TCON") ==
      var g := FlatOpt(Find(t, "TCON"));
      if g.Some? && g.value.Str? then Some(Str(CleanGenre(g.value.s))) else g
    ensures k != "TCON" && k != "TCMP" && k != "TCOM" ==> Find(Prepared(t), k) == Find(t, k)
    ensures Keys(Prepared(t)) == Keys(t)
  {
    FlattenFramesLookup(t, MultiValueFrames, k);
    FlattenFramesLookup(t, MultiValueFrames, "TCON");
    var f := Flattened(t);
    assert Keys(CleanTcon(f)) == Keys(f);
  }

  /** The transformation fails exactly when, after the first two steps, the genre or lyrics hint is a truthy non-string. */
  lemma TransformedFails(t: Table<string, Value>)
    ensures Transformed(t).Failure? <==>
      var p := Prepared(t);
      (Truthy(OrNull(Find(p, "TCON"))) && !OrNull(Find(p, "TCON")).Str?)
      || (Truthy(OrNull(Find(p, "TXXX:keinelyrics"))) && !OrNull(Find(p, "TXXX:keinelyrics")).Str?)
  {
  }

  /** `transformAll(tags)`: the record is changed in place and returned. */
  method TransformAll(tags: TagRecord) returns (r: Result<TagRecord>)
    requires tags.Valid()
    modifies tags
    ensures tags.Valid()
    ensures r.Success? <==> Transformed(old(tags.entries)).Success?
    ensures r.Success? ==> r.value == tags && tags.entries == Transformed(old(tags.entries)).value
    ensures r.Failure? ==> r.error == Transformed(old(tags.entries)).error
    ensures r.Failure? ==> tags.entries == Prepared(old(tags.entries))
  {
    FlattenMultiValues(tags);
    var g := tags.Get("TCON");
    if g.Some? && g.value.Str? {
      tags.Set("TCON", Str(CleanGenre(g.value.s)));
    }
    var c := BuildComment(tags);
    if c.Failure? {
      return Failure(c.error);
    }
    tags.Set("COMM", Str(c.value));
    r := Success(tags);
  }

  // ---------------------------------------------------------------------
  // isBidirectional

  /** `bidirectionalTags.includes(tag)`. */
  function IsBidirectional(bidir: seq<string>, tag: string): (r: bool)
    ensures r <==> tag in bidir
  {
    if bidir == [] then false else bidir[0] == tag || IsBidirectional(bidir[1..], tag)
  }
}
