/**
 * The pairing rule of packages/renderer/src/pages/PairingPage.tsx: each
 * Source-A file named `track_artist_title.mp3` is offered the Source-B file
 * named `artist_track_title.mp3` (letter case ignored), the user selects
 * among the offers, and the selected offers are saved as mappings.
 */
module PairingPage {
  import opened Wrappers
  import opened Text
  import opened Assoc
  import opened Pairing

  // ---------------------------------------------------------------------
  // basenames

  /** The characters of the class `[\\/]`. */
  predicate IsSeparator(c: char) {
    c == '/' || c == '\\'
  }

  /** `path.split(/[\\/]/).pop()`: the text after the last separator (all of it when there is none). */
  function Basename(path: string): (r: string)
    ensures |r| <= |path| && path[|path| - |r|..] == r
    ensures forall i :: 0 <= i < |r| ==> !IsSeparator(r[i])
    ensures |r| < |path| ==> IsSeparator(path[|path| - |r| - 1])
  {
    if path == [] then []
    else if IsSeparator(path[|path| - 1]) then []
    else
      var init := path[..|path| - 1];
      var r := Basename(init);
      assert init[|init| - |r|..] == r;
      assert path[|path| - |r| - 1..] == init[|init| - |r|..] + [path[|path| - 1]];
      r + [path[|path| - 1]]
  }

  /** The key of a destination in `destMap`: its basename in lower case. */
  function DestKey(path: string): string {
    ToLower(Basename(path))
  }

  // ---------------------------------------------------------------------
  // the regular expression /^(\d+)_([^_]+)_(.+)\.mp3$/i

  /** What `.` refuses without the `s` flag. */
  predicate IsLineTerminator(c: char) {
    c == '\n' || c == '\r' || c == '\U{2028}' || c == '\U{2029}'
  }

  /** The three captured groups. */
  datatype NameParts = NameParts(track: string, artist: string, title: string)

  /** Groups that the three sub-patterns `\d+`, `[^_]+` and `.+` can capture. */
  predicate WellFormed(p: NameParts) {
    && p.track != [] && (forall i :: 0 <= i < |p.track| ==> IsDigit(p.track[i]))
    && p.artist != [] && (forall i :: 0 <= i < |p.artist| ==> p.artist[i] != '_')
    && p.title != [] && (forall i :: 0 <= i < |p.title| ==> !IsLineTerminator(p.title[i]))
  }

  /** The length of the run of digits `\d+` can take at the start of `s`. */
  function DigitRun(s: string): (n: nat)
    ensures n <= |s|
    ensures forall i :: 0 <= i < n ==> IsDigit(s[i])
    ensures n < |s| ==> !IsDigit(s[n])
  {
    if s == [] || !IsDigit(s[0]) then 0 else 1 + DigitRun(s[1..])
  }

  /** The length of the run of non-underscores `[^_]+` can take at the start of `s`. */
  function ArtistRun(s: string): (n: nat)
    ensures n <= |s|
    ensures forall i :: 0 <= i < n ==> s[i] != '_'
    ensures n < |s| ==> s[n] == '_'
  {
    if s == [] || s[0] == '_' then 0 else 1 + ArtistRun(s[1..])
  }

  /** A run ends at the first character outside its class. */
  lemma {:induction false} DigitRunOf(s: string, n: nat)
    requires n < |s| && (forall i :: 0 <= i < n ==> IsDigit(s[i])) && !IsDigit(s[n])
    ensures DigitRun(s) == n
  {
    if n > 0 {
      DigitRunOf(s[1..], n - 1);
    }
  }

  lemma {:induction false} ArtistRunOf(s: string, n: nat)
    requires n < |s| && (forall i :: 0 <= i < n ==> s[i] != '_') && s[n] == '_'
    ensures ArtistRun(s) == n
  {
    if n > 0 {
      ArtistRunOf(s[1..], n - 1);
    }
  }

  /** `\.mp3` under the `i` flag: a dot, `m` or `M`, `p` or `P`, and `3`. */
  predicate IsMp3Ext(e: string) {
    |e| == 4 && e[0] == '.' && (e[1] == 'm' || e[1] == 'M') && (e[2] == 'p' || e[2] == 'P') && e[3] == '3'
  }

  /** `(.+)\.mp3$` on what follows the second `_`: the title, before a final `.mp3` in any letter case. */
  function TitleOf(tail: string): (r: Option<string>)
    ensures r.Some? ==> |tail| >= 5 && r.value == tail[..|tail| - 4] && IsMp3Ext(tail[|tail| - 4..])
    ensures r.Some? ==> forall i :: 0 <= i < |r.value| ==> !IsLineTerminator(r.value[i])
  {
    if |tail| < 5 || !IsMp3Ext(tail[|tail| - 4..]) then None
    else if exists i :: 0 <= i < |tail| - 4 && IsLineTerminator(tail[i]) then None
    else Some(tail[..|tail| - 4])
  }

  /** `([^_]+)_(.+)\.mp3$` on what follows the first `_`: the artist and the title (the track is left empty). */
  function ArtistTitle(rest: string): Option<NameParts> {
    var m := ArtistRun(rest);
    if m == 0 || m == |rest| then None
    else
      var title := TitleOf(rest[m + 1..]);
      if title.None? then None else Some(NameParts("", rest[..m], title.value))
  }

  /**
   * `regex.exec(name)`: the digits must be followed by `_` and the artist by
   * the next `_` (backtracking cannot end either group elsewhere), and the
   * title is everything up to the final `.mp3`.
   */
  function ParseName(name: string): (r: Option<NameParts>)
    ensures r.Some? ==> WellFormed(r.value) && |name| >= 4 && IsMp3Ext(name[|name| - 4..])
  {
    var n := DigitRun(name);
    if n == 0 || n == |name| || name[n] != '_' then None
    else
      var rest := name[n + 1..];
      var parts := ArtistTitle(rest);
      if parts.None? then None
      else
        ArtistTitleSound(rest);
        DigitPrefix(name);
        assert rest[|rest| - 4..] == name[|name| - 4..];
        Some(parts.value.(track := name[..n]))
  }

  /** The track group, as a string of its own, is all digits. */
  lemma DigitPrefix(name: string)
    ensures forall i :: 0 <= i < DigitRun(name) ==> IsDigit(name[..DigitRun(name)][i])
  {
  }

  /** The artist group, as a string of its own, holds no underscore. */
  lemma ArtistPrefix(rest: string)
    ensures forall i :: 0 <= i < ArtistRun(rest) ==> rest[..ArtistRun(rest)][i] != '_'
  {
  }

  /** A string cut at one of its underscores. */
  lemma CutAt(s: string, n: nat)
    requires n < |s| && s[n] == '_'
    ensures s == s[..n] + "_" + s[n + 1..]
  {
  }

  /** The pieces of a string joined at an underscore. */
  lemma JoinAt(a: string, b: string)
    ensures (a + "_" + b)[..|a|] == a && (a + "_" + b)[|a|] == '_' && (a + "_" + b)[|a| + 1..] == b
  {
  }

  lemma ArtistTitleSound(rest: string)
    requires ArtistTitle(rest).Some?
    ensures var p := ArtistTitle(rest).value;
      && p.artist != [] && (forall i :: 0 <= i < |p.artist| ==> p.artist[i] != '_')
      && p.title != [] && (forall i :: 0 <= i < |p.title| ==> !IsLineTerminator(p.title[i]))
      && |rest| >= 4 && IsMp3Ext(rest[|rest| - 4..]) && rest == p.artist + "_" + p.title + rest[|rest| - 4..]
  {
    var p := ArtistTitle(rest).value;
    var m := ArtistRun(rest);
    var tail := rest[m + 1..];
    ArtistPrefix(rest);
    assert p == NameParts("", rest[..m], TitleOf(tail).value);
    CutAt(rest, m);
    var ext := tail[|tail| - 4..];
    SplitEnd(tail, |tail| - 4);
    Reassemble(rest, p.artist, tail, p.title, ext);
  }

  lemma SplitEnd(s: string, k: nat)
    requires k <= |s|
    ensures s == s[..k] + s[k..]
  {
  }

  /** The pieces glued back together, and the extension as the end of the whole. */
  lemma Reassemble(whole: string, head: string, tail: string, title: string, ext: string)
    requires whole == head + "_" + tail && tail == title + ext
    ensures whole == head + "_" + title + ext
    ensures |whole| >= |ext| && whole[|whole| - |ext|..] == ext
  {
  }

  /** A match yields groups the sub-patterns can capture, around `_`, `_` and a final `.mp3`. */
  lemma ParseNameSound(name: string)
    requires ParseName(name).Some?
    ensures var p := ParseName(name).value;
      && WellFormed(p) && |name| >= 4 && IsMp3Ext(name[|name| - 4..])
      && name == p.track + "_" + p.artist + "_" + p.title + name[|name| - 4..]
  {
    var n := DigitRun(name);
    var rest := name[n + 1..];
    var q := ArtistTitle(rest).value;
    ArtistTitleSound(rest);
    CutAt(name, n);
    var track := name[..n];
    DigitPrefix(name);
    var ext := rest[|rest| - 4..];
    Regroup(name, track, rest, q.artist, q.title, ext);
    var p := NameParts(track, q.artist, q.title);
    assert ParseName(name).value == p;
    assert WellFormed(p);
    assert name[|name| - 4..] == ext;
  }

  /** The name glued back from the track and the rest, the rest being already glued. */
  lemma Regroup(name: string, track: string, rest: string, artist: string, title: string, ext: string)
    requires name == track + "_" + rest && rest == artist + "_" + title + ext
    ensures name == track + "_" + artist + "_" + title + ext
    ensures |name| >= |ext| && name[|name| - |ext|..] == ext
  {
  }

  lemma TitleOfComplete(title: string, ext: string)
    requires title != [] && (forall i :: 0 <= i < |title| ==> !IsLineTerminator(title[i]))
    requires IsMp3Ext(ext)
    ensures TitleOf(title + ext) == Some(title)
  {
    var tail := title + ext;
    assert tail[|tail| - 4..] == ext && tail[..|tail| - 4] == title;
    assert forall i :: 0 <= i < |tail| - 4 ==> tail[i] == title[i];
  }

  lemma ArtistTitleComplete(artist: string, title: string, ext: string)
    requires artist != [] && (forall i :: 0 <= i < |artist| ==> artist[i] != '_')
    requires title != [] && (forall i :: 0 <= i < |title| ==> !IsLineTerminator(title[i]))
    requires IsMp3Ext(ext)
    ensures ArtistTitle(artist + "_" + (title + ext)) == Some(NameParts("", artist, title))
  {
    var rest := artist + "_" + (title + ext);
    JoinAt(artist, title + ext);
    ArtistRunOf(rest, |artist|);
    TitleOfComplete(title, ext);
  }

  /** Every name of the shape `track_artist_title.mp3` is matched, and with exactly those groups. */
  lemma ParseNameComplete(p: NameParts, ext: string)
    requires WellFormed(p) && IsMp3Ext(ext)
    ensures ParseName(p.track + "_" + p.artist + "_" + p.title + ext) == Some(p)
  {
    var rest := p.artist + "_" + (p.title + ext);
    var name := p.track + "_" + rest;
    assert p.track + "_" + p.artist + "_" + p.title + ext == name;
    JoinAt(p.track, rest);
    DigitRunOf(name, |p.track|);
    ArtistTitleComplete(p.artist, p.title, ext);
  }

  /** `${artist}_${track}_${title}.mp3`. */
  function DestName(p: NameParts): string {
    p.artist + "_" + p.track + "_" + p.title + ".mp3"
  }

  // ---------------------------------------------------------------------
  // suggestions

  /** A row of the pairing table; `destPath` and `destName` are null together. */
  datatype Suggestion = Suggestion(sourcePath: string, sourceName: string, destPath: Option<string>, destName: Option<string>)

  /** The `destMap.set` calls of the `forEach`, in order. */
  function DestPairs(dsts: seq<string>): (r: seq<(string, string)>)
    ensures |r| == |dsts|
    ensures forall i :: 0 <= i < |dsts| ==> r[i] == (DestKey(dsts[i]), dsts[i])
  {
    seq(|dsts|, i requires 0 <= i < |dsts| => (DestKey(dsts[i]), dsts[i]))
  }

  /** `destMap` once filled. */
  function DestMap(dsts: seq<string>): Table<string, string> {
    PutAll([], DestPairs(dsts))
  }

  /** The `forEach` that fills `destMap`, one `set` per destination. */
  method BuildDestMap(dsts: seq<string>) returns (destMap: Table<string, string>)
    ensures destMap == DestMap(dsts)
  {
    destMap := [];
    for i := 0 to |dsts|
      invariant destMap == DestMap(dsts[..i])
    {
      DestMapStep(dsts, i);
      destMap := Put(destMap, DestKey(dsts[i]), dsts[i]);
    }
    TakeAll(dsts);
  }

  lemma DestMapStep(dsts: seq<string>, i: nat)
    requires i < |dsts|
    ensures DestMap(dsts[..i + 1]) == Put(DestMap(dsts[..i]), DestKey(dsts[i]), dsts[i])
  {
    var pairs := DestPairs(dsts[..i + 1]);
    assert pairs[..i] == DestPairs(dsts[..i]);
    assert pairs[i] == (DestKey(dsts[i]), dsts[i]);
  }

  /** The suggestion for one source, looked up in a filled `destMap`. */
  function Suggest(src: string, destMap: Table<string, string>): Suggestion {
    var name := Basename(src);
    var parsed := ParseName(name);
    if parsed.Some? then
      var dn := DestName(parsed.value);
      var hit := Find(destMap, ToLower(dn));
      Suggestion(src, name, if hit.Some? then Some(hit.value) else None, if hit.Some? then Some(dn) else None)
    else
      Suggestion(src, name, None, None)
  }

  function SuggestionsOf(srcs: seq<string>, destMap: Table<string, string>): (r: seq<Suggestion>)
    ensures |r| == |srcs|
    ensures forall i :: 0 <= i < |srcs| ==> r[i] == Suggest(srcs[i], destMap) && r[i].sourcePath == srcs[i]
  {
    seq(|srcs|, i requires 0 <= i < |srcs| => Suggest(srcs[i], destMap))
  }

  /** The `suggestions` memo: one suggestion per source, in source order. */
  method Suggestions(srcs: seq<string>, dsts: seq<string>) returns (r: seq<Suggestion>)
    ensures r == SuggestionsOf(srcs, DestMap(dsts))
  {
    var destMap := BuildDestMap(dsts);
    r := SuggestionsOf(srcs, destMap);
  }

  /** `dsts[j]` has basename key `key`, and no later destination has. */
  predicate LastWithKey(dsts: seq<string>, j: int, key: string) {
    0 <= j < |dsts| && DestKey(dsts[j]) == key && forall j' :: j < j' < |dsts| ==> DestKey(dsts[j']) != key
  }

  /** `destMap.get(key)` is the last destination with that key: a later `set` overwrites an earlier one. */
  lemma DestMapLookup(dsts: seq<string>, key: string)
    ensures Find(DestMap(dsts), key).Some? ==> exists j :: LastWithKey(dsts, j, key) && dsts[j] == Find(DestMap(dsts), key).value
    ensures Find(DestMap(dsts), key).None? ==> forall j :: 0 <= j < |dsts| ==> DestKey(dsts[j]) != key
  {
    var pairs := DestPairs(dsts);
    PutAllLookup([], pairs, key);
    var hit := LastValue(pairs, key);
    if hit.Some? {
      var j :| 0 <= j < |pairs| && pairs[j] == (key, hit.value) && Later(pairs, j, key);
      assert forall j' :: j < j' < |dsts| ==> pairs[j'].0 == DestKey(dsts[j']);
      assert LastWithKey(dsts, j, key);
    } else {
      assert forall j :: 0 <= j < |dsts| ==> pairs[j].0 == DestKey(dsts[j]);
    }
  }

  /**
   * A source is offered the destination whose lower-case basename is the
   * lower-case candidate name, the last such destination when there are
   * several; it is offered nothing when its name does not match the pattern
   * or no destination has that basename.
   */
  lemma SuggestionTarget(src: string, dsts: seq<string>)
    ensures var s := Suggest(src, DestMap(dsts));
      && s.sourcePath == src && s.sourceName == Basename(src)
      && (s.destPath.Some? <==> s.destName.Some?)
      && (s.destName.Some? ==> ParseName(Basename(src)).Some? && s.destName.value == DestName(ParseName(Basename(src)).value))
      && (s.destPath.Some? ==>
            exists j :: LastWithKey(dsts, j, ToLower(s.destName.value)) && dsts[j] == s.destPath.value)
      && (s.destPath.None? ==>
            ParseName(Basename(src)).None? || NoDestFor(dsts, ParseName(Basename(src)).value))
  {
    var parsed := ParseName(Basename(src));
    if parsed.Some? {
      DestMapLookup(dsts, ToLower(DestName(parsed.value)));
    }
  }

  /** No destination's basename is the candidate name of `p`, letter case aside. */
  predicate NoDestFor(dsts: seq<string>, p: NameParts) {
    forall j :: 0 <= j < |dsts| ==> DestKey(dsts[j]) != ToLower(DestName(p))
  }

  /** An offered destination path is never empty, so the truthiness test on `destPath` only asks whether there is one. */
  lemma OfferedPathNonEmpty(src: string, dsts: seq<string>)
    ensures Suggest(src, DestMap(dsts)).destPath.Some? ==> Suggest(src, DestMap(dsts)).destPath.value != ""
  {
    var s := Suggest(src, DestMap(dsts));
    SuggestionTarget(src, dsts);
    if s.destPath.Some? {
      var j :| LastWithKey(dsts, j, ToLower(s.destName.value)) && dsts[j] == s.destPath.value;
      assert |ToLower(s.destName.value)| > 0;
    }
  }

  // ---------------------------------------------------------------------
  // allMatches, selection and toSave

  /** The filter `s => s.destPath`: a destination path that is not the empty string. */
  predicate HasDest(s: Suggestion) {
    s.destPath.Some? && s.destPath.value != ""
  }

  /** `suggestions.filter(s => s.destPath).map(s => s.sourcePath)`, in order. */
  function AllMatches(sugs: seq<Suggestion>): (r: seq<string>)
    ensures |r| <= |sugs|
    ensures forall p :: p in r <==> exists i :: 0 <= i < |sugs| && HasDest(sugs[i]) && sugs[i].sourcePath == p
  {
    if sugs == [] then []
    else
      var rest := AllMatches(sugs[1..]);
      assert forall i :: 1 <= i < |sugs| ==> sugs[i] == sugs[1..][i - 1];
      if HasDest(sugs[0]) then [sugs[0].sourcePath] + rest else rest
  }

  /** Suggestion `s` is selected, has a destination, and is saved as `e`. */
  predicate Saves(s: Suggestion, selected: set<string>, e: Pair) {
    s.sourcePath in selected && HasDest(s) && e == Pair(s.sourcePath, s.destPath.value)
  }

  /** `selected.has(s.sourcePath) && s.destPath`, each mapped to `{sourceAPath, sourceBPath}`, in order. */
  function ToSave(sugs: seq<Suggestion>, selected: set<string>): (r: seq<Pair>)
    ensures |r| <= |sugs|
    ensures forall e :: e in r <==> exists i :: 0 <= i < |sugs| && Saves(sugs[i], selected, e)
  {
    if sugs == [] then []
    else
      var rest := ToSave(sugs[1..], selected);
      assert forall i :: 1 <= i < |sugs| ==> sugs[i] == sugs[1..][i - 1];
      if sugs[0].sourcePath in selected && HasDest(sugs[0]) then [Pair(sugs[0].sourcePath, sugs[0].destPath.value)] + rest
      else rest
  }

  /** The set of checked Source-A paths, held in component state. */
  class Selection {
    var selected: set<string>

    /** The selection starts as the paths that already have a mapping. */
    constructor (existing: set<string>)
      ensures selected == existing
    {
      selected := existing;
    }

    /** `toggle(src)`: remove `src` when it is selected, add it otherwise. */
    method Toggle(src: string)
      modifies this
      ensures selected == Toggled(old(selected), src)
    {
      selected := if src in selected then selected - {src} else selected + {src};
    }

    /** `selectAll()`: exactly the sources that have a match. */
    method SelectAll(allMatches: seq<string>)
      modifies this
      ensures selected == set p | p in allMatches
    {
      selected := set p | p in allMatches;
    }

    /** `clearAll()`. */
    method ClearAll()
      modifies this
      ensures selected == {}
    {
      selected := {};
    }
  }

  function Toggled(s: set<string>, src: string): set<string> {
    if src in s then s - {src} else s + {src}
  }

  /** Toggling flips `src` alone, and toggling twice restores the selection. */
  lemma ToggledFlips(s: set<string>, src: string, other: string)
    ensures src in Toggled(s, src) <==> src !in s
    ensures other != src ==> (other in Toggled(s, src) <==> other in s)
    ensures Toggled(Toggled(s, src), src) == s
  {
  }

  /**
   * Saving the selection pairs every selected source that was offered a
   * destination with that destination: a path listed twice among the sources
   * gets the same offer both times, so the order of the upserts does not matter.
   */
  lemma SavedSelection(rows: Table<string, Mapping>, srcs: seq<string>, destMap: Table<string, string>,
                       selected: set<string>, i: nat)
    requires i < |srcs| && srcs[i] in selected
    requires HasDest(Suggest(srcs[i], destMap))
    ensures var saved := UpsertedAll(rows, ToSave(SuggestionsOf(srcs, destMap), selected));
      Find(saved, srcs[i]).Some? && Find(saved, srcs[i]).value.sourceBPath == Suggest(srcs[i], destMap).destPath.value
  {
    var sugs := SuggestionsOf(srcs, destMap);
    forall j | 0 <= j < |sugs| && sugs[j].sourcePath == sugs[i].sourcePath
      ensures sugs[j] == sugs[i]
    {
      SameSource(srcs, destMap, i, j);
    }
    SavedPairs(rows, sugs, selected, i);
  }

  /** Two sources with the same path get the same suggestion. */
  lemma SameSource(srcs: seq<string>, destMap: Table<string, string>, i: nat, j: nat)
    requires i < |srcs| && j < |srcs|
    requires SuggestionsOf(srcs, destMap)[j].sourcePath == SuggestionsOf(srcs, destMap)[i].sourcePath
    ensures SuggestionsOf(srcs, destMap)[j] == SuggestionsOf(srcs, destMap)[i]
  {
    assert srcs[j] == srcs[i];
  }

  /** The same, for any suggestion list in which one source path always gets one suggestion. */
  lemma SavedPairs(rows: Table<string, Mapping>, sugs: seq<Suggestion>, selected: set<string>, i: nat)
    requires i < |sugs| && sugs[i].sourcePath in selected && HasDest(sugs[i])
    requires forall j :: 0 <= j < |sugs| && sugs[j].sourcePath == sugs[i].sourcePath ==> sugs[j] == sugs[i]
    ensures var saved := UpsertedAll(rows, ToSave(sugs, selected));
      Find(saved, sugs[i].sourcePath).Some? && Find(saved, sugs[i].sourcePath).value.sourceBPath == sugs[i].destPath.value
  {
    var src := sugs[i].sourcePath;
    var es := ToSave(sugs, selected);
    var e := Pair(src, sugs[i].destPath.value);
    assert Saves(sugs[i], selected, e);
    assert e in es;
    var k :| 0 <= k < |es| && es[k] == e;
    assert AsPairs(es)[k].0 == src;
    UpsertedAllLookup(rows, es, src);
    var b := LastValue(AsPairs(es), src);
    var j :| 0 <= j < |AsPairs(es)| && AsPairs(es)[j] == (src, b.value) && Later(AsPairs(es), j, src);
    assert es[j] in es;
    var m :| 0 <= m < |sugs| && Saves(sugs[m], selected, es[j]);
  }
}
