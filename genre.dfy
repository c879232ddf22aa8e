/**
 * `cleanGenre` of packages/main/src/app/services/tag-transformer.service.ts:
 * the two global regular-expression replacements, followed by
 * split(',') / trim / drop empty / join(', '). The replacements are modelled
 * as the JavaScript engine runs them: leftmost match first, resuming after
 * each match, with backtracking over the greedy `\s*` of the first group.
 */
module Genre {
  import opened Wrappers
  import opened Text

  const Bar: char := '‖'

  // ---------------------------------------------------------------------
  // /((?:^|;)\s*)[^;]+?\s*‖\s*/g  replaced by '$1'

  /** The length of the run of white space that starts at `i`. */
  function WsRun(s: string, i: nat): (n: nat)
    requires i <= |s|
    ensures i + n <= |s|
    ensures forall k :: i <= k < i + n ==> IsSpace(s[k])
    ensures i + n < |s| ==> !IsSpace(s[i + n])
    decreases |s| - i
  {
    if i < |s| && IsSpace(s[i]) then 1 + WsRun(s, i + 1) else 0
  }

  /** The first index at or after `i` that holds '‖' or ';', or |s|. */
  function BarOrSemi(s: string, i: nat): (j: nat)
    requires i <= |s|
    ensures i <= j <= |s|
    ensures forall k :: i <= k < j ==> s[k] != Bar && s[k] != ';'
    ensures j < |s| ==> s[j] == Bar || s[j] == ';'
    decreases |s| - i
  {
    if i == |s| || s[i] == Bar || s[i] == ';' then i else BarOrSemi(s, i + 1)
  }

  lemma {:induction false} BarOrSemiAt(s: string, i: nat, j: nat)
    requires i <= j < |s| && (s[j] == Bar || s[j] == ';')
    requires forall k :: i <= k < j ==> s[k] != Bar && s[k] != ';'
    ensures BarOrSemi(s, i) == j
    decreases j - i
  {
    if i < j {
      BarOrSemiAt(s, i + 1, j);
    }
  }

  /**
   * `[^;]+?\s*‖\s*` tried at `q`: the lazy class takes the fewest characters
   * (at least one, none of them ';') after which white space and '‖' follow,
   * so the '‖' used is the first one after `q`. Gives the end of the match.
   */
  function LazyTail(s: string, q: nat): (e: Option<nat>)
    requires q <= |s|
    ensures e.Some? ==> q < e.value <= |s|
  {
    if q < |s| && s[q] != ';' then
      var j := BarOrSemi(s, q + 1);
      if j < |s| && s[j] == Bar then Some(j + 1 + WsRun(s, j + 1)) else None
    else None
  }

  /**
   * The group's `\s*` after `start`: tried with `w` spaces, then with fewer
   * (backtracking). Gives the number of spaces kept and the end of the match.
   */
  function Backtrack(s: string, start: nat, w: nat): (m: Option<(nat, nat)>)
    requires start + w <= |s|
    ensures m.Some? ==> m.value.0 <= w && start + m.value.0 < m.value.1 <= |s|
    decreases w
  {
    match LazyTail(s, start + w)
    case Some(e) => Some((w, e))
    case None => if w == 0 then None else Backtrack(s, start, w - 1)
  }

  /**
   * The pattern tried at `p`: where group 1 ends (the match is replaced by
   * `s[p..k]`) and where the match ends.
   */
  function AnnotationAt(s: string, p: nat): (m: Option<(nat, nat)>)
    requires p <= |s|
    ensures m.Some? ==> p <= m.value.0 < m.value.1 <= |s|
  {
    if p == 0 && Backtrack(s, 0, WsRun(s, 0)).Some? then
      Backtrack(s, 0, WsRun(s, 0))
    else if p < |s| && s[p] == ';' && Backtrack(s, p + 1, WsRun(s, p + 1)).Some? then
      var b := Backtrack(s, p + 1, WsRun(s, p + 1)).value;
      Some((p + 1 + b.0, b.1))
    else None
  }

  function StripAnnotationsFrom(s: string, p: nat): string
    requires p <= |s|
    decreases |s| - p
  {
    if p == |s| then ""
    else
      match AnnotationAt(s, p)
      case Some((k, e)) => s[p..k] + StripAnnotationsFrom(s, e)
      case None => [s[p]] + StripAnnotationsFrom(s, p + 1)
  }

  /** The first replacement: every annotation prefix `… ‖ ` at the start or after ';' is cut. */
  function StripAnnotations(s: string): (r: string)
    ensures |r| <= |s|
    ensures Bar !in s ==> r == s
  {
    StripShorter(s, 0);
    if Bar !in s then NoBarKept(s, 0); StripAnnotationsFrom(s, 0)
    else StripAnnotationsFrom(s, 0)
  }

  // ---------------------------------------------------------------------
  // /\b\d{4}s\b/g  replaced by ''

  /** A standalone decade token such as "1980s" starts at `p`. */
  predicate DecadeAt(s: string, p: nat) {
    && p + 5 <= |s|
    && (p == 0 || !IsWordChar(s[p - 1]))
    && IsDigit(s[p]) && IsDigit(s[p + 1]) && IsDigit(s[p + 2]) && IsDigit(s[p + 3]) && s[p + 4] == 's'
    && (p + 5 == |s| || !IsWordChar(s[p + 5]))
  }

  function StripDecadesFrom(s: string, p: nat): string
    requires p <= |s|
    decreases |s| - p
  {
    if p == |s| then ""
    else if DecadeAt(s, p) then StripDecadesFrom(s, p + 5)
    else [s[p]] + StripDecadesFrom(s, p + 1)
  }

  /** The second replacement: standalone decade tokens are deleted. */
  function StripDecades(s: string): (r: string)
    ensures |r| <= |s|
    ensures (forall k :: 0 <= k < |s| ==> !IsDigit(s[k])) ==> r == s
  {
    DecadesShorter(s, 0);
    if forall k :: 0 <= k < |s| ==> !IsDigit(s[k]) then NoDigitKept(s, 0); StripDecadesFrom(s, 0)
    else StripDecadesFrom(s, 0)
  }

  // ---------------------------------------------------------------------
  // split(',').map(trim).filter(Boolean).join(', ')

  /** A piece of a cleaned genre: not empty, no comma, no white space at either end. */
  predicate CleanPiece(p: string) {
    p != "" && ',' !in p && !IsSpace(p[0]) && !IsSpace(p[|p| - 1])
  }

  function TrimAll(parts: seq<string>): (r: seq<string>)
    ensures |r| == |parts|
    ensures forall k :: 0 <= k < |r| ==> r[k] == Trim(parts[k])
  {
    if parts == [] then [] else [Trim(parts[0])] + TrimAll(parts[1..])
  }

  function NonEmpty(parts: seq<string>): (r: seq<string>)
    ensures forall p :: p in r <==> p in parts && p != ""
  {
    if parts == [] then []
    else if parts[0] == "" then NonEmpty(parts[1..])
    else [parts[0]] + NonEmpty(parts[1..])
  }

  /** The comma-separated pieces of `s`, trimmed, empty ones dropped. */
  function Pieces(s: string): (ps: seq<string>)
    ensures forall p :: p in ps ==> CleanPiece(p)
  {
    var split := Split(s, ',');
    var trimmed := TrimAll(split);
    TrimmedHaveNoComma(split);
    NonEmpty(trimmed)
  }

  lemma TrimmedHaveNoComma(split: seq<string>)
    requires forall k :: 0 <= k < |split| ==> ',' !in split[k]
    ensures forall p :: p in TrimAll(split) && p != "" ==> CleanPiece(p)
  {
    var trimmed := TrimAll(split);
    forall p | p in trimmed && p != "" ensures CleanPiece(p) {
      var k :| 0 <= k < |trimmed| && trimmed[k] == p;
      assert p == Trim(split[k]);
    }
  }

  function CleanGenre(raw: string): (r: string)
    ensures Pieces(r) == Pieces(StripDecades(StripAnnotations(raw)))
    ensures r == "" <==> Pieces(StripDecades(StripAnnotations(raw))) == []
  {
    var ps := Pieces(StripDecades(StripAnnotations(raw)));
    PiecesOfJoin(ps);
    assert Split("", ',') == [""];
    Join(ps, ", ")
  }

  // ---------------------------------------------------------------------
  // Properties

  /** " " before every piece after the first, as splitting ", "-joined text on ',' leaves them. */
  function Spaced(ps: seq<string>): (r: seq<string>)
    ensures |r| == |ps|
    ensures forall k :: 0 <= k < |ps| ==> r[k] == " " + ps[k]
  {
    if ps == [] then [] else [" " + ps[0]] + Spaced(ps[1..])
  }

  lemma {:induction false} SplitJoined(pre: string, ps: seq<string>)
    requires ps != [] && ',' !in pre
    requires forall p :: p in ps ==> ',' !in p
    ensures Split(pre + Join(ps, ", "), ',') == [pre + ps[0]] + Spaced(ps[1..])
    decreases |ps|
  {
    assert ps[0] in ps;
    assert ',' !in pre + ps[0];
    assert forall p :: p in ps[1..] ==> p in ps;
    if |ps| == 1 {
      SplitPiece(pre + ps[0], ',');
    } else {
      calc {
        Split(pre + Join(ps, ", "), ',');
        { assert pre + Join(ps, ", ") == (pre + ps[0]) + [','] + (" " + Join(ps[1..], ", ")); }
        Split((pre + ps[0]) + [','] + (" " + Join(ps[1..], ", ")), ',');
        { SplitAfterPiece(pre + ps[0], " " + Join(ps[1..], ", "), ','); }
        [pre + ps[0]] + Split(" " + Join(ps[1..], ", "), ',');
        { SplitJoined(" ", ps[1..]); }
        [pre + ps[0]] + ([" " + ps[1..][0]] + Spaced(ps[1..][1..]));
        { assert ps[1..][0] == ps[1] && ps[1..][1..] == ps[2..]; }
        [pre + ps[0]] + ([" " + ps[1]] + Spaced(ps[2..]));
        [pre + ps[0]] + Spaced(ps[1..]);
      }
    }
  }

  lemma TrimClean(p: string)
    requires CleanPiece(p)
    ensures Trim(p) == p && Trim(" " + p) == p
  {
    assert (" " + p)[1..] == p;
  }

  lemma {:induction false} NonEmptyKeeps(ps: seq<string>)
    requires forall p :: p in ps ==> p != ""
    ensures NonEmpty(ps) == ps
  {
    if ps != [] {
      assert ps[0] in ps;
      assert forall p :: p in ps[1..] ==> p in ps;
      NonEmptyKeeps(ps[1..]);
    }
  }

  /**
   * Joining clean pieces with ", " and cleaning the result again gives the
   * same pieces back: the split/trim/filter/join step is a normal form.
   */
  lemma PiecesOfJoin(ps: seq<string>)
    requires forall p :: p in ps ==> CleanPiece(p)
    ensures Pieces(Join(ps, ", ")) == ps
  {
    if ps != [] {
      SplitJoined("", ps);
      assert "" + Join(ps, ", ") == Join(ps, ", ");
      TrimSpaced(ps);
      NonEmptyKeeps(ps);
    }
  }

  /** Trimming the pieces as splitting leaves them gives the clean pieces back. */
  lemma TrimSpaced(ps: seq<string>)
    requires ps != []
    requires forall p :: p in ps ==> CleanPiece(p)
    ensures TrimAll([ps[0]] + Spaced(ps[1..])) == ps
  {
    var split := [ps[0]] + Spaced(ps[1..]);
    assert |split| == |ps|;
    forall k | 0 <= k < |ps| ensures Trim(split[k]) == ps[k] {
      assert ps[k] in ps;
      TrimClean(ps[k]);
      if k > 0 {
        assert split[k] == Spaced(ps[1..])[k - 1] == " " + ps[1..][k - 1];
        assert ps[1..][k - 1] == ps[k];
      }
    }
    TrimAllPointwise(split, ps);
  }

  lemma TrimAllPointwise(parts: seq<string>, ps: seq<string>)
    requires |parts| == |ps|
    requires forall k :: 0 <= k < |ps| ==> Trim(parts[k]) == ps[k]
    ensures TrimAll(parts) == ps
  {
  }

  /**
   * The cleaned genre is the comma-separated pieces left after the two
   * replacements, trimmed, with empty ones dropped, joined by ", "; none of
   * its pieces is empty or has white space around it.
   */
  lemma CleanGenrePieces(raw: string)
    ensures var ps := Pieces(StripDecades(StripAnnotations(raw)));
      && CleanGenre(raw) == Join(ps, ", ")
      && (forall p :: p in ps ==> CleanPiece(p))
      && Pieces(CleanGenre(raw)) == ps
  {
    PiecesOfJoin(Pieces(StripDecades(StripAnnotations(raw))));
  }

  // ---------------------------------------------------------------------
  // Decade tokens

  predicate IsDecade(d: string) {
    |d| == 5 && IsDigit(d[0]) && IsDigit(d[1]) && IsDigit(d[2]) && IsDigit(d[3]) && d[4] == 's'
  }

  lemma {:induction false} DecadesBeforeCut(a: string, b: string, q: nat)
    requires q <= |a|
    requires a == [] || !IsWordChar(a[|a| - 1])
    ensures StripDecadesFrom(a + b, q) == StripDecadesFrom(a, q) + StripDecadesFrom(a + b, |a|)
    decreases |a| - q
  {
    var s := a + b;
    if q < |a| {
      assert s[q] == a[q];
      if DecadeAt(s, q) {
        assert s[|a| - 1] == a[|a| - 1];
        assert q + 5 < |a|;
        assert s[q + 5] == a[q + 5];
        assert DecadeAt(a, q);
        DecadesBeforeCut(a, b, q + 5);
      } else {
        assert q + 5 < |a| ==> s[q + 5] == a[q + 5];
        assert !DecadeAt(a, q);
        DecadesBeforeCut(a, b, q + 1);
      }
    }
  }

  lemma {:induction false} DecadesAfterCut(a: string, b: string, q: nat)
    requires q <= |b|
    requires b == [] || !IsWordChar(b[0])
    ensures StripDecadesFrom(a + b, |a| + q) == StripDecadesFrom(b, q)
    decreases |b| - q
  {
    var s := a + b;
    if q < |b| {
      assert s[|a| + q] == b[q];
      assert DecadeAt(s, |a| + q) == DecadeAt(b, q) by {
        if q > 0 {
          assert s[|a| + q - 1] == b[q - 1];
        }
        if q + 5 <= |b| {
          assert s[|a| + q + 1] == b[q + 1] && s[|a| + q + 2] == b[q + 2];
          assert s[|a| + q + 3] == b[q + 3] && s[|a| + q + 4] == b[q + 4];
        }
        if q + 5 < |b| {
          assert s[|a| + q + 5] == b[q + 5];
        }
      }
      if DecadeAt(b, q) {
        DecadesAfterCut(a, b, q + 5);
      } else {
        DecadesAfterCut(a, b, q + 1);
      }
    }
  }

  /**
   * A decade token such as "1980s" standing between non-word characters (or
   * the ends of the text) is deleted, and the text around it is treated as
   * if the token had never been there.
   */
  lemma DecadeRemoved(x: string, d: string, y: string)
    requires IsDecade(d)
    requires x == [] || !IsWordChar(x[|x| - 1])
    requires y == [] || !IsWordChar(y[0])
    ensures StripDecades(x + d + y) == StripDecades(x) + StripDecades(y)
  {
    var s := x + d + y;
    assert s == x + (d + y);
    DecadesBeforeCut(x, d + y, 0);
    assert s[|x|..|x| + 5] == d;
    assert DecadeAt(s, |x|);
    assert s == (x + d) + y;
    DecadesAfterCut(x + d, y, 0);
  }

  lemma {:induction false} NoDigitKept(s: string, p: nat)
    requires p <= |s|
    requires forall k :: p <= k < |s| ==> !IsDigit(s[k])
    ensures StripDecadesFrom(s, p) == s[p..]
    decreases |s| - p
  {
    if p < |s| {
      NoDigitKept(s, p + 1);
      assert s[p..] == [s[p]] + s[p + 1..];
    }
  }

  lemma {:induction false} DecadesShorter(s: string, p: nat)
    requires p <= |s|
    ensures |StripDecadesFrom(s, p)| <= |s| - p
    decreases |s| - p
  {
    if p < |s| {
      if DecadeAt(s, p) {
        DecadesShorter(s, p + 5);
      } else {
        DecadesShorter(s, p + 1);
      }
    }
  }

  // ---------------------------------------------------------------------
  // Annotation prefixes

  lemma {:induction false} NoSemicolonKept(s: string, p: nat)
    requires 0 < p <= |s|
    requires forall k :: p <= k < |s| ==> s[k] != ';'
    ensures StripAnnotationsFrom(s, p) == s[p..]
    decreases |s| - p
  {
    if p < |s| {
      NoSemicolonKept(s, p + 1);
      assert s[p..] == [s[p]] + s[p + 1..];
    }
  }

  /** Each replacement keeps at most one character per character read. */
  lemma {:induction false} StripShorter(s: string, p: nat)
    requires p <= |s|
    ensures |StripAnnotationsFrom(s, p)| <= |s| - p
    decreases |s| - p
  {
    if p < |s| {
      match AnnotationAt(s, p)
      case Some((_, e)) => StripShorter(s, e);
      case None => StripShorter(s, p + 1);
    }
  }

  /** Without a '‖' no lazy tail, so no backtracking step, finds a match. */
  lemma {:induction false} BacktrackNone(s: string, start: nat, w: nat, p: nat)
    requires p <= start && start + w <= |s|
    requires forall k :: p <= k < |s| ==> s[k] != Bar
    ensures Backtrack(s, start, w).None?
    decreases w
  {
    assert LazyTail(s, start + w).None?;
    if w > 0 {
      BacktrackNone(s, start, w - 1, p);
    }
  }

  lemma NoBarNoAnnotation(s: string, p: nat)
    requires p <= |s|
    requires forall k :: p <= k < |s| ==> s[k] != Bar
    ensures AnnotationAt(s, p).None?
  {
    if p == 0 {
      BacktrackNone(s, 0, WsRun(s, 0), p);
    }
    if p < |s| {
      BacktrackNone(s, p + 1, WsRun(s, p + 1), p);
    }
  }

  /** Text without '‖' passes the first replacement unchanged. */
  lemma {:induction false} NoBarKept(s: string, p: nat)
    requires p <= |s|
    requires forall k :: p <= k < |s| ==> s[k] != Bar
    ensures StripAnnotationsFrom(s, p) == s[p..]
    decreases |s| - p
  {
    if p < |s| {
      NoBarNoAnnotation(s, p);
      NoBarKept(s, p + 1);
      assert s[p..] == [s[p]] + s[p + 1..];
    }
  }

  lemma {:induction false} WsRunIsTrimStart(s: string, i: nat)
    requires i <= |s|
    ensures s[i + WsRun(s, i)..] == TrimStart(s[i..])
    decreases |s| - i
  {
    var t := s[i..];
    if i < |s| && IsSpace(s[i]) {
      assert t != [] && t[0] == s[i] && t[1..] == s[i + 1..];
      assert TrimStart(t) == TrimStart(s[i + 1..]);
      var n := WsRun(s, i + 1);
      assert WsRun(s, i) == 1 + n;
      WsRunIsTrimStart(s, i + 1);
      DropAt(s, i + WsRun(s, i), i + 1 + n);
    } else {
      assert t != [] ==> t[0] == s[i];
      assert TrimStart(t) == t;
      assert WsRun(s, i) == 0;
    }
  }

  /**
   * At the start of the genre, the text up to and including the first '‖'
   * and the white space after it is cut. Only that first prefix goes: the
   * rest may hold further '‖'s, and they stay.
   */
  lemma AnnotationCutAtStart(pre: string, post: string)
    requires pre != [] && !IsSpace(pre[0])
    requires Bar !in pre && ';' !in pre && ';' !in post
    ensures StripAnnotations(pre + [Bar] + post) == TrimStart(post)
  {
    var s := pre + [Bar] + post;
    var i := |pre| + 1;
    assert s[..|pre|] == pre && s[|pre|] == Bar && s[i..] == post;
    assert WsRun(s, 0) == 0 by { assert s[0] == pre[0]; }
    var e := LazyTailAfter(s, 0, pre);
    calc {
      StripAnnotations(s);
      StripAnnotationsFrom(s, 0);
      { AnnotationAtStart(s, e); StripAt(s, 0, 0, e); assert s[0..0] == ""; }
      "" + StripAnnotationsFrom(s, e);
      { TailKept(s, i, post, e); }
      "" + s[e..];
      s[e..];
      { SuffixTrim(s, i, post, e); }
      TrimStart(post);
    }
  }

  /** Skipping the white space after position `i` trims the start of the text from there. */
  lemma SuffixTrim(s: string, i: nat, post: string, e: nat)
    requires i <= |s| && s[i..] == post && e == i + WsRun(s, i)
    ensures s[e..] == TrimStart(post)
  {
    calc {
      s[e..];
      { DropAt(s, e, i + WsRun(s, i)); }
      s[i + WsRun(s, i)..];
      { WsRunIsTrimStart(s, i); }
      TrimStart(s[i..]);
      TrimStart(post);
    }
  }

  /** With no white space before it, a match at the start keeps nothing. */
  lemma AnnotationAtStart(s: string, e: nat)
    requires s != [] && WsRun(s, 0) == 0 && LazyTail(s, 0) == Some(e)
    ensures AnnotationAt(s, 0) == Some((0, e))
  {
    assert Backtrack(s, 0, 0) == Some((0, e));
  }

  /** One step of the replacement loop at a match. */
  lemma StripAt(s: string, p: nat, k: nat, e: nat)
    requires p < |s| && AnnotationAt(s, p) == Some((k, e))
    ensures StripAnnotationsFrom(s, p) == s[p..k] + StripAnnotationsFrom(s, e)
  {
  }

  /** The lazy part run from `q` over `pre` (the text before the first '‖'). */
  lemma LazyTailAfter(s: string, q: nat, pre: string) returns (e: nat)
    requires pre != [] && Bar !in pre && ';' !in pre
    requires q + |pre| < |s| && s[q..q + |pre|] == pre && s[q + |pre|] == Bar
    ensures e == q + |pre| + 1 + WsRun(s, q + |pre| + 1)
    ensures LazyTail(s, q) == Some(e)
  {
    assert s[q] == pre[0];
    assert forall k :: q + 1 <= k < q + |pre| ==> s[k] == pre[k - q];
    BarOrSemiAt(s, q + 1, q + |pre|);
    e := q + |pre| + 1 + WsRun(s, q + |pre| + 1);
  }

  /** After a ';' the same happens, and the ';' stays. */
  lemma AnnotationCutAfterSemicolon(x: string, pre: string, post: string)
    requires pre != [] && !IsSpace(pre[0])
    requires Bar !in pre && ';' !in pre && ';' !in post
    ensures StripAnnotationsFrom(x + [';'] + pre + [Bar] + post, |x|) == ";" + TrimStart(post)
  {
    var s := x + [';'] + pre + [Bar] + post;
    var p := |x|;
    assert s[p] == ';';
    assert s[p + 1..p + 1 + |pre|] == pre;
    assert s[p + 1 + |pre|] == Bar;
    assert s[p + 2 + |pre|..] == post;
    SemicolonCut(s, p, pre, post);
  }

  lemma SemicolonCut(s: string, p: nat, pre: string, post: string)
    requires pre != [] && !IsSpace(pre[0])
    requires Bar !in pre && ';' !in pre && ';' !in post
    requires p + 2 + |pre| <= |s| && s[p] == ';' && s[p + 1..p + 1 + |pre|] == pre
    requires s[p + 1 + |pre|] == Bar && s[p + 2 + |pre|..] == post
    ensures StripAnnotationsFrom(s, p) == ";" + TrimStart(post)
  {
    var i := p + 2 + |pre|;
    var e := SemicolonMatch(s, p, pre);
    StripAt(s, p, p + 1, e);
    assert s[p..p + 1] == ";";
    TailKept(s, i, post, e);
    SuffixTrim(s, i, post, e);
  }

  /** At such a ';' the pattern matches up to the white space after the '‖'. */
  lemma SemicolonMatch(s: string, p: nat, pre: string) returns (e: nat)
    requires pre != [] && !IsSpace(pre[0])
    requires Bar !in pre && ';' !in pre
    requires p + 2 + |pre| <= |s| && s[p] == ';' && s[p + 1..p + 1 + |pre|] == pre
    requires s[p + 1 + |pre|] == Bar
    ensures e == p + 2 + |pre| + WsRun(s, p + 2 + |pre|)
    ensures AnnotationAt(s, p) == Some((p + 1, e))
  {
    assert WsRun(s, p + 1) == 0 by { assert s[p + 1] == pre[0]; }
    e := LazyTailAfter(s, p + 1, pre);
    AnnotationAtSemicolon(s, p, e);
  }

  /** The text after the cut holds no ';', so it is copied unchanged. */
  lemma TailKept(s: string, i: nat, post: string, e: nat)
    requires 0 < i <= e <= |s| && s[i..] == post && ';' !in post
    ensures StripAnnotationsFrom(s, e) == s[e..]
  {
    assert forall k :: i <= k < |s| ==> s[k] == post[k - i];
    NoSemicolonKept(s, e);
  }

  /** A match after a ';' with no white space before it keeps only the ';'. */
  lemma AnnotationAtSemicolon(s: string, p: nat, e: nat)
    requires p + 1 < |s| && s[p] == ';'
    requires WsRun(s, p + 1) == 0 && LazyTail(s, p + 1) == Some(e)
    ensures AnnotationAt(s, p) == Some((p + 1, e))
  {
    assert Backtrack(s, p + 1, 0) == Some((0, e));
    if p == 0 {
      assert WsRun(s, 0) == 0;
      assert LazyTail(s, 0).None?;
      assert Backtrack(s, 0, 0).None?;
      AnnotationAtSecond(s, p, e);
    } else {
      AnnotationAtSecond(s, p, e);
    }
  }

  /** When no match starts at the very beginning, a ';' followed by a match keeps the ';'. */
  lemma AnnotationAtSecond(s: string, p: nat, e: nat)
    requires p + 1 < |s| && s[p] == ';'
    requires p == 0 ==> Backtrack(s, 0, WsRun(s, 0)).None?
    requires Backtrack(s, p + 1, WsRun(s, p + 1)) == Some((0, e))
    ensures AnnotationAt(s, p) == Some((p + 1, e))
  {
  }

  // ---------------------------------------------------------------------
  // Segments: no match of the first pattern runs across a ';'

  /** `s` is `x`, then a ';', then more text. */
  predicate SemicolonAfter(s: string, x: string) {
    |x| < |s| && s[|x|] == ';' && forall k :: 0 <= k < |x| ==> s[k] == x[k]
  }

  lemma {:induction false} WsRunBefore(s: string, x: string, i: nat)
    requires SemicolonAfter(s, x) && i <= |x|
    ensures WsRun(s, i) == WsRun(x, i)
    decreases |x| - i
  {
    if i < |x| {
      assert s[i] == x[i];
      WsRunBefore(s, x, i + 1);
    }
  }

  lemma {:induction false} BarOrSemiBefore(s: string, x: string, i: nat)
    requires SemicolonAfter(s, x) && i <= |x|
    ensures BarOrSemi(s, i) == BarOrSemi(x, i)
    decreases |x| - i
  {
    if i < |x| {
      assert s[i] == x[i];
      BarOrSemiBefore(s, x, i + 1);
    }
  }

  lemma LazyTailBefore(s: string, x: string, q: nat)
    requires SemicolonAfter(s, x) && q <= |x|
    ensures LazyTail(s, q) == LazyTail(x, q)
    ensures LazyTail(s, q).Some? ==> LazyTail(s, q).value <= |x|
  {
    if q < |x| {
      BarOrSemiBefore(s, x, q + 1);
      var j := BarOrSemi(s, q + 1);
      if j < |x| {
        WsRunBefore(s, x, j + 1);
        LazyTailSame(s, x, q, j);
      } else {
        LazyTailAtSemicolon(s, x, q);
      }
    } else {
      assert s[q] == ';';
    }
  }

  /** The lazy part finds the same '‖' or ';' inside both texts. */
  lemma LazyTailSame(s: string, x: string, q: nat, j: nat)
    requires q < j < |x| < |s| && s[q] == x[q] && s[j] == x[j]
    requires BarOrSemi(s, q + 1) == j && BarOrSemi(x, q + 1) == j
    requires WsRun(s, j + 1) == WsRun(x, j + 1)
    ensures LazyTail(s, q) == LazyTail(x, q)
    ensures LazyTail(s, q).Some? ==> LazyTail(s, q).value <= |x|
  {
  }

  /** The lazy part runs into the ';' that ends `x`: no match. */
  lemma LazyTailAtSemicolon(s: string, x: string, q: nat)
    requires q < |x| < |s| && s[q] == x[q] && s[|x|] == ';'
    requires BarOrSemi(s, q + 1) == |x| && BarOrSemi(x, q + 1) == |x|
    ensures LazyTail(s, q).None? && LazyTail(x, q).None?
  {
  }

  lemma {:induction false} BacktrackBefore(s: string, x: string, start: nat, w: nat)
    requires SemicolonAfter(s, x) && start + w <= |x|
    ensures Backtrack(s, start, w) == Backtrack(x, start, w)
    ensures Backtrack(s, start, w).Some? ==> Backtrack(s, start, w).value.1 <= |x|
    decreases w
  {
    LazyTailBefore(s, x, start + w);
    if w > 0 {
      BacktrackBefore(s, x, start, w - 1);
    }
  }

  lemma PrefixOf(s: string, x: string, i: nat, j: nat)
    requires SemicolonAfter(s, x) && i <= j <= |x|
    ensures s[i..j] == x[i..j]
  {
    assert |s[i..j]| == |x[i..j]|;
    assert forall k :: 0 <= k < j - i ==> s[i..j][k] == x[i..j][k];
  }

  /** The match at the very start, as the alternative `^` tries it. */
  lemma FirstBefore(s: string, x: string)
    requires SemicolonAfter(s, x) && 0 < |x|
    ensures Backtrack(s, 0, WsRun(s, 0)) == Backtrack(x, 0, WsRun(x, 0))
    ensures Backtrack(s, 0, WsRun(s, 0)).Some? ==> Backtrack(s, 0, WsRun(s, 0)).value.1 <= |x|
  {
    WsRunBefore(s, x, 0);
    BacktrackBefore(s, x, 0, WsRun(s, 0));
  }

  /** The match after a ';' at `p`, as the alternative `;` tries it. */
  lemma SecondBefore(s: string, x: string, p: nat)
    requires SemicolonAfter(s, x) && p < |x|
    ensures Backtrack(s, p + 1, WsRun(s, p + 1)) == Backtrack(x, p + 1, WsRun(x, p + 1))
    ensures Backtrack(s, p + 1, WsRun(s, p + 1)).Some? ==> Backtrack(s, p + 1, WsRun(s, p + 1)).value.1 <= |x|
  {
    WsRunBefore(s, x, p + 1);
    BacktrackBefore(s, x, p + 1, WsRun(s, p + 1));
  }

  /** A match that starts inside `x` is the same match in `x` alone, and ends inside it. */
  lemma AnnotationBefore(s: string, x: string, p: nat)
    requires SemicolonAfter(s, x) && p < |x|
    ensures AnnotationAt(s, p) == AnnotationAt(x, p)
    ensures AnnotationAt(s, p).Some? ==> AnnotationAt(s, p).value.1 <= |x|
  {
    if p == 0 {
      FirstBefore(s, x);
    }
    assert s[p] == x[p];
    if s[p] == ';' {
      SecondBefore(s, x, p);
    }
    AnnotationSame(s, x, p);
  }

  /** Both alternatives of the pattern give the same result at `p` in both texts. */
  lemma AnnotationSame(s: string, x: string, p: nat)
    requires p < |x| < |s| && s[p] == x[p]
    requires p == 0 ==> Backtrack(s, 0, WsRun(s, 0)) == Backtrack(x, 0, WsRun(x, 0))
    requires p == 0 && Backtrack(s, 0, WsRun(s, 0)).Some? ==> Backtrack(s, 0, WsRun(s, 0)).value.1 <= |x|
    requires s[p] == ';' ==> Backtrack(s, p + 1, WsRun(s, p + 1)) == Backtrack(x, p + 1, WsRun(x, p + 1))
    requires s[p] == ';' && Backtrack(s, p + 1, WsRun(s, p + 1)).Some? ==>
      Backtrack(s, p + 1, WsRun(s, p + 1)).value.1 <= |x|
    ensures AnnotationAt(s, p) == AnnotationAt(x, p)
    ensures AnnotationAt(s, p).Some? ==> AnnotationAt(s, p).value.1 <= |x|
  {
  }

  /** A step of the scan over `x` that copies one character is the same step over `s`. */
  lemma CopyBefore(s: string, x: string, q: nat)
    requires q < |x| < |s| && s[q] == x[q]
    requires AnnotationAt(s, q).None? && AnnotationAt(x, q).None?
    requires StripAnnotationsFrom(s, q + 1) == StripAnnotationsFrom(x, q + 1) + StripAnnotationsFrom(s, |x|)
    ensures StripAnnotationsFrom(s, q) == StripAnnotationsFrom(x, q) + StripAnnotationsFrom(s, |x|)
  {
  }

  /** A step of the scan over `x` that replaces a match is the same step over `s`. */
  lemma MatchBefore(s: string, x: string, q: nat, k: nat, e: nat)
    requires q < |x| < |s| && q <= k <= |x| && s[q..k] == x[q..k]
    requires AnnotationAt(s, q) == Some((k, e)) && AnnotationAt(x, q) == Some((k, e))
    requires StripAnnotationsFrom(s, e) == StripAnnotationsFrom(x, e) + StripAnnotationsFrom(s, |x|)
    ensures StripAnnotationsFrom(s, q) == StripAnnotationsFrom(x, q) + StripAnnotationsFrom(s, |x|)
  {
  }

  /** One step of the scan inside `x`: it moves to `next`, and what it emits is the same over `s` and over `x`. */
  lemma StepBefore(s: string, x: string, q: nat) returns (next: nat)
    requires SemicolonAfter(s, x) && q < |x|
    ensures q < next <= |x|
    ensures StripAnnotationsFrom(s, next) == StripAnnotationsFrom(x, next) + StripAnnotationsFrom(s, |x|) ==>
      StripAnnotationsFrom(s, q) == StripAnnotationsFrom(x, q) + StripAnnotationsFrom(s, |x|)
  {
    AnnotationBefore(s, x, q);
    var m := AnnotationAt(s, q);
    if m.Some? {
      next := m.value.1;
      PrefixOf(s, x, q, m.value.0);
      if StripAnnotationsFrom(s, next) == StripAnnotationsFrom(x, next) + StripAnnotationsFrom(s, |x|) {
        MatchBefore(s, x, q, m.value.0, next);
      }
    } else {
      next := q + 1;
      assert s[q] == x[q];
      if StripAnnotationsFrom(s, next) == StripAnnotationsFrom(x, next) + StripAnnotationsFrom(s, |x|) {
        CopyBefore(s, x, q);
      }
    }
  }

  lemma {:induction false} StripBefore(s: string, x: string, q: nat)
    requires SemicolonAfter(s, x) && q <= |x|
    ensures StripAnnotationsFrom(s, q) == StripAnnotationsFrom(x, q) + StripAnnotationsFrom(s, |x|)
    decreases |x| - q
  {
    if q < |x| {
      var next := StepBefore(s, x, q);
      StripBefore(s, x, next);
    } else {
      assert StripAnnotationsFrom(x, q) == "";
    }
  }

  /**
   * In a ';'-separated genre, the segment after a ';' loses its own
   * annotation prefix while everything before the ';' is replaced as it
   * would be on its own.
   */
  lemma AnnotationCutInSegment(x: string, pre: string, post: string)
    requires pre != [] && !IsSpace(pre[0])
    requires Bar !in pre && ';' !in pre && ';' !in post
    ensures StripAnnotations(x + [';'] + pre + [Bar] + post) == StripAnnotations(x) + ";" + TrimStart(post)
  {
    var rest := pre + [Bar] + post;
    var s := x + [';'] + pre + [Bar] + post;
    SegmentRegroup(x, pre, post);
    AnnotationsSplitAtSemicolon(x, rest);
    AnnotationCutAfterSemicolon(x, pre, post);
    Joined(StripAnnotations(s), StripAnnotations(x), StripAnnotationsFrom(s, |x|), TrimStart(post));
  }

  lemma SegmentRegroup(x: string, pre: string, post: string)
    ensures x + [';'] + pre + [Bar] + post == x + [';'] + (pre + [Bar] + post)
  {
  }

  lemma Joined(whole: string, a: string, b: string, c: string)
    requires whole == a + b && b == ";" + c
    ensures whole == a + ";" + c
  {
  }

  /**
   * The first replacement works segment by segment: on `x;rest` it does to
   * `x` what it does to `x` alone, and resumes at the ';'.
   */
  lemma AnnotationsSplitAtSemicolon(x: string, rest: string)
    ensures StripAnnotations(x + [';'] + rest) ==
      StripAnnotations(x) + StripAnnotationsFrom(x + [';'] + rest, |x|)
  {
    var s := x + [';'] + rest;
    assert SemicolonAfter(s, x);
    StripBefore(s, x, 0);
  }

  /**
   * Cleaning is not idempotent: "a ‖ b ‖ c" cleans to "b ‖ c", which cleans
   * to "c".
   */
  lemma CleanGenreNotIdempotent()
    ensures CleanGenre("a ‖ b ‖ c") == "b ‖ c"
    ensures CleanGenre(CleanGenre("a ‖ b ‖ c")) == "c"
  {
    CleanABC();
    CleanBC();
  }

  lemma CleanABC()
    ensures CleanGenre("a ‖ b ‖ c") == "b ‖ c"
  {
    assert "a ‖ b ‖ c" == "a " + [Bar] + " " + "b ‖ c";
    assert ',' !in "b ‖ c" && ';' !in "b ‖ c";
    assert forall k :: 0 <= k < |"b ‖ c"| ==> !IsDigit("b ‖ c"[k]);
    OneAnnotation("a ", "b ‖ c");
  }

  lemma CleanBC()
    ensures CleanGenre("b ‖ c") == "c"
  {
    assert "b ‖ c" == "b " + [Bar] + " " + "c";
    OneAnnotation("b ", "c");
  }

  lemma OneAnnotation(pre: string, rest: string)
    requires pre != [] && !IsSpace(pre[0]) && Bar !in pre && ';' !in pre && ';' !in rest
    requires CleanPiece(rest)
    requires forall k :: 0 <= k < |rest| ==> !IsDigit(rest[k])
    ensures CleanGenre(pre + [Bar] + " " + rest) == rest
  {
    var post := " " + rest;
    assert pre + [Bar] + " " + rest == pre + [Bar] + post;
    assert TrimStart(post) == rest by { assert post[1..] == rest; }
    AnnotationCutAtStart(pre, post);
    NoDigitKept(rest, 0);
    assert rest[0..] == rest;
    SplitPiece(rest, ',');
    TrimClean(rest);
    assert TrimAll([rest]) == [rest];
    assert NonEmpty([rest]) == [rest];
  }
}
