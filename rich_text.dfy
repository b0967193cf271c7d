/**
 * `render_rich_text_html` of scripts/fetch_bluesky_feed.py: facets become
 * link spans over character offsets, the spans are sorted and the ones that
 * overlap an earlier kept span are skipped, and the text is stitched back
 * together with the gaps escaped and the spans turned into anchors.
 */
module RichText {
  import opened Wrappers
  import opened Strings
  import opened Sorting
  import opened BlueskyText

  // ---- HTML escaping ----

  predicate IsMarkup(c: char) {
    c == '<' || c == '>' || c == '"' || c == '\''
  }

  predicate NoMarkup(s: string) {
    forall i :: 0 <= i < |s| ==> !IsMarkup(s[i])
  }

  /** `html.escape` of one character, with `quote=True`. */
  function EscapeChar(c: char): string {
    if c == '&' then "&amp;"
    else if c == '<' then "&lt;"
    else if c == '>' then "&gt;"
    else if c == '"' then "&quot;"
    else if c == '\'' then "&#x27;"
    else [c]
  }

  /** `html.escape(s)`: the result has no markup character left. */
  function Escape(s: string): (r: string)
    ensures NoMarkup(r)
  {
    if s == [] then []
    else
      var r := EscapeChar(s[0]) + Escape(s[1..]);
      assert s == [s[0]] + s[1..];
      r
  }

  /** The entity at the head of `t`, if any: the character it stands for and its length. */
  function Entity(t: string): Option<(char, nat)> {
    if |t| >= 5 && t[0] == '&' && t[1] == 'a' && t[2] == 'm' && t[3] == 'p' && t[4] == ';' then Some(('&', 5))
    else if |t| >= 4 && t[0] == '&' && t[1] == 'l' && t[2] == 't' && t[3] == ';' then Some(('<', 4))
    else if |t| >= 4 && t[0] == '&' && t[1] == 'g' && t[2] == 't' && t[3] == ';' then Some(('>', 4))
    else if |t| >= 6 && t[0] == '&' && t[1] == 'q' && t[2] == 'u' && t[3] == 'o' && t[4] == 't' && t[5] == ';' then Some(('"', 6))
    else if |t| >= 6 && t[0] == '&' && t[1] == '#' && t[2] == 'x' && t[3] == '2' && t[4] == '7' && t[5] == ';' then Some(('\'', 6))
    else None
  }

  /** The reference decoder of the five entities Escape writes. */
  function Unescape(t: string): string {
    if t == [] then []
    else match Entity(t)
      case Some((c, n)) => [c] + Unescape(t[n..])
      case None => [t[0]] + Unescape(t[1..])
  }

  lemma UnescapeChar(c: char, rest: string)
    ensures Unescape(EscapeChar(c) + rest) == [c] + Unescape(rest)
  {
    var t := EscapeChar(c) + rest;
    if c == '&' {
      assert t == "&amp;" + rest;
      assert Entity(t) == Some(('&', 5)) && t[5..] == rest;
    } else if c == '<' {
      assert t == "&lt;" + rest;
      assert Entity(t) == Some(('<', 4)) && t[4..] == rest;
    } else if c == '>' {
      assert t == "&gt;" + rest;
      assert Entity(t) == Some(('>', 4)) && t[4..] == rest;
    } else if c == '"' {
      assert t == "&quot;" + rest;
      assert Entity(t) == Some(('"', 6)) && t[6..] == rest;
    } else if c == '\'' {
      assert t == "&#x27;" + rest;
      assert Entity(t) == Some(('\'', 6)) && t[6..] == rest;
    } else {
      assert t == [c] + rest;
      assert Entity(t) == None && t[1..] == rest;
    }
  }

  /** Escaping loses nothing: decoding the entities gives the text back. */
  lemma {:induction false} UnescapeEscape(s: string)
    ensures Unescape(Escape(s)) == s
  {
    if s != [] {
      UnescapeChar(s[0], Escape(s[1..]));
      UnescapeEscape(s[1..]);
      assert [s[0]] + s[1..] == s;
    }
  }

  /** `.replace("\n", "<br>\n")`. */
  function BreakLines(s: string): (r: string)
    ensures |r| >= |s|
  {
    if s == [] then []
    else (if s[0] == '\n' then "<br>\n" else [s[0]]) + BreakLines(s[1..])
  }

  /** The reference inverse of BreakLines on text without markup: every `<br>` before a line feed goes. */
  function Unbreak(t: string): string {
    if t == [] then []
    else if |t| >= 5 && t[0] == '<' && t[1] == 'b' && t[2] == 'r' && t[3] == '>' && t[4] == '\n' then "\n" + Unbreak(t[5..])
    else [t[0]] + Unbreak(t[1..])
  }

  /** On escaped text BreakLines loses nothing. */
  lemma {:induction false} UnbreakBreakLines(s: string)
    requires NoMarkup(s)
    ensures Unbreak(BreakLines(s)) == s
  {
    if s != [] {
      var rest := BreakLines(s[1..]);
      assert NoMarkup(s[1..]) by {
        forall i | 0 <= i < |s[1..]| ensures !IsMarkup(s[1..][i]) {
          assert s[1..][i] == s[i + 1];
        }
      }
      UnbreakBreakLines(s[1..]);
      var t := BreakLines(s);
      if s[0] == '\n' {
        assert t == "<br>\n" + rest;
        assert t[1] == 'b' && t[5..] == rest;
      } else {
        assert t == [s[0]] + rest;
        assert t[0] == s[0] && t[1..] == rest && t[0] != '<';
      }
      assert [s[0]] + s[1..] == s;
    }
  }

  /** What a plain piece of text becomes. */
  function PlainHtml(raw: string): string {
    BreakLines(Escape(raw))
  }

  /** A plain piece decodes back to its text. */
  lemma PlainHtmlDecodes(raw: string)
    ensures Unescape(Unbreak(PlainHtml(raw))) == raw
  {
    UnbreakBreakLines(Escape(raw));
    UnescapeEscape(raw);
  }

  function AnchorHtml(caption: string, url: string): string {
    "<a href=\"" + Escape(url) + "\" target=\"_blank\" rel=\"noopener noreferrer\">" + Escape(caption) + "</a>"
  }

  // ---- From facets to link spans ----

  /** A link span: character offsets into the text and its target. */
  datatype Link = Link(start: nat, end: nat, url: string)

  /** A link feature, or a mention feature with a non-empty `did`: the features that decide a facet's URL. */
  predicate Decides(f: Feature) {
    f.kind == Some(LinkFeature) || (f.kind == Some(MentionFeature) && Trim(f.did.GetOr("")) != "")
  }

  function DecidedUrl(f: Feature): string {
    if f.kind == Some(LinkFeature) then Trim(f.uri.GetOr("")) else ProfilePrefix + Trim(f.did.GetOr(""))
  }

  /**
   * The URL of a facet's features: the first deciding feature gives it (a link
   * its stripped `uri`, possibly empty; a mention its profile URL), and "" when
   * no feature decides.
   */
  function FeaturesUrl(features: seq<Feature>): (r: string)
    ensures (forall j :: 0 <= j < |features| ==> !Decides(features[j])) ==> r == ""
    ensures forall j :: (0 <= j < |features| && Decides(features[j]) && (forall k :: 0 <= k < j ==> !Decides(features[k])))
                        ==> r == DecidedUrl(features[j])
  {
    if features == [] then ""
    else if Decides(features[0]) then DecidedUrl(features[0])
    else
      var r := FeaturesUrl(features[1..]);
      assert forall j :: 1 <= j < |features| ==> features[j] == features[1..][j - 1];
      r
  }

  /** The inner `for feature` loop, with its two `break`s. */
  method FeatureUrl(features: seq<Feature>) returns (url: string)
    ensures url == FeaturesUrl(features)
  {
    url := "";
    var i := 0;
    while i < |features|
      invariant 0 <= i <= |features|
      invariant FeaturesUrl(features[i..]) == FeaturesUrl(features)
    {
      var f := features[i];
      assert features[i..][0] == f && features[i..][1..] == features[i + 1..];
      if f.kind == Some(LinkFeature) {
        url := Trim(f.uri.GetOr(""));
        return;
      }
      if f.kind == Some(MentionFeature) {
        var did := Trim(f.did.GetOr(""));
        if did != "" {
          url := ProfilePrefix + did;
          return;
        }
      }
      i := i + 1;
    }
  }

  /** A span inside the text, not empty. */
  predicate Fits(l: Link, text: string) {
    l.start < l.end <= |text|
  }

  /**
   * The span of one facet, or None when it is skipped: byte bounds missing, not
   * integers or not increasing; character bounds collapsed; or no URL.
   */
  function FacetLink(text: string, f: Facet): (r: Option<Link>)
    ensures r.Some? ==> Fits(r.value, text) && r.value.url != ""
    ensures r.Some? <==> (f.byteStart.Some? && f.byteEnd.Some? && f.byteStart.value < f.byteEnd.value
                          && CharIndex(text, f.byteStart.value) < CharIndex(text, f.byteEnd.value)
                          && FeaturesUrl(f.features) != "")
    ensures r.Some? ==> r.value == Link(CharIndex(text, f.byteStart.value), CharIndex(text, f.byteEnd.value), FeaturesUrl(f.features))
  {
    if f.byteStart.None? || f.byteEnd.None? || f.byteEnd.value <= f.byteStart.value then None
    else
      var start := CharIndex(text, f.byteStart.value);
      var end := CharIndex(text, f.byteEnd.value);
      if end <= start then None
      else
        var url := FeaturesUrl(f.features);
        if url == "" then None else Some(Link(start, end, url))
  }

  /** The `links` list after the facet loop: one span per kept facet, in facet order. */
  function Candidates(text: string, facets: seq<Facet>): (r: seq<Link>)
    ensures forall k :: 0 <= k < |r| ==> Fits(r[k], text) && r[k].url != ""
    ensures forall l :: l in r <==> exists i :: 0 <= i < |facets| && FacetLink(text, facets[i]) == Some(l)
  {
    if facets == [] then []
    else
      var init := Candidates(text, facets[..|facets| - 1]);
      CandidatesStep(facets, init, f => FacetLink(text, f));
      init + (if FacetLink(text, facets[|facets| - 1]).Some? then [FacetLink(text, facets[|facets| - 1]).value] else [])
  }

  /** `links` holds exactly the spans that `span` gives the facets `fs`. */
  ghost predicate SpansOf(links: seq<Link>, fs: seq<Facet>, span: Facet -> Option<Link>) {
    forall l :: l in links <==> exists i :: 0 <= i < |fs| && span(fs[i]) == Some(l)
  }

  /** The spans of the facets but the last, then the last one's span if any: the spans of all facets. */
  lemma CandidatesStep(facets: seq<Facet>, init: seq<Link>, span: Facet -> Option<Link>)
    requires facets != []
    requires SpansOf(init, facets[..|facets| - 1], span)
    ensures var last := span(facets[|facets| - 1]);
      SpansOf(init + (if last.Some? then [last.value] else []), facets, span)
  {
    var n := |facets| - 1;
    var last := span(facets[n]);
    var r := init + (if last.Some? then [last.value] else []);
    forall l | l in r ensures exists i :: 0 <= i < |facets| && span(facets[i]) == Some(l) {
      if l in init {
        var pre := facets[..n];
        var i :| 0 <= i < |pre| && span(pre[i]) == Some(l);
        assert pre[i] == facets[i];
      } else {
        assert span(facets[n]) == Some(l);
      }
    }
    forall l | exists i :: 0 <= i < |facets| && span(facets[i]) == Some(l) ensures l in r {
      var i :| 0 <= i < |facets| && span(facets[i]) == Some(l);
      if i < n {
        var pre := facets[..n];
        assert pre[i] == facets[i];
        assert l in init;
      } else {
        assert last == Some(l);
      }
    }
  }

  /** The facet loop. */
  method CollectLinks(text: string, facets: seq<Facet>) returns (links: seq<Link>)
    ensures links == Candidates(text, facets)
  {
    links := [];
    for i := 0 to |facets|
      invariant links == Candidates(text, facets[..i])
    {
      var f := facets[i];
      assert facets[..i + 1][..i] == facets[..i];
      if f.byteStart.None? || f.byteEnd.None? || f.byteEnd.value <= f.byteStart.value {
        continue;
      }
      var start := CharIndex(text, f.byteStart.value);
      var end := CharIndex(text, f.byteEnd.value);
      if end <= start {
        continue;
      }
      var url := FeatureUrl(f.features);
      if url != "" {
        links := links + [Link(start, end, url)];
      }
    }
    assert facets[..|facets|] == facets;
  }

  /** `links.sort(key=lambda item: (item[0], item[1]))`. */
  function SpanKey(l: Link): Key {
    Key(l.start, l.end)
  }

  // ---- Skipping overlaps ----

  /** The spans kept when the cursor starts at `cursor`: a span starting before the cursor is skipped. */
  function Greedy(links: seq<Link>, cursor: int): (r: seq<Link>)
    ensures forall l :: l in r ==> l in links
  {
    if links == [] then []
    else if links[0].start < cursor then Greedy(links[1..], cursor)
    else [links[0]] + Greedy(links[1..], links[0].end)
  }

  /** The overlap filter loop. */
  method DropOverlaps(links: seq<Link>) returns (kept: seq<Link>)
    ensures kept == Greedy(links, -1)
  {
    kept := [];
    var cursor: int := -1;
    for i := 0 to |links|
      invariant kept + Greedy(links[i..], cursor) == Greedy(links, -1)
    {
      var l := links[i];
      assert links[i..][0] == l && links[i..][1..] == links[i + 1..];
      if l.start < cursor {
        continue;
      }
      assert kept + [l] + Greedy(links[i + 1..], l.end) == kept + Greedy(links[i..], cursor);
      kept := kept + [l];
      cursor := l.end;
    }
    assert Greedy(links[|links|..], cursor) == [];
    assert kept + [] == kept;
  }

  /** Each span starts at or after `from` and at or after the end of the span before it. */
  predicate Chained(s: seq<Link>, from: int) {
    (s != [] ==> from <= s[0].start)
    && forall k :: 0 <= k < |s| - 1 ==> s[k].end <= s[k + 1].start
  }

  predicate AllFit(s: seq<Link>, text: string) {
    forall k :: 0 <= k < |s| ==> Fits(s[k], text)
  }

  lemma {:induction false} GreedyChained(links: seq<Link>, cursor: int)
    ensures Chained(Greedy(links, cursor), cursor)
  {
    if links != [] {
      if links[0].start < cursor {
        GreedyChained(links[1..], cursor);
      } else {
        GreedyChained(links[1..], links[0].end);
        var r := Greedy(links, cursor);
        assert r[1..] == Greedy(links[1..], links[0].end);
      }
    }
  }

  /** In a chain of non-empty spans, every span ends at or before the start of every later one. */
  lemma {:induction false} ChainedDisjoint(s: seq<Link>, from: int, text: string)
    requires Chained(s, from) && AllFit(s, text)
    ensures forall i, j :: 0 <= i < j < |s| ==> s[i].end <= s[j].start && s[i].start < s[j].start
  {
    if |s| > 1 {
      ChainedDisjoint(s[1..], s[0].end, text);
      forall j | 1 <= j < |s| ensures s[0].end <= s[j].start {
        assert s[1..][j - 1] == s[j];
        if j > 1 {
          assert s[1..][0] == s[1];
        }
      }
      forall i, j | 0 <= i < j < |s| ensures s[i].end <= s[j].start && s[i].start < s[j].start {
        if i > 0 {
          assert s[1..][i - 1] == s[i] && s[1..][j - 1] == s[j];
        }
      }
    }
  }

  /** The spans that survive: candidates sorted by `(start, end)`, then the overlap filter. */
  function Kept(text: string, facets: seq<Facet>): (r: seq<Link>)
    ensures AllFit(r, text) && Chained(r, 0)
    ensures forall l :: l in r ==> l in Candidates(text, facets)
  {
    var sorted := SortBy(Candidates(text, facets), SpanKey);
    var r := Greedy(sorted, -1);
    GreedyChained(sorted, -1);
    forall l | l in r ensures l in Candidates(text, facets) && Fits(l, text) {
      assert l in multiset(sorted);
    }
    r
  }

  /** Kept spans are ordered by start and pairwise non-overlapping; each comes from a facet. */
  lemma KeptSpans(text: string, facets: seq<Facet>)
    ensures var r := Kept(text, facets);
      (forall i, j :: 0 <= i < j < |r| ==> r[i].end <= r[j].start && r[i].start < r[j].start)
      && forall k :: 0 <= k < |r| ==> exists f :: 0 <= f < |facets| && FacetLink(text, facets[f]) == Some(r[k])
  {
    var r := Kept(text, facets);
    ChainedDisjoint(r, 0, text);
    forall k | 0 <= k < |r| ensures exists f :: 0 <= f < |facets| && FacetLink(text, facets[f]) == Some(r[k]) {
      assert r[k] in r;
    }
  }

  // ---- Stitching ----

  /** An emitted part: an escaped gap or tail of the text, or an anchor over a span. */
  datatype Piece = Plain(raw: string) | Anchor(raw: string, url: string)

  /** The pieces emitted for the spans `kept` when the text before `last` is already done. */
  function PiecesFrom(text: string, kept: seq<Link>, last: nat): seq<Piece>
    requires last <= |text| && Chained(kept, last) && AllFit(kept, text)
    decreases |kept|
  {
    if kept == [] then (if last < |text| then [Plain(text[last..])] else [])
    else
      var l := kept[0];
      assert Chained(kept[1..], l.end) && AllFit(kept[1..], text) by {
        assert forall k :: 0 <= k < |kept| - 1 ==> kept[1..][k] == kept[k + 1];
      }
      (if l.start > last then [Plain(text[last..l.start])] else [])
      + [Anchor(text[l.start..l.end], l.url)]
      + PiecesFrom(text, kept[1..], l.end)
  }

  function RawOf(pieces: seq<Piece>): string {
    if pieces == [] then [] else pieces[0].raw + RawOf(pieces[1..])
  }

  /** The texts of the pieces, in order, are the text from `last` on: gaps, labels and the tail. */
  lemma {:induction false} RawPiecesFrom(text: string, kept: seq<Link>, last: nat)
    requires last <= |text| && Chained(kept, last) && AllFit(kept, text)
    ensures RawOf(PiecesFrom(text, kept, last)) == text[last..]
    decreases |kept|
  {
    if kept == [] {
      if last < |text| {
        assert RawOf([Plain(text[last..])]) == text[last..] + RawOf([]);
      }
    } else {
      var l := kept[0];
      ChainTail(text, kept, last);
      RawPiecesFrom(text, kept[1..], l.end);
      RawOfStep(text, last, l, PiecesFrom(text, kept[1..], l.end));
    }
  }

  /** The gap before a span, its anchor and the pieces after it hold the text from `last` on. */
  lemma RawOfStep(text: string, last: nat, l: Link, rest: seq<Piece>)
    requires last <= l.start < l.end <= |text|
    requires RawOf(rest) == text[l.end..]
    ensures RawOf((if l.start > last then [Plain(text[last..l.start])] else [])
                  + [Anchor(text[l.start..l.end], l.url)] + rest) == text[last..]
  {
    var anchor := Anchor(text[l.start..l.end], l.url);
    RawOfCons(anchor, rest);
    if l.start > last {
      var gap := Plain(text[last..l.start]);
      assert [gap] + [anchor] + rest == [gap] + ([anchor] + rest);
      RawOfCons(gap, [anchor] + rest);
      SlicesJoin(text, last, l.start, l.end);
    } else {
      assert [] + [anchor] + rest == [anchor] + rest;
      SlicesJoin(text, last, l.start, l.end);
    }
  }

  lemma RawOfCons(p: Piece, rest: seq<Piece>)
    ensures RawOf([p] + rest) == p.raw + RawOf(rest)
  {
    assert ([p] + rest)[1..] == rest;
  }

  lemma SlicesJoin(text: string, a: nat, b: nat, c: nat)
    requires a <= b <= c <= |text|
    ensures text[a..b] + (text[b..c] + text[c..]) == text[a..]
  {
    assert text[b..c] + text[c..] == text[b..];
    assert text[a..b] + text[b..] == text[a..];
  }

  function PieceHtml(p: Piece): string {
    match p
    case Plain(raw) => PlainHtml(raw)
    case Anchor(raw, url) => AnchorHtml(raw, url)
  }

  function RenderAll(pieces: seq<Piece>): (r: seq<string>)
    ensures |r| == |pieces|
  {
    if pieces == [] then [] else [PieceHtml(pieces[0])] + RenderAll(pieces[1..])
  }

  /** `"".join(parts)`. */
  function Concat(parts: seq<string>): string {
    if parts == [] then [] else parts[0] + Concat(parts[1..])
  }

  lemma {:induction false} ConcatAppend(a: seq<string>, b: seq<string>)
    ensures Concat(a + b) == Concat(a) + Concat(b)
  {
    if a == [] {
      assert a + b == b;
    } else {
      assert (a + b)[1..] == a[1..] + b;
      ConcatAppend(a[1..], b);
    }
  }

  /** `render_rich_text_html` as a value. */
  function RichTextHtml(text: string, facets: seq<Facet>): string {
    if text == [] then ""
    else Concat(RenderAll(PiecesFrom(text, Kept(text, facets), 0)))
  }

  /** The pieces' texts concatenate back to the whole text. */
  lemma RichTextRaw(text: string, facets: seq<Facet>)
    ensures RawOf(PiecesFrom(text, Kept(text, facets), 0)) == text
  {
    RawPiecesFrom(text, Kept(text, facets), 0);
  }

  lemma {:induction false} CandidatesNone(text: string, facets: seq<Facet>)
    requires forall i :: 0 <= i < |facets| ==> FacetLink(text, facets[i]).None?
    ensures Candidates(text, facets) == []
  {
    if facets != [] {
      CandidatesNone(text, facets[..|facets| - 1]);
    }
  }

  lemma KeptEmpty(text: string, facets: seq<Facet>)
    requires forall i :: 0 <= i < |facets| ==> FacetLink(text, facets[i]).None?
    ensures Kept(text, facets) == []
  {
    CandidatesNone(text, facets);
    assert |SortBy(Candidates(text, facets), SpanKey)| == 0;
  }

  /** Without any usable facet the output is the escaped text with its line breaks. */
  lemma RichTextNoLinks(text: string, facets: seq<Facet>)
    requires forall i :: 0 <= i < |facets| ==> FacetLink(text, facets[i]).None?
    ensures RichTextHtml(text, facets) == BreakLines(Escape(text))
  {
    KeptEmpty(text, facets);
    if text != [] {
      RenderPlainText(text);
    }
  }

  /** With no span kept, the text is one plain piece. */
  lemma RenderPlainText(text: string)
    requires text != []
    ensures Concat(RenderAll(PiecesFrom(text, [], 0))) == BreakLines(Escape(text))
  {
    assert PiecesFrom(text, [], 0) == [Plain(text[0..])];
    assert text[0..] == text;
    RenderOne(Plain(text));
  }

  lemma RenderOne(p: Piece)
    ensures Concat(RenderAll([p])) == PieceHtml(p)
  {
    assert RenderAll([p]) == [PieceHtml(p)] + RenderAll([]);
    assert Concat([PieceHtml(p)]) == PieceHtml(p) + Concat([]);
  }

  lemma {:induction false} RenderAllAppend(a: seq<Piece>, b: seq<Piece>)
    ensures RenderAll(a + b) == RenderAll(a) + RenderAll(b)
  {
    if a == [] {
      assert a + b == b;
    } else {
      assert (a + b)[1..] == a[1..] + b;
      RenderAllAppend(a[1..], b);
    }
  }

  lemma ChainTail(text: string, kept: seq<Link>, last: nat)
    requires Chained(kept, last) && AllFit(kept, text) && kept != []
    ensures Chained(kept[1..], kept[0].end) && AllFit(kept[1..], text)
  {
    assert forall k :: 0 <= k < |kept| - 1 ==> kept[1..][k] == kept[k + 1];
  }

  /** One step of the stitching loop: the parts of the first kept span, then the rest. */
  lemma PiecesStep(text: string, kept: seq<Link>, last: nat)
    requires last <= |text| && Chained(kept, last) && AllFit(kept, text) && kept != []
    ensures Chained(kept[1..], kept[0].end) && AllFit(kept[1..], text)
    ensures var l := kept[0];
      RenderAll(PiecesFrom(text, kept, last))
        == (if l.start > last then [PlainHtml(text[last..l.start])] else [])
           + [AnchorHtml(text[l.start..l.end], l.url)]
           + RenderAll(PiecesFrom(text, kept[1..], l.end))
  {
    ChainTail(text, kept, last);
    var l := kept[0];
    var gap: seq<Piece> := if l.start > last then [Plain(text[last..l.start])] else [];
    var anchor := [Anchor(text[l.start..l.end], l.url)];
    var rest := PiecesFrom(text, kept[1..], l.end);
    assert PiecesFrom(text, kept, last) == gap + anchor + rest;
    RenderAllAppend(gap + anchor, rest);
    RenderAllAppend(gap, anchor);
    assert RenderAll(anchor) == [AnchorHtml(text[l.start..l.end], l.url)];
    assert RenderAll(gap) == if l.start > last then [PlainHtml(text[last..l.start])] else [];
  }

  /** One pass of the stitching loop keeps its invariant. */
  lemma StitchStep(text: string, kept: seq<Link>, i: nat, last: nat, parts: seq<string>)
    requires i < |kept| && last <= |text| && Chained(kept[i..], last) && AllFit(kept[i..], text)
    ensures var l := kept[i];
      Chained(kept[i + 1..], l.end) && AllFit(kept[i + 1..], text) && l.end <= |text|
      && (if l.start > last then parts + [PlainHtml(text[last..l.start])] else parts)
           + [AnchorHtml(text[l.start..l.end], l.url)]
           + RenderAll(PiecesFrom(text, kept[i + 1..], l.end))
         == parts + RenderAll(PiecesFrom(text, kept[i..], last))
  {
    var l := kept[i];
    assert kept[i..][0] == l && kept[i..][1..] == kept[i + 1..];
    PiecesStep(text, kept[i..], last);
    var rest := RenderAll(PiecesFrom(text, kept[i + 1..], l.end));
    var anchor := [AnchorHtml(text[l.start..l.end], l.url)];
    if l.start > last {
      var gap := [PlainHtml(text[last..l.start])];
      AppendAssoc3(parts, gap, anchor, rest);
    } else {
      assert [] + anchor + rest == anchor + rest;
      AppendAssoc(parts, anchor, rest);
    }
  }

  lemma AppendAssoc(a: seq<string>, b: seq<string>, c: seq<string>)
    ensures (a + b) + c == a + (b + c)
  {
  }

  lemma AppendAssoc3(a: seq<string>, b: seq<string>, c: seq<string>, d: seq<string>)
    ensures a + b + c + d == a + (b + c + d)
  {
  }

  /** The last step: the tail after the final span, if any. */
  lemma PiecesTail(text: string, last: nat)
    requires last <= |text|
    ensures RenderAll(PiecesFrom(text, [], last)) == if last < |text| then [PlainHtml(text[last..])] else []
  {
  }

  /** The stitching loop: the parts for the kept spans, with `last` the end of the previous span. */
  method Stitch(text: string, kept: seq<Link>) returns (parts: seq<string>)
    requires Chained(kept, 0) && AllFit(kept, text)
    ensures parts == RenderAll(PiecesFrom(text, kept, 0))
  {
    parts := [];
    var last: nat := 0;
    for i := 0 to |kept|
      invariant last <= |text| && Chained(kept[i..], last) && AllFit(kept[i..], text)
      invariant parts + RenderAll(PiecesFrom(text, kept[i..], last)) == RenderAll(PiecesFrom(text, kept, 0))
    {
      var l := kept[i];
      StitchStep(text, kept, i, last, parts);
      if l.start > last {
        parts := parts + [PlainHtml(text[last..l.start])];
      }
      parts := parts + [AnchorHtml(text[l.start..l.end], l.url)];
      last := l.end;
    }
    PiecesTail(text, last);
    assert kept[|kept|..] == [];
    if last < |text| {
      parts := parts + [PlainHtml(text[last..])];
    } else {
      assert parts + [] == parts;
    }
  }

  /**
   * The renderer. The sort is Python's stable `list.sort`, taken as the
   * function SortBy; the facet loop, the overlap loop and the stitching loop
   * are written out.
   */
  method RenderRichTextHtml(text: string, facets: seq<Facet>) returns (html: string)
    ensures html == RichTextHtml(text, facets)
    ensures text == "" ==> html == ""
  {
    if text == "" {
      return "";
    }
    var links := CollectLinks(text, facets);
    links := SortBy(links, SpanKey);
    var kept := DropOverlaps(links);
    assert kept == Kept(text, facets);
    var parts := Stitch(text, kept);
    html := Concat(parts);
  }
}
