/**
 * The option handling and item selection of the some.pics embed
 * (omglol-theme/some-pics.js): the list parameters, token normalisation and
 * matching, the exclusion decision, the id fallback, the custom domain, the
 * `count` cut and the paragraph step of the Markdown helper.
 *
 * What the browser computes with its own parsers is an input: the query of
 * the script URL as key/value pairs, the `pathname` of an item URL when the
 * URL parser accepts it, and the first `img` of an item's `content_html`.
 */
module SomePics {
  import opened Wrappers
  import opened Strings
  import opened JsNumbers

  // ---- Query parameters ----

  /** One pair of the script URL's `searchParams`, in query order. */
  datatype Param = Param(key: string, value: string)

  /** `searchParams.getAll(key)`: the values of `key`, in order. */
  function GetAll(params: seq<Param>, key: string): seq<string> {
    if params == [] then []
    else (if params[0].key == key then [params[0].value] else []) + GetAll(params[1..], key)
  }

  /** `searchParams.get(key)`: the first value, `None` (null) without one. */
  function Get(params: seq<Param>, key: string): (r: Option<string>)
    ensures r.Some? <==> Has(params, key)
    ensures r.Some? ==> exists i :: 0 <= i < |params| && params[i] == Param(key, r.value)
    ensures r == if GetAll(params, key) == [] then None else Some(GetAll(params, key)[0])
  {
    if params == [] then None
    else if params[0].key == key then Some(params[0].value)
    else Get(params[1..], key)
  }

  /** `searchParams.has(key)`. */
  predicate Has(params: seq<Param>, key: string) {
    exists i :: 0 <= i < |params| && params[i].key == key
  }

  const ExcludeKeys: seq<string> := ["exclude", "exclude_id", "exclude-id"]
  const ExcludeDescKeys: seq<string> := ["exclude_desc", "exclude-desc", "exclude_description", "exclude-description"]

  /** The presence flags `alt`, `desc` or `description`, and `pretty`. */
  datatype Flags = Flags(includeAlt: bool, includeDescription: bool, pretty: bool)

  function ReadFlags(params: seq<Param>): Flags {
    Flags(Has(params, "alt"), Has(params, "desc") || Has(params, "description"), Has(params, "pretty"))
  }

  // ---- collectListParams ----

  /** A token as `collectListParams` emits it: not empty, trimmed, without a comma. */
  predicate Clean(t: string) {
    t != [] && NoSpaceAtEnds(t) && ',' !in t
  }

  predicate AllClean(ts: seq<string>) {
    forall i :: 0 <= i < |ts| ==> Clean(ts[i])
  }

  /** `.map((token) => token.trim()).filter(Boolean)`. */
  function PieceTokens(pieces: seq<string>): seq<string> {
    if pieces == [] then []
    else
      var t := Trim(pieces[|pieces| - 1]);
      PieceTokens(pieces[..|pieces| - 1]) + (if t != [] then [t] else [])
  }

  /** The tokens of one value: none for an empty value, else the trimmed non-empty pieces between commas. */
  function ValueTokens(value: string): seq<string> {
    if value == [] then [] else PieceTokens(Split(value, ','))
  }

  /** The tokens of several values, in order. */
  function ValuesTokens(values: seq<string>): seq<string> {
    if values == [] then []
    else ValuesTokens(values[..|values| - 1]) + ValueTokens(values[|values| - 1])
  }

  /** The result of `collectListParams`: key by key, and within a key value by value. */
  function ListTokens(params: seq<Param>, keys: seq<string>): seq<string> {
    if keys == [] then []
    else ListTokens(params, keys[..|keys| - 1]) + ValuesTokens(GetAll(params, keys[|keys| - 1]))
  }

  lemma {:induction false} PieceTokensClean(pieces: seq<string>)
    requires forall k :: 0 <= k < |pieces| ==> ',' !in pieces[k]
    ensures AllClean(PieceTokens(pieces))
  {
    if pieces != [] {
      var last := pieces[|pieces| - 1];
      PieceTokensClean(pieces[..|pieces| - 1]);
      TrimSubset(last, ',');
    }
  }

  lemma {:induction false} ValuesTokensClean(values: seq<string>)
    ensures AllClean(ValuesTokens(values))
  {
    if values != [] {
      ValuesTokensClean(values[..|values| - 1]);
      var v := values[|values| - 1];
      if v != [] {
        PieceTokensClean(Split(v, ','));
      }
    }
  }

  /** Every token is non-empty, trimmed and free of commas. */
  lemma {:induction false} ListTokensClean(params: seq<Param>, keys: seq<string>)
    ensures AllClean(ListTokens(params, keys))
  {
    if keys != [] {
      ListTokensClean(params, keys[..|keys| - 1]);
      ValuesTokensClean(GetAll(params, keys[|keys| - 1]));
    }
  }

  lemma {:induction false} PieceTokensOfClean(ts: seq<string>)
    requires AllClean(ts)
    ensures PieceTokens(ts) == ts
  {
    if ts != [] {
      var init, last := ts[..|ts| - 1], ts[|ts| - 1];
      assert AllClean(init) by {
        forall k | 0 <= k < |init| ensures Clean(init[k]) {
          assert init[k] == ts[k];
        }
      }
      PieceTokensOfClean(init);
      assert Clean(last);
      TrimNoSpaceAtEnds(last);
      assert PieceTokens(ts) == init + [last];
      assert init + [last] == ts;
    }
  }

  /** A comma-joined list of clean tokens reads back as those tokens. */
  lemma ValueTokensJoin(ts: seq<string>)
    requires |ts| >= 1 && AllClean(ts)
    ensures ValueTokens(Join(ts, ',')) == ts
  {
    assert |Join(ts, ',')| >= |ts[0]| > 0;
    SplitJoin(ts, ',');
    PieceTokensOfClean(ts);
  }

  /** The `values.forEach` callback: pushes the tokens of one value. */
  method PushValueTokens(tokens0: seq<string>, value: string) returns (tokens: seq<string>)
    ensures tokens == tokens0 + ValueTokens(value)
  {
    tokens := tokens0;
    if value == [] {
      return;
    }
    var pieces := Split(value, ',');
    for p := 0 to |pieces|
      invariant tokens == tokens0 + PieceTokens(pieces[..p])
    {
      assert pieces[..p + 1][..p] == pieces[..p];
      var token := Trim(pieces[p]);
      if token != [] {
        tokens := tokens + [token];
      }
    }
    assert pieces[..|pieces|] == pieces;
  }

  /** The `keys.forEach` callback: pushes the tokens of every value of one key. */
  method PushValuesTokens(tokens0: seq<string>, values: seq<string>) returns (tokens: seq<string>)
    ensures tokens == tokens0 + ValuesTokens(values)
  {
    tokens := tokens0;
    for v := 0 to |values|
      invariant tokens == tokens0 + ValuesTokens(values[..v])
    {
      var done := values[..v];
      assert values[..v + 1][..v] == done;
      assert ValuesTokens(values[..v + 1]) == ValuesTokens(done) + ValueTokens(values[v]);
      tokens := PushValueTokens(tokens, values[v]);
      assert tokens == tokens0 + (ValuesTokens(done) + ValueTokens(values[v]));
    }
    assert values[..|values|] == values;
  }

  /** `collectListParams(parsedUrl, keys)`. */
  method CollectListParams(params: seq<Param>, keys: seq<string>) returns (tokens: seq<string>)
    ensures tokens == ListTokens(params, keys)
    ensures AllClean(tokens)
  {
    tokens := [];
    for k := 0 to |keys|
      invariant tokens == ListTokens(params, keys[..k])
    {
      var done := keys[..k];
      assert keys[..k + 1][..k] == done;
      assert ListTokens(params, keys[..k + 1]) == ListTokens(params, done) + ValuesTokens(GetAll(params, keys[k]));
      tokens := PushValuesTokens(tokens, GetAll(params, keys[k]));
    }
    assert keys[..|keys|] == keys;
    ListTokensClean(params, keys);
  }

  // ---- Token matching ----

  /** `normalizeToken`: trimmed and lower-cased, with a missing token read as "". */
  function NormalizeToken(token: Option<string>): string {
    Normalized(token.GetOr(""))
  }

  lemma NormalizeTokenIdempotent(token: Option<string>)
    ensures NormalizeToken(Some(NormalizeToken(token))) == NormalizeToken(token)
  {
    NormalizedIdempotent(token.GetOr(""));
  }

  /** A token matches a value when both normalise to non-empty text and the token's occurs in the value's. */
  predicate TokenMatches(token: string, value: string) {
    var t := NormalizeToken(Some(token));
    var v := NormalizeToken(Some(value));
    t != [] && v != [] && Contains(v, t)
  }

  /** `values.map(normalizeToken).filter((value) => value.length > 0)`. */
  function NormalizedValues(values: seq<string>): seq<string> {
    if values == [] then []
    else
      var n := NormalizeToken(Some(values[|values| - 1]));
      NormalizedValues(values[..|values| - 1]) + (if n != [] then [n] else [])
  }

  /** The normalised values are the non-empty normalisations of the values. */
  lemma {:induction false} NormalizedValuesFacts(values: seq<string>)
    ensures var r := NormalizedValues(values);
      (forall k :: 0 <= k < |r| ==> r[k] != [] && exists j :: 0 <= j < |values| && r[k] == NormalizeToken(Some(values[j])))
      && (forall j :: 0 <= j < |values| && NormalizeToken(Some(values[j])) != [] ==> NormalizeToken(Some(values[j])) in r)
  {
    if values != [] {
      var init := values[..|values| - 1];
      NormalizedValuesFacts(init);
      assert forall j :: 0 <= j < |init| ==> init[j] == values[j];
    }
  }

  /** `normalizedValues.some((value) => value.includes(normalizedToken))`. */
  function SomeValueContains(nvalues: seq<string>, t: string): bool {
    if nvalues == [] then false
    else Contains(nvalues[0], t) || SomeValueContains(nvalues[1..], t)
  }

  /** `tokens.some(...)`: a token that normalises to something found in some value. */
  function SomeTokenMatches(tokens: seq<string>, nvalues: seq<string>): bool {
    if tokens == [] then false
    else
      var t := NormalizeToken(Some(tokens[0]));
      (t != [] && SomeValueContains(nvalues, t)) || SomeTokenMatches(tokens[1..], nvalues)
  }

  lemma {:induction false} SomeValueContainsIff(nvalues: seq<string>, t: string)
    ensures SomeValueContains(nvalues, t) <==> exists j :: 0 <= j < |nvalues| && Contains(nvalues[j], t)
  {
    if nvalues != [] {
      SomeValueContainsIff(nvalues[1..], t);
      assert forall j :: 1 <= j < |nvalues| ==> nvalues[1..][j - 1] == nvalues[j];
    }
  }

  lemma {:induction false} SomeTokenMatchesIff(tokens: seq<string>, nvalues: seq<string>)
    ensures SomeTokenMatches(tokens, nvalues) <==>
      exists i :: 0 <= i < |tokens| && NormalizeToken(Some(tokens[i])) != []
                  && SomeValueContains(nvalues, NormalizeToken(Some(tokens[i])))
  {
    if tokens != [] {
      SomeTokenMatchesIff(tokens[1..], nvalues);
      assert forall i :: 1 <= i < |tokens| ==> tokens[1..][i - 1] == tokens[i];
    }
  }

  /** `anyTokenMatches(tokens, values)`. */
  function AnyTokenMatches(tokens: seq<string>, values: seq<string>): bool {
    if |tokens| == 0 then false
    else
      var nv := NormalizedValues(values);
      if |nv| == 0 then false else SomeTokenMatches(tokens, nv)
  }

  /**
   * Some token matches some value exactly when `anyTokenMatches` says so; in
   * particular no tokens, or no value left after normalisation, match nothing.
   */
  lemma AnyTokenMatchesIff(tokens: seq<string>, values: seq<string>)
    ensures AnyTokenMatches(tokens, values) <==>
      exists i, j :: 0 <= i < |tokens| && 0 <= j < |values| && TokenMatches(tokens[i], values[j])
  {
    if AnyTokenMatches(tokens, values) {
      AnyTokenMatchesSound(tokens, values);
    }
    if exists i, j :: 0 <= i < |tokens| && 0 <= j < |values| && TokenMatches(tokens[i], values[j]) {
      var i, j :| 0 <= i < |tokens| && 0 <= j < |values| && TokenMatches(tokens[i], values[j]);
      AnyTokenMatchesComplete(tokens, values, i, j);
    }
  }

  /** A match found by `anyTokenMatches` is a token matching a value. */
  lemma AnyTokenMatchesSound(tokens: seq<string>, values: seq<string>)
    requires AnyTokenMatches(tokens, values)
    ensures exists i, j :: 0 <= i < |tokens| && 0 <= j < |values| && TokenMatches(tokens[i], values[j])
  {
    var nv := NormalizedValues(values);
    NormalizedValuesFacts(values);
    SomeTokenMatchesIff(tokens, nv);
    var i :| 0 <= i < |tokens| && NormalizeToken(Some(tokens[i])) != [] && SomeValueContains(nv, NormalizeToken(Some(tokens[i])));
    var t := NormalizeToken(Some(tokens[i]));
    SomeValueContainsIff(nv, t);
    var k :| 0 <= k < |nv| && Contains(nv[k], t);
    var j :| 0 <= j < |values| && nv[k] == NormalizeToken(Some(values[j]));
    assert TokenMatches(tokens[i], values[j]);
  }

  /** A token matching a value is found by `anyTokenMatches`. */
  lemma AnyTokenMatchesComplete(tokens: seq<string>, values: seq<string>, i: nat, j: nat)
    requires i < |tokens| && j < |values| && TokenMatches(tokens[i], values[j])
    ensures AnyTokenMatches(tokens, values)
  {
    var nv := NormalizedValues(values);
    var t := NormalizeToken(Some(tokens[i]));
    var n := NormalizeToken(Some(values[j]));
    NormalizedValuesFacts(values);
    assert n in nv;
    var k :| 0 <= k < |nv| && nv[k] == n;
    SomeValueContainsIff(nv, t);
    SomeTokenMatchesIff(tokens, nv);
  }

  // ---- Items ----

  /** The first `img` of an item's `content_html`: its `src` and `alt` attributes. */
  datatype Img = Img(src: Option<string>, alt: Option<string>)

  /**
   * A feed item: `url`, `id` and `content_text` (each `None` when absent or
   * null), the first `img` of `content_html` (`None` when there is none or the
   * markup is empty), and the `pathname` of `url` when the URL parser accepts it.
   */
  datatype Item = Item(url: Option<string>, id: Option<string>, contentText: Option<string>,
                       img: Option<Img>, parsedPath: Option<string>)

  /** `.replace(/^\/+/, "")`. */
  function DropLeadingSlashes(s: string): (r: string)
    ensures r == [] || r[0] != '/'
    ensures |r| <= |s|
    ensures s == Slashes(|s| - |r|) + r
  {
    if s != [] && s[0] == '/' then
      assert s == ['/'] + s[1..];
      DropLeadingSlashes(s[1..])
    else s
  }

  /** `.replace(/\/+$/, "")`. */
  function DropTrailingSlashes(s: string): (r: string)
    ensures r == [] || r[|r| - 1] != '/'
    ensures |r| <= |s| && r == s[..|r|]
    ensures s == r + Slashes(|s| - |r|)
  {
    if s != [] && s[|s| - 1] == '/' then
      assert s == s[..|s| - 1] + ['/'];
      DropTrailingSlashes(s[..|s| - 1])
    else s
  }

  /** A run of `n` slashes. */
  function Slashes(n: nat): (r: string)
    ensures |r| == n && forall i :: 0 <= i < n ==> r[i] == '/'
  {
    seq(n, _ => '/')
  }

  /** Slashes before a text that does not start with one are all removed, and nothing else. */
  lemma {:induction false} DropLeadingOf(n: nat, t: string)
    requires t == [] || t[0] != '/'
    ensures DropLeadingSlashes(Slashes(n) + t) == t
  {
    if n > 0 {
      assert Slashes(n) + t == ['/'] + (Slashes(n - 1) + t);
      DropLeadingOf(n - 1, t);
    }
  }

  /** Slashes after a text that does not end with one are all removed, and nothing else. */
  lemma {:induction false} DropTrailingOf(t: string, n: nat)
    requires t == [] || t[|t| - 1] != '/'
    ensures DropTrailingSlashes(t + Slashes(n)) == t
  {
    if n > 0 {
      assert t + Slashes(n) == (t + Slashes(n - 1)) + ['/'];
      DropTrailingOf(t, n - 1);
    }
  }

  /** The last non-empty piece: `.filter(Boolean).slice(-1)[0] || ""`. */
  function LastNonEmpty(pieces: seq<string>): (r: string)
    ensures r == [] ==> forall k :: 0 <= k < |pieces| ==> pieces[k] == []
    ensures r != [] ==> exists k :: 0 <= k < |pieces| && pieces[k] == r
                                    && forall m :: k < m < |pieces| ==> pieces[m] == []
  {
    if pieces == [] then []
    else if pieces[|pieces| - 1] != [] then pieces[|pieces| - 1]
    else LastNonEmpty(pieces[..|pieces| - 1])
  }

  /** The `catch` branch of `extractIdFromUrl`: the last non-empty "/"-segment before the first "?". */
  function IdFallback(maybeUrl: string): (r: string)
    ensures '/' !in r && '?' !in r
  {
    if maybeUrl == [] then []
    else
      var cleaned := Split(maybeUrl, '?')[0];
      var pieces := Split(cleaned, '/');
      var r := LastNonEmpty(pieces);
      SplitChars(cleaned, '/', '?');
      r
  }

  /** No piece of a split holds a character the text lacks. */
  lemma {:induction false} SplitChars(s: string, sep: char, c: char)
    requires c !in s
    ensures forall k :: 0 <= k < |Split(s, sep)| ==> c !in Split(s, sep)[k]
  {
    if s != [] {
      SplitChars(s[1..], sep, c);
    }
  }

  /** `extractIdFromUrl`: the parsed path without its outer slashes, else the fallback. */
  function ExtractIdFromUrl(maybeUrl: string, parsedPath: Option<string>): (r: string)
    ensures maybeUrl == [] ==> r == []
    ensures r == [] || (r[0] != '/' && r[|r| - 1] != '/')
    ensures maybeUrl != [] && parsedPath.Some? ==>
      |r| <= |parsedPath.value|
      && (exists lead: nat :: lead <= |parsedPath.value| - |r|
            && parsedPath.value == Slashes(lead) + r + Slashes(|parsedPath.value| - |r| - lead))
  {
    if maybeUrl == [] then []
    else match parsedPath
      case Some(path) =>
        var t := DropLeadingSlashes(path);
        var r := DropTrailingSlashes(t);
        assert r != [] ==> r[0] == t[0];
        var lead := |path| - |t|;
        assert path == Slashes(lead) + r + Slashes(|path| - |r| - lead);
        r
      case None => IdFallback(maybeUrl)
  }

  /** On a parsed path, the id is the path with its leading and trailing runs of "/" removed. */
  lemma IdOfPath(maybeUrl: string, lead: nat, core: string, trail: nat)
    requires maybeUrl != []
    requires core == [] || (core[0] != '/' && core[|core| - 1] != '/')
    ensures ExtractIdFromUrl(maybeUrl, Some(Slashes(lead) + core + Slashes(trail))) == core
  {
    var path := Slashes(lead) + core + Slashes(trail);
    if core == [] {
      assert path == Slashes(lead + trail) + [];
      DropLeadingOf(lead + trail, []);
    } else {
      assert path == Slashes(lead) + (core + Slashes(trail));
      DropLeadingOf(lead, core + Slashes(trail));
      DropTrailingOf(core, trail);
    }
  }

  /** The fallback finds the final segment of a path before its query. */
  lemma IdFallbackQuery(p: string, seg: string, q: string)
    requires '?' !in p && '?' !in seg && '/' !in seg && seg != []
    ensures IdFallback(p + "/" + seg + "?" + q) == seg
  {
    var x := p + "/" + seg;
    assert '?' !in x;
    assert p + "/" + seg + "?" + q == x + ['?'] + q;
    SplitAppend(x, '?', q);
    SplitNoSep(x, '?');
    assert x == p + ['/'] + seg;
    SplitAppend(p, '/', seg);
    SplitNoSep(seg, '/');
  }

  /** A trailing slash does not hide the final segment. */
  lemma IdFallbackTrailingSlash(p: string, seg: string)
    requires '?' !in p && '?' !in seg && '/' !in seg && seg != []
    ensures IdFallback(p + "/" + seg + "/") == seg
  {
    var x := p + "/" + seg + "/";
    assert '?' !in x;
    SplitNoSep(x, '?');
    assert x == p + ['/'] + (seg + ['/'] + []);
    SplitAppend(p, '/', seg + ['/'] + []);
    SplitAppend(seg, '/', []);
    SplitNoSep(seg, '/');
    var pieces := Split(p, '/') + [seg] + [[]];
    assert Split(x, '/') == pieces;
    assert pieces[..|pieces| - 1] == Split(p, '/') + [seg];
    assert LastNonEmpty(Split(p, '/') + [seg]) == seg;
    assert LastNonEmpty(pieces) == seg;
  }

  function ImageSrc(item: Item): string {
    if item.img.Some? then item.img.value.src.GetOr("") else ""
  }

  /** `item.id || extractIdFromUrl(itemUrl)`. */
  function ItemId(item: Item): string {
    if item.id.GetOr("") != [] then item.id.value else ExtractIdFromUrl(item.url.GetOr(""), item.parsedPath)
  }

  /** `shouldExclude(item)`. */
  function ShouldExclude(item: Item, exclude: seq<string>, excludeDesc: seq<string>): bool {
    if |exclude| == 0 && |excludeDesc| == 0 then false
    else
      AnyTokenMatches(exclude, [item.url.GetOr(""), ItemId(item), ImageSrc(item)])
      || AnyTokenMatches(excludeDesc, [item.contentText.GetOr("")])
  }

  /** Some token is related to one of three fields exactly when it is related to some field of the list of three. */
  lemma ThreeFields(tokens: seq<string>, a: string, b: string, c: string, m: (string, string) -> bool)
    ensures (exists i, j :: 0 <= i < |tokens| && 0 <= j < |[a, b, c]| && m(tokens[i], [a, b, c][j])) <==>
      exists i :: 0 <= i < |tokens| && (m(tokens[i], a) || m(tokens[i], b) || m(tokens[i], c))
  {
    var fields := [a, b, c];
    if exists i, j :: 0 <= i < |tokens| && 0 <= j < |fields| && m(tokens[i], fields[j]) {
      var i, j :| 0 <= i < |tokens| && 0 <= j < |fields| && m(tokens[i], fields[j]);
      assert m(tokens[i], fields[0]) || m(tokens[i], fields[1]) || m(tokens[i], fields[2]);
    }
    if exists i :: 0 <= i < |tokens| && (m(tokens[i], a) || m(tokens[i], b) || m(tokens[i], c)) {
      var i :| 0 <= i < |tokens| && (m(tokens[i], a) || m(tokens[i], b) || m(tokens[i], c));
      var j := if m(tokens[i], a) then 0 else if m(tokens[i], b) then 1 else 2;
      assert m(tokens[i], fields[j]);
    }
  }

  /** Matching against three fields: some token matches one of them. */
  lemma MatchesThreeIff(tokens: seq<string>, a: string, b: string, c: string)
    ensures AnyTokenMatches(tokens, [a, b, c]) <==>
      exists i :: 0 <= i < |tokens| && (TokenMatches(tokens[i], a) || TokenMatches(tokens[i], b) || TokenMatches(tokens[i], c))
  {
    AnyTokenMatchesIff(tokens, [a, b, c]);
    ThreeFields(tokens, a, b, c, TokenMatches);
  }

  /** Matching against one field: some token matches it. */
  lemma MatchesOneIff(tokens: seq<string>, a: string)
    ensures AnyTokenMatches(tokens, [a]) <==> exists i :: 0 <= i < |tokens| && TokenMatches(tokens[i], a)
  {
    AnyTokenMatchesIff(tokens, [a]);
    assert [a][0] == a;
  }

  /**
   * An item is excluded exactly when an exclude token matches its URL, its id
   * or its image source, or a description token matches its text.
   */
  lemma ShouldExcludeIff(item: Item, exclude: seq<string>, excludeDesc: seq<string>)
    ensures ShouldExclude(item, exclude, excludeDesc) <==>
      (exists i :: 0 <= i < |exclude| &&
         (TokenMatches(exclude[i], item.url.GetOr("")) || TokenMatches(exclude[i], ItemId(item))
          || TokenMatches(exclude[i], ImageSrc(item))))
      || (exists i :: 0 <= i < |excludeDesc| && TokenMatches(excludeDesc[i], item.contentText.GetOr("")))
  {
    MatchesThreeIff(exclude, item.url.GetOr(""), ItemId(item), ImageSrc(item));
    MatchesOneIff(excludeDesc, item.contentText.GetOr(""));
  }

  /** Naming an item's id, in any letter case, excludes it. */
  lemma ExcludeById(item: Item, token: string, excludeDesc: seq<string>)
    requires NormalizeToken(Some(ItemId(item))) != []
    requires NormalizeToken(Some(token)) == NormalizeToken(Some(ItemId(item)))
    ensures ShouldExclude(item, [token], excludeDesc)
  {
    var v := NormalizeToken(Some(ItemId(item)));
    assert OccursAt(v, v, 0);
    assert TokenMatches([token][0], ItemId(item));
    ShouldExcludeIff(item, [token], excludeDesc);
  }

  // ---- Domain override ----

  const DefaultDomainSuffix := ".some.pics"

  /** `.replace(/^https?:\/\//, "")`. */
  function DropScheme(d: string): string {
    if StartsWith(d, "https://") then d[8..]
    else if StartsWith(d, "http://") then d[7..]
    else d
  }

  /** `.replace(/\/$/, "")`. */
  function DropTrailingSlash(d: string): string {
    if d != [] && d[|d| - 1] == '/' then d[..|d| - 1] else d
  }

  /** The custom domain the item links use. */
  function CustomDomain(username: string, domain: Option<string>): string {
    if domain.None? || domain.value == [] || Trim(domain.value) == [] then username + DefaultDomainSuffix
    else DropTrailingSlash(DropScheme(domain.value))
  }

  /** The domain override, reassigning `customDomain` as the script does. */
  method NormalizeDomain(username: string, param: Option<string>) returns (customDomain: string)
    ensures customDomain == CustomDomain(username, param)
  {
    if param.None? || param.value == [] || Trim(param.value) == [] {
      customDomain := username + DefaultDomainSuffix;
    } else {
      customDomain := param.value;
      customDomain := DropScheme(customDomain);
      customDomain := DropTrailingSlash(customDomain);
    }
  }

  /** A missing or blank override falls back to the user's some.pics host. */
  lemma DomainBlank(username: string, d: string)
    requires forall i :: 0 <= i < |d| ==> IsSpace(d[i])
    ensures CustomDomain(username, Some(d)) == username + ".some.pics"
  {
    TrimBlank(d);
  }

  /** A host name given with or without a scheme, with or without one final slash, comes back as the host name. */
  lemma DomainOfHost(username: string, scheme: string, host: string, slash: string)
    requires scheme == "" || scheme == "http://" || scheme == "https://"
    requires slash == "" || slash == "/"
    requires host != [] && !IsSpace(host[0]) && '/' !in host
    ensures CustomDomain(username, Some(scheme + host + slash)) == host
  {
    var d := scheme + host + slash;
    assert d == scheme + (host + slash);
    assert d[|scheme|] == host[0];
    TrimNonBlank(d, |scheme|);
    HostSlash(host, slash);
    DropSchemeOfHost(scheme, host + slash);
  }

  /** A host name followed by at most one slash: no slash before the last place, and that slash is dropped. */
  lemma HostSlash(host: string, slash: string)
    requires slash == "" || slash == "/"
    requires host != [] && '/' !in host
    ensures forall i :: 0 <= i < |host + slash| - 1 ==> (host + slash)[i] != '/'
    ensures DropTrailingSlash(host + slash) == host
  {
    assert forall i :: 0 <= i < |host| ==> (host + slash)[i] == host[i];
    assert (host + slash)[..|host|] == host;
  }

  lemma DropSchemeOfHost(scheme: string, rest: string)
    requires scheme == "" || scheme == "http://" || scheme == "https://"
    requires forall i :: 0 <= i < |rest| - 1 ==> rest[i] != '/'
    ensures DropScheme(scheme + rest) == rest
  {
    var d := scheme + rest;
    if scheme == "https://" {
      assert d[..8] == "https://" && d[8..] == rest;
    } else if scheme == "http://" {
      assert d[4] != "https://"[4];
      assert d[..7] == "http://" && d[7..] == rest;
    } else {
      assert d == rest;
      assert "https://"[6] == '/' && "http://"[5] == '/';
      assert |d| >= 8 ==> d[..8][6] == d[6] != '/';
      assert |d| >= 7 ==> d[..7][5] == d[5] != '/';
    }
  }

  // ---- Selection ----

  /** `items.filter((item) => !excluded(item))`. */
  function Filter(items: seq<Item>, excluded: Item -> bool): seq<Item> {
    if items == [] then []
    else
      var last := items[|items| - 1];
      Filter(items[..|items| - 1], excluded) + (if excluded(last) then [] else [last])
  }

  /** `items.filter((item) => !shouldExclude(item))`. */
  function Kept(items: seq<Item>, exclude: seq<string>, excludeDesc: seq<string>): seq<Item> {
    Filter(items, item => ShouldExclude(item, exclude, excludeDesc))
  }

  /** Filtering keeps exactly the items that are not excluded. */
  lemma {:induction false} FilterMembers(items: seq<Item>, excluded: Item -> bool)
    ensures forall x :: x in Filter(items, excluded) <==> x in items && !excluded(x)
  {
    if items != [] {
      var init := items[..|items| - 1];
      FilterMembers(init, excluded);
      assert items == init + [items[|items| - 1]];
    }
  }

  /** Filtering keeps feed order: it works piece by piece. */
  lemma {:induction false} FilterAppend(a: seq<Item>, b: seq<Item>, excluded: Item -> bool)
    ensures Filter(a + b, excluded) == Filter(a, excluded) + Filter(b, excluded)
  {
    if b == [] {
      assert a + b == a;
    } else {
      var init := b[..|b| - 1];
      FilterAppend(a, init, excluded);
      assert (a + b)[..|a + b| - 1] == a + init;
    }
  }

  /** The kept items are the items that are not excluded. */
  lemma KeptMembers(items: seq<Item>, exclude: seq<string>, excludeDesc: seq<string>)
    ensures forall x :: x in Kept(items, exclude, excludeDesc) <==> x in items && !ShouldExclude(x, exclude, excludeDesc)
  {
    FilterMembers(items, item => ShouldExclude(item, exclude, excludeDesc));
  }

  /** The kept items of two runs of items are the kept items of each, in feed order. */
  lemma KeptAppend(a: seq<Item>, b: seq<Item>, exclude: seq<string>, excludeDesc: seq<string>)
    ensures Kept(a + b, exclude, excludeDesc) == Kept(a, exclude, excludeDesc) + Kept(b, exclude, excludeDesc)
  {
    FilterAppend(a, b, item => ShouldExclude(item, exclude, excludeDesc));
  }

  /** `items.slice(0, count)`. */
  function Selected(items: seq<Item>, count: JsNumber, exclude: seq<string>, excludeDesc: seq<string>): seq<Item> {
    var k := Kept(items, exclude, excludeDesc);
    k[..SliceLength(|k|, 0, count)]
  }

  /**
   * At most `count` items are selected, the first ones that survive exclusion;
   * an unreadable count selects none, and a negative one drops that many from
   * the end.
   */
  lemma SelectedCount(items: seq<Item>, count: JsNumber, exclude: seq<string>, excludeDesc: seq<string>)
    ensures var k := Kept(items, exclude, excludeDesc);
      var s := Selected(items, count, exclude, excludeDesc);
      s == k[..|s|]
      && (count.NaN? ==> s == [])
      && (count.Num? && count.value >= 0 ==> |s| == if count.value < |k| then count.value else |k|)
      && (count.Num? && count.value < 0 ==> |s| == if |k| + count.value < 0 then 0 else |k| + count.value)
  {
  }

  // ---- Figures ----

  /**
   * What one rendered figure shows: its `data-index` (the position in the
   * slice, from 1), the image source, the alt text when `alt` is set, the
   * `content_text` whose Markdown becomes the caption when `desc` is set, and
   * the `pretty` flag.
   */
  datatype Figure = Figure(index: nat, src: Option<string>, alt: Option<string>, markdown: Option<string>, pretty: bool)

  /** The figure of the item at `position` of the slice: none without an `img`. */
  function FigureOf(item: Item, position: nat, flags: Flags): (r: Option<Figure>)
    ensures r.Some? <==> item.img.Some?
    ensures r.Some? ==> r.value.index == position + 1 && r.value.src == item.img.value.src
  {
    match item.img
    case None => None
    case Some(img) =>
      var alt := if flags.includeAlt then Some(img.alt.GetOr("")) else None;
      var md := if flags.includeDescription && item.contentText.GetOr("") != [] then item.contentText else None;
      Some(Figure(position + 1, img.src, alt, md, flags.pretty))
  }

  /** The figures of the selected items, in order. */
  function Figures(selected: seq<Item>, flags: Flags): seq<Figure> {
    if selected == [] then []
    else
      var n := |selected| - 1;
      Figures(selected[..n], flags) + (match FigureOf(selected[n], n, flags) case None => [] case Some(f) => [f])
  }

  /** Never more figures than items; each shows the item at its `data-index`, in increasing order. */
  lemma {:induction false} FiguresIndexed(selected: seq<Item>, flags: Flags)
    ensures var fs := Figures(selected, flags);
      |fs| <= |selected|
      && (forall k :: 0 <= k < |fs| ==>
            1 <= fs[k].index <= |selected| && FigureOf(selected[fs[k].index - 1], fs[k].index - 1, flags) == Some(fs[k]))
      && (forall k, m :: 0 <= k < m < |fs| ==> fs[k].index < fs[m].index)
  {
    if selected != [] {
      var n := |selected| - 1;
      var init := selected[..n];
      FiguresIndexed(init, flags);
      assert forall i :: 0 <= i < n ==> init[i] == selected[i];
    }
  }

  /** Every selected item with an image gets a figure with its position as `data-index`. */
  lemma {:induction false} FiguresComplete(selected: seq<Item>, flags: Flags)
    ensures forall i :: 0 <= i < |selected| && selected[i].img.Some? ==>
      exists k :: 0 <= k < |Figures(selected, flags)| && Figures(selected, flags)[k].index == i + 1
  {
    if selected != [] {
      var n := |selected| - 1;
      var init := selected[..n];
      FiguresComplete(init, flags);
      var fs0 := Figures(init, flags);
      var fs := Figures(selected, flags);
      assert forall i :: 0 <= i < n ==> init[i] == selected[i];
      forall i | 0 <= i < |selected| && selected[i].img.Some? ensures exists k :: 0 <= k < |fs| && fs[k].index == i + 1 {
        if i == n {
          assert fs == fs0 + [FigureOf(selected[n], n, flags).value];
          assert fs[|fs0|].index == n + 1;
        } else {
          assert init[i].img.Some?;
          var k :| 0 <= k < |fs0| && fs0[k].index == i + 1;
          assert fs[k] == fs0[k];
        }
      }
      assert fs == Figures(selected, flags);
      assert forall i :: 0 <= i < |selected| && selected[i].img.Some? ==>
        exists k :: 0 <= k < |Figures(selected, flags)| && Figures(selected, flags)[k].index == i + 1;
    }
  }

  /** The item loop: a figure for every item of the slice that has an image. */
  method RenderFigures(selected: seq<Item>, flags: Flags) returns (figures: seq<Figure>)
    ensures figures == Figures(selected, flags)
  {
    figures := [];
    for index := 0 to |selected|
      invariant figures == Figures(selected[..index], flags)
    {
      assert selected[..index + 1][..index] == selected[..index];
      var item := selected[index];
      if item.img.None? {
        continue;
      }
      var img := item.img.value;
      var alt := if flags.includeAlt then Some(img.alt.GetOr("")) else None;
      var md := if flags.includeDescription && item.contentText.GetOr("") != [] then item.contentText else None;
      figures := figures + [Figure(index + 1, img.src, alt, md, flags.pretty)];
    }
    assert selected[..|selected|] == selected;
  }

  /** With a non-negative `count`, at most `count` figures are rendered. */
  lemma AtMostCount(items: seq<Item>, n: nat, flags: Flags, exclude: seq<string>, excludeDesc: seq<string>)
    ensures |Figures(Selected(items, Num(n), exclude, excludeDesc), flags)| <= n
  {
    SelectedCount(items, Num(n), exclude, excludeDesc);
    FiguresIndexed(Selected(items, Num(n), exclude, excludeDesc), flags);
  }

  // ---- The paragraph step of markdownToHtml ----

  /** The number of line feeds `s` starts with. */
  function LeadingNewlines(s: string): (n: nat)
    ensures n <= |s|
  {
    if s != [] && s[0] == '\n' then 1 + LeadingNewlines(s[1..]) else 0
  }

  /** `html.replace(/\n{2,}/g, "</p><p>")`: every run of two or more line feeds becomes one paragraph break. */
  function CollapseBlankLines(s: string): string
    decreases |s|
  {
    if s == [] then []
    else if s[0] != '\n' then [s[0]] + CollapseBlankLines(s[1..])
    else
      var n := LeadingNewlines(s);
      if n >= 2 then "</p><p>" + CollapseBlankLines(s[n..]) else "\n" + CollapseBlankLines(s[1..])
  }

  /** `html.replace(/\n/g, "<br>")`. */
  function BreakNewlines(s: string): (r: string)
    ensures '\n' !in r
  {
    if s == [] then []
    else (if s[0] == '\n' then "<br>" else [s[0]]) + BreakNewlines(s[1..])
  }

  /** The paragraph step applied to the text the inline rewrites produced. */
  function Paragraphs(s: string): (r: string)
    ensures '\n' !in r
    ensures |r| >= 7 && r[..3] == "<p>" && r[|r| - 4..] == "</p>"
  {
    var body := BreakNewlines(CollapseBlankLines(s));
    var r := "<p>" + body + "</p>";
    assert r[..3] == "<p>" && r[|r| - 4..] == "</p>";
    r
  }

  /**
   * `markdownToHtml(md)`, reassigning `html` step by step. `inline` stands for
   * the four inline rewrites (links, strong, emphasis, code), which are not
   * modelled.
   */
  method MarkdownToHtml(md: string, inline: string -> string) returns (html: string)
    ensures md == [] ==> html == []
    ensures md != [] ==> html == Paragraphs(inline(Trim(md)))
  {
    if md == [] {
      return [];
    }
    html := Trim(md);
    html := inline(html);
    html := CollapseBlankLines(html);
    html := "<p>" + BreakNewlines(html) + "</p>";
  }

  lemma {:induction false} CollapseNoNewline(s: string)
    requires '\n' !in s
    ensures CollapseBlankLines(s) == s
  {
    if s != [] {
      CollapseNoNewline(s[1..]);
    }
  }

  lemma {:induction false} BreakNoNewline(s: string)
    requires '\n' !in s
    ensures BreakNewlines(s) == s
  {
    if s != [] {
      BreakNoNewline(s[1..]);
    }
  }

  lemma {:induction false} CollapsePrefix(a: string, t: string)
    requires '\n' !in a
    ensures CollapseBlankLines(a + t) == a + CollapseBlankLines(t)
  {
    if a == [] {
      assert a + t == t;
    } else {
      assert (a + t)[0] == a[0] && (a + t)[1..] == a[1..] + t;
      CollapsePrefix(a[1..], t);
    }
  }

  lemma {:induction false} BreakAppend(a: string, b: string)
    ensures BreakNewlines(a + b) == BreakNewlines(a) + BreakNewlines(b)
  {
    if a == [] {
      assert a + b == b;
    } else {
      assert (a + b)[0] == a[0] && (a + b)[1..] == a[1..] + b;
      BreakAppend(a[1..], b);
    }
  }

  /** A text on one line is just wrapped in one paragraph. */
  lemma ParagraphsOneLine(s: string)
    requires '\n' !in s
    ensures Paragraphs(s) == "<p>" + s + "</p>"
  {
    CollapseNoNewline(s);
    BreakNoNewline(s);
  }

  /** A single line feed becomes a line break inside the paragraph. */
  lemma ParagraphsLineBreak(a: string, b: string)
    requires '\n' !in a && '\n' !in b
    ensures Paragraphs(a + "\n" + b) == "<p>" + a + "<br>" + b + "</p>"
  {
    CollapseLineBreak(a, b);
    calc {
      BreakNewlines(a + "\n" + b);
      { assert a + "\n" + b == a + ("\n" + b); BreakAppend(a, "\n" + b); }
      BreakNewlines(a) + BreakNewlines("\n" + b);
      { BreakAppend("\n", b); assert BreakNewlines("\n") == "<br>"; }
      BreakNewlines(a) + "<br>" + BreakNewlines(b);
      { BreakNoNewline(a); BreakNoNewline(b); }
      a + "<br>" + b;
    }
  }

  lemma CollapseLineBreak(a: string, b: string)
    requires '\n' !in a && '\n' !in b
    ensures CollapseBlankLines(a + "\n" + b) == a + "\n" + b
  {
    var t := "\n" + b;
    assert a + "\n" + b == a + t;
    CollapsePrefix(a, t);
    assert t[1..] == b;
    assert LeadingNewlines(t) == 1 by {
      LeadingNewlinesRun(1, b);
      assert seq(1, _ => '\n') == "\n";
    }
    CollapseNoNewline(b);
  }

  /** `k` line feeds in a row, `k >= 2`, close one paragraph and open the next. */
  lemma ParagraphsBlankLines(a: string, k: nat, b: string)
    requires k >= 2 && '\n' !in a && '\n' !in b
    ensures Paragraphs(a + seq(k, _ => '\n') + b) == "<p>" + a + "</p><p>" + b + "</p>"
  {
    var c := a + "</p><p>" + b;
    assert CollapseBlankLines(a + seq(k, _ => '\n') + b) == c by {
      CollapseBlankRun(a, k, b);
    }
    assert BreakNewlines(c) == c by {
      NoNewlineAround(a, b);
      BreakNoNewline(c);
    }
  }

  /** The paragraph separator holds no line feed, so neither does the text around it. */
  lemma NoNewlineAround(a: string, b: string)
    requires '\n' !in a && '\n' !in b
    ensures '\n' !in a + "</p><p>" + b
  {
    var sep := "</p><p>";
    assert '\n' !in sep;
  }

  lemma CollapseBlankRun(a: string, k: nat, b: string)
    requires k >= 2 && '\n' !in a && '\n' !in b
    ensures CollapseBlankLines(a + seq(k, _ => '\n') + b) == a + "</p><p>" + b
  {
    var nl := seq(k, _ => '\n');
    var t := nl + b;
    assert a + nl + b == a + t;
    CollapsePrefix(a, t);
    LeadingNewlinesRun(k, b);
    assert t[k..] == b;
    CollapseNoNewline(b);
  }

  lemma {:induction false} LeadingNewlinesRun(k: nat, b: string)
    requires b == [] || b[0] != '\n'
    ensures LeadingNewlines(seq(k, _ => '\n') + b) == k
  {
    if k > 0 {
      var t := seq(k, _ => '\n') + b;
      assert t[1..] == seq(k - 1, _ => '\n') + b;
      LeadingNewlinesRun(k - 1, b);
    } else {
      assert seq(k, _ => '\n') + b == b;
    }
  }
}
