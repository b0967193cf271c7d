/**
 * The string helpers of scripts/fetch_bluesky_feed.py: UTF-8 byte offsets to
 * character offsets, AT-URI to web URL, and the two post classifiers.
 *
 * A Python `str` is a sequence of code points; here a `char` is a Unicode
 * scalar value, and only the number of bytes its UTF-8 form takes matters.
 */
module BlueskyText {
  import opened Wrappers
  import opened Strings

  /** The number of bytes of the UTF-8 encoding of `c`. */
  function Utf8Len(c: char): (n: nat)
    ensures 1 <= n <= 4
  {
    if c as int < 0x80 then 1
    else if c as int < 0x800 then 2
    else if c as int < 0x1_0000 then 3
    else 4
  }

  /** The length of `text.encode("utf-8")`. */
  function ByteLen(s: string): (n: nat)
    ensures n >= |s|
  {
    if s == [] then 0 else Utf8Len(s[0]) + ByteLen(s[1..])
  }

  lemma {:induction false} ByteLenAppend(a: string, b: string)
    ensures ByteLen(a + b) == ByteLen(a) + ByteLen(b)
  {
    if a == [] {
      assert a + b == b;
    } else {
      assert (a + b)[1..] == a[1..] + b;
      ByteLenAppend(a[1..], b);
    }
  }

  /** A longer prefix takes at least as many bytes. */
  lemma ByteLenPrefix(s: string, i: nat, j: nat)
    requires i <= j <= |s|
    ensures ByteLen(s[..i]) <= ByteLen(s[..j])
  {
    assert s[..j] == s[..i] + s[i..j];
    ByteLenAppend(s[..i], s[i..j]);
  }

  /** How many whole characters of `s` fit in its first `budget` bytes. */
  function FittingChars(s: string, budget: nat): (r: nat)
    ensures r <= |s|
  {
    if s == [] || Utf8Len(s[0]) > budget then 0
    else 1 + FittingChars(s[1..], budget - Utf8Len(s[0]))
  }

  /**
   * `byte_index_to_char_index`: the length of the decoding, with errors
   * ignored, of the first `byteIndex` bytes of the UTF-8 text. A character
   * cut by the bound is dropped, so this is the number of whole characters
   * that fit.
   */
  function CharIndex(text: string, byteIndex: int): (r: nat)
    ensures r <= |text|
    ensures byteIndex <= 0 ==> r == 0
  {
    if byteIndex <= 0 then 0 else FittingChars(text, byteIndex)
  }

  /** FittingChars is the longest prefix whose encoding fits. */
  lemma {:induction false} FittingCharsIsLongest(s: string, budget: nat)
    ensures var r := FittingChars(s, budget);
      ByteLen(s[..r]) <= budget && (r < |s| ==> ByteLen(s[..r + 1]) > budget)
  {
    var r := FittingChars(s, budget);
    if s == [] {
    } else if Utf8Len(s[0]) > budget {
      assert s[..1] == [s[0]] && [s[0]][1..] == [];
    } else {
      var b := budget - Utf8Len(s[0]);
      FittingCharsIsLongest(s[1..], b);
      assert s[..r][1..] == s[1..][..r - 1];
      if r < |s| {
        assert s[..r + 1][1..] == s[1..][..r];
      }
    }
  }

  /**
   * The character index is the largest `k` whose prefix `text[..k]` takes at
   * most `byteIndex` bytes: every shorter prefix fits, every longer one does not.
   */
  lemma CharIndexCharacterized(text: string, byteIndex: int, k: nat)
    requires byteIndex > 0 && k <= |text|
    ensures k <= CharIndex(text, byteIndex) <==> ByteLen(text[..k]) <= byteIndex
  {
    var r := CharIndex(text, byteIndex);
    FittingCharsIsLongest(text, byteIndex);
    if k <= r {
      ByteLenPrefix(text, k, r);
    } else {
      ByteLenPrefix(text, r + 1, k);
    }
  }

  /** A larger byte offset never gives a smaller character offset. */
  lemma CharIndexMonotone(text: string, b1: int, b2: int)
    requires b1 <= b2
    ensures CharIndex(text, b1) <= CharIndex(text, b2)
  {
    if b1 > 0 {
      var r := CharIndex(text, b1);
      FittingCharsIsLongest(text, b1);
      CharIndexCharacterized(text, b2, r);
    }
  }

  /** The offset of the whole encoding, or past it, is the length of the text. */
  lemma CharIndexWhole(text: string, byteIndex: int)
    requires byteIndex >= ByteLen(text) && text != []
    ensures CharIndex(text, byteIndex) == |text|
  {
    assert text[..|text|] == text;
    CharIndexCharacterized(text, byteIndex, |text|);
  }

  /** On ASCII text a byte is a character. */
  lemma {:induction false} CharIndexAscii(text: string, b: nat)
    requires forall i :: 0 <= i < |text| ==> text[i] as int < 0x80
    ensures FittingChars(text, b) == if b < |text| then b else |text|
  {
    if text != [] && b > 0 {
      CharIndexAscii(text[1..], b - 1);
    }
  }

  // ---- AT-URIs ----

  /** `s.rsplit("/", 1)[-1]`: what follows the last "/", or all of `s` without one. */
  function LastSegment(s: string): (r: string)
    ensures '/' !in r
    ensures |r| <= |s| && r == s[|s| - |r|..]
    ensures |r| < |s| ==> s[|s| - |r| - 1] == '/'
  {
    if s == [] then []
    else if s[|s| - 1] == '/' then []
    else LastSegment(s[..|s| - 1]) + [s[|s| - 1]]
  }

  /** The segment after a final "/" is recovered whatever comes before it. */
  lemma {:induction false} LastSegmentAfterSlash(p: string, seg: string)
    requires '/' !in seg
    ensures LastSegment(p + "/" + seg) == seg
  {
    if seg != [] {
      var init := seg[..|seg| - 1];
      assert (p + "/" + seg)[..|p + "/" + seg| - 1] == p + "/" + init;
      LastSegmentAfterSlash(p, init);
      assert init + [seg[|seg| - 1]] == seg;
    } else {
      assert p + "/" + seg == p + "/";
    }
  }

  /** A text without "/" is its own last segment. */
  lemma {:induction false} LastSegmentNoSlash(seg: string)
    requires '/' !in seg
    ensures LastSegment(seg) == seg
  {
    if seg != [] {
      LastSegmentNoSlash(seg[..|seg| - 1]);
      assert seg[..|seg| - 1] + [seg[|seg| - 1]] == seg;
    }
  }

  const ProfilePrefix := "https://bsky.app/profile/"

  /** `at_uri_to_web_url`. */
  function AtUriToWebUrl(atUri: string, handle: string): (r: string)
    ensures r == "" <==> atUri == "" || handle == ""
    ensures r != "" ==> r == ProfilePrefix + handle + "/post/" + LastSegment(atUri)
  {
    if atUri == "" || handle == "" then "" else ProfilePrefix + handle + "/post/" + LastSegment(atUri)
  }

  /** The post id of a record URI becomes the last path segment of the web URL. */
  lemma AtUriPostId(repo: string, collection: string, rkey: string, handle: string)
    requires '/' !in rkey && handle != ""
    ensures AtUriToWebUrl("at://" + repo + "/" + collection + "/" + rkey, handle)
      == ProfilePrefix + handle + "/post/" + rkey
  {
    LastSegmentAfterSlash("at://" + repo + "/" + collection, rkey);
    assert "at://" + repo + "/" + collection + "/" + rkey == ("at://" + repo + "/" + collection) + "/" + rkey;
  }

  // ---- Classifiers ----

  const BookActivityPrefixes: seq<string> := ["started reading:", "reading:", "finished reading:"]

  /** `is_book_activity`. */
  function IsBookActivity(text: string): (r: bool)
    ensures r <==> exists i :: 0 <= i < |BookActivityPrefixes| && StartsWith(Normalized(text), BookActivityPrefixes[i])
  {
    var n := Normalized(text);
    assert BookActivityPrefixes[0] == "started reading:" && BookActivityPrefixes[1] == "reading:";
    assert BookActivityPrefixes[2] == "finished reading:";
    StartsWith(n, "started reading:") || StartsWith(n, "reading:") || StartsWith(n, "finished reading:")
  }

  /** Surrounding whitespace and letter case do not change the verdict. */
  lemma BookActivityNormalized(text: string)
    ensures IsBookActivity(Normalized(text)) == IsBookActivity(text)
  {
    NormalizedIdempotent(text);
  }

  const SelfSiteDomain := "hunsanger.blog"
  const LinkFeature := "app.bsky.richtext.facet#link"
  const MentionFeature := "app.bsky.richtext.facet#mention"

  /** A facet feature: its `$type`, `uri` and `did`, each `None` when absent or null. */
  datatype Feature = Feature(kind: Option<string>, uri: Option<string>, did: Option<string>)

  /**
   * A rich-text facet: its `index.byteStart` and `index.byteEnd` (`None` when
   * missing or not a Python `int`) and its features.
   */
  datatype Facet = Facet(byteStart: Option<int>, byteEnd: Option<int>, features: seq<Feature>)

  /** A link feature whose lower-cased `uri` mentions the site's domain. */
  predicate SelfLinkFeature(f: Feature) {
    f.kind == Some(LinkFeature) && Contains(ToLower(f.uri.GetOr("")), SelfSiteDomain)
  }

  function AnySelfLinkFeature(features: seq<Feature>): (r: bool)
    ensures r <==> exists j :: 0 <= j < |features| && SelfLinkFeature(features[j])
  {
    if features == [] then false
    else SelfLinkFeature(features[0]) || AnySelfLinkFeature(features[1..])
  }

  function AnySelfLinkFacet(facets: seq<Facet>): (r: bool)
    ensures r <==> exists i, j :: 0 <= i < |facets| && 0 <= j < |facets[i].features| && SelfLinkFeature(facets[i].features[j])
  {
    if facets == [] then false
    else
      AnySelfLinkFeature(facets[0].features) || AnySelfLinkFacet(facets[1..])
  }

  /**
   * `is_self_site_link`: the domain occurs in the normalized text, or in the
   * `uri` of some link feature of some facet; features of other types are
   * ignored.
   */
  function IsSelfSiteLink(text: string, facets: seq<Facet>): (r: bool)
    ensures r <==> (Contains(Normalized(text), SelfSiteDomain)
                    || exists i, j :: 0 <= i < |facets| && 0 <= j < |facets[i].features| && SelfLinkFeature(facets[i].features[j]))
  {
    if Contains(Normalized(text), SelfSiteDomain) then true
    else AnySelfLinkFacet(facets)
  }

  /** Stripping the text before the search makes no difference: the domain has no whitespace at its ends. */
  lemma SelfSiteStripIrrelevant(text: string, facets: seq<Facet>)
    ensures IsSelfSiteLink(text, facets) <==> Contains(ToLower(text), SelfSiteDomain) || AnySelfLinkFacet(facets)
  {
    ToLowerTrim(text);
    ContainsTrim(ToLower(text), SelfSiteDomain);
  }
}
