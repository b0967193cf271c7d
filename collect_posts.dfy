/**
 * `collect_posts` of scripts/fetch_bluesky_feed.py: the paginated walk over
 * an author feed, the per-entry filters, the URL de-duplication and the final
 * newest-first sort.
 *
 * The feed pages are an input: `pages[k]` is the answer to the `k`-th request
 * (a request past the end of the sequence gets an empty page). Instants are
 * whole seconds since the epoch, and the cutoff is given.
 */
module CollectPosts {
  import opened Wrappers
  import opened Strings
  import opened Sorting
  import opened BlueskyText
  import opened RichText

  /** `record.createdAt`: missing or empty, unparseable, or an instant. */
  datatype Created = NoCreatedAt | BadCreatedAt | CreatedAt(unix: int)

  /** `post.record` when it is a dict: `createdAt`, whether `reply` is truthy, `text` ("" when absent or null), `facets`. */
  datatype Record = Record(createdAt: Created, isReply: bool, text: string, facets: seq<Facet>)

  /** The result of `extract_quote` for a post's embed, when it is not None. */
  datatype Quote = Quote(authorDisplay: string, authorHandle: string, textHtml: string, text: string, url: string)

  /**
   * One feed entry: whether its `reason` is a repost, its record (None when
   * not a dict), the post's `uri`, the author's `handle` and `displayName`
   * ("" when absent), and the quote extracted from its embed.
   */
  datatype FeedEntry = FeedEntry(isRepost: bool, record: Option<Record>, uri: string, handle: string,
                                 displayName: string, quote: Option<Quote>)

  /** One answer of `getAuthorFeed`: its `feed` and its `cursor`. */
  datatype Page = Page(feed: seq<FeedEntry>, cursor: Option<string>)

  /** One output post; the ISO date string and the date label are not modelled. */
  datatype BlueskyPost = BlueskyPost(authorDisplay: string, authorHandle: string, createdUnix: int,
                                     quote: Option<Quote>, textHtml: string, text: string, url: string)

  /** An entry that sets `saw_recent`: not a repost, a dict record, a parseable date, not older than the cutoff. */
  predicate Recent(e: FeedEntry, cutoff: int) {
    !e.isRepost && e.record.Some? && e.record.value.createdAt.CreatedAt?
    && e.record.value.createdAt.unix >= cutoff
  }

  /**
   * The post an entry contributes when its URL has not been seen: None for a
   * repost, a bad record, an old post, a reply, an entry without a URL, a book
   * activity, a link to the own site, or an entry with neither text nor quote.
   */
  function Candidate(e: FeedEntry, cutoff: int): Option<BlueskyPost> {
    if !Recent(e, cutoff) || e.record.value.isReply then None
    else
      var rec := e.record.value;
      var url := AtUriToWebUrl(e.uri, e.handle);
      var text := Trim(rec.text);
      if url == "" then None
      else if text != "" && IsBookActivity(text) then None
      else if text != "" && IsSelfSiteLink(text, rec.facets) then None
      else if text == "" && e.quote.None? then None
      else
        var display := if e.displayName != "" then e.displayName else e.handle;
        Some(BlueskyPost(display, e.handle, rec.createdAt.unix, e.quote, RichTextHtml(text, rec.facets), text, url))
  }

  /**
   * A candidate is a recent original post with a web URL, and it has text or a
   * quote; its text is the stripped record text, which is no book activity and
   * no link to the own site.
   */
  lemma CandidateFacts(e: FeedEntry, cutoff: int)
    ensures var r := Candidate(e, cutoff);
      r.Some? ==>
        Recent(e, cutoff) && !e.record.value.isReply && r.value.url != ""
        && r.value.url == AtUriToWebUrl(e.uri, e.handle) && r.value.createdUnix == e.record.value.createdAt.unix
        && var t := Trim(e.record.value.text);
           r.value.text == t && (t != "" || e.quote.Some?)
           && (t != "" ==> !IsBookActivity(t) && !IsSelfSiteLink(t, e.record.value.facets))
  {
  }

  /** Conversely, every recent original post with a web URL and some text or a quote, not filtered out, is a candidate. */
  lemma CandidateComplete(e: FeedEntry, cutoff: int)
    requires Recent(e, cutoff) && !e.record.value.isReply && AtUriToWebUrl(e.uri, e.handle) != ""
    requires var t := Trim(e.record.value.text);
      (t != "" || e.quote.Some?) && (t != "" ==> !IsBookActivity(t) && !IsSelfSiteLink(t, e.record.value.facets))
    ensures Candidate(e, cutoff).Some?
  {
  }

  /** The collected posts and `seen_urls`. */
  datatype Acc = Acc(posts: seq<BlueskyPost>, seen: set<string>)

  /** What the candidate of one entry does to the state. */
  function Step(a: Acc, c: Option<BlueskyPost>): Acc {
    match c
    case None => a
    case Some(p) => if p.url in a.seen then a else Acc(a.posts + [p], a.seen + {p.url})
  }

  /** The state after the inner loop has gone through entries with candidates `cs`, in order. */
  function Dedupe(cs: seq<Option<BlueskyPost>>): Acc {
    if cs == [] then Acc([], {})
    else Step(Dedupe(cs[..|cs| - 1]), cs[|cs| - 1])
  }

  /** The candidate of every entry, in order. */
  function Verdicts(entries: seq<FeedEntry>, cutoff: int): (r: seq<Option<BlueskyPost>>)
    ensures |r| == |entries|
  {
    seq(|entries|, k requires 0 <= k < |entries| => Candidate(entries[k], cutoff))
  }

  predicate DistinctUrls(posts: seq<BlueskyPost>) {
    forall i, j :: 0 <= i < j < |posts| ==> posts[i].url != posts[j].url
  }

  /**
   * The loop keeps one post per URL: `seen_urls` is the set of the collected
   * URLs, every collected post is a candidate, and every candidate's URL is
   * collected.
   */
  lemma {:induction false} DedupeFacts(cs: seq<Option<BlueskyPost>>)
    ensures var a := Dedupe(cs);
      DistinctUrls(a.posts)
      && (forall u :: u in a.seen <==> exists i :: 0 <= i < |a.posts| && a.posts[i].url == u)
      && (forall i :: 0 <= i < |a.posts| ==> Some(a.posts[i]) in cs)
      && (forall k :: 0 <= k < |cs| && cs[k].Some? ==> cs[k].value.url in a.seen)
  {
    if cs != [] {
      var init, c := cs[..|cs| - 1], cs[|cs| - 1];
      DedupeFacts(init);
      assert init + [c] == cs;
      DedupeStep(init, c, Dedupe(init));
    }
  }

  /** The state of the inner loop after the candidates `cs`. */
  ghost predicate DedupeInv(cs: seq<Option<BlueskyPost>>, a: Acc) {
    DistinctUrls(a.posts)
    && (forall u :: u in a.seen <==> exists i :: 0 <= i < |a.posts| && a.posts[i].url == u)
    && (forall i :: 0 <= i < |a.posts| ==> Some(a.posts[i]) in cs)
    && (forall k :: 0 <= k < |cs| && cs[k].Some? ==> cs[k].value.url in a.seen)
  }

  /** One more candidate keeps the inner loop's state consistent. */
  lemma DedupeStep(init: seq<Option<BlueskyPost>>, c: Option<BlueskyPost>, a0: Acc)
    requires DedupeInv(init, a0)
    ensures DedupeInv(init + [c], Step(a0, c))
  {
    if c.Some? && c.value.url !in a0.seen {
      DedupeAdd(init, c.value, a0);
    } else {
      DedupeSkip(init, c, a0);
    }
  }

  /** A candidate without a post, or with a URL already seen, changes nothing. */
  lemma DedupeSkip(init: seq<Option<BlueskyPost>>, c: Option<BlueskyPost>, a0: Acc)
    requires DedupeInv(init, a0)
    requires c.None? || c.value.url in a0.seen
    ensures DedupeInv(init + [c], a0)
  {
    var cs := init + [c];
    forall i | 0 <= i < |a0.posts| ensures Some(a0.posts[i]) in cs {
      assert Some(a0.posts[i]) in init;
    }
    forall k | 0 <= k < |cs| && cs[k].Some? ensures cs[k].value.url in a0.seen {
      if k < |init| {
        assert cs[k] == init[k];
      }
    }
  }

  /** A post with a new URL is appended, and its URL seen. */
  lemma DedupeAdd(init: seq<Option<BlueskyPost>>, p: BlueskyPost, a0: Acc)
    requires DedupeInv(init, a0)
    requires p.url !in a0.seen
    ensures DedupeInv(init + [Some(p)], Acc(a0.posts + [p], a0.seen + {p.url}))
  {
    var cs := init + [Some(p)];
    var posts := a0.posts + [p];
    var seen := a0.seen + {p.url};
    forall i, j | 0 <= i < j < |posts| ensures posts[i].url != posts[j].url {
      assert posts[i] == a0.posts[i];
      if j < |a0.posts| {
        assert posts[j] == a0.posts[j];
      }
    }
    forall u | u in seen ensures exists i :: 0 <= i < |posts| && posts[i].url == u {
      if u == p.url {
        assert posts[|a0.posts|].url == u;
      } else {
        var i :| 0 <= i < |a0.posts| && a0.posts[i].url == u;
        assert posts[i].url == u;
      }
    }
    forall i | 0 <= i < |posts| ensures Some(posts[i]) in cs {
      if i == |a0.posts| {
        assert cs[|init|] == Some(posts[i]);
      } else {
        assert posts[i] == a0.posts[i];
        assert Some(a0.posts[i]) in init;
      }
    }
    forall k | 0 <= k < |cs| && cs[k].Some? ensures cs[k].value.url in seen {
      if k < |init| {
        assert cs[k] == init[k];
      }
    }
  }

  // ---- Pages ----

  /** The answer to the `k`-th request. */
  function PageAt(pages: seq<Page>, k: nat): Page {
    if k < |pages| then pages[k] else Page([], None)
  }

  predicate SawRecent(feed: seq<FeedEntry>, cutoff: int) {
    exists j :: 0 <= j < |feed| && Recent(feed[j], cutoff)
  }

  /** The walk goes on after a page with entries, a cursor and at least one recent post. */
  predicate Continues(p: Page, cutoff: int) {
    p.feed != [] && p.cursor.Some? && p.cursor.value != "" && SawRecent(p.feed, cutoff)
  }

  /** The requests made from the `k`-th on, when fewer than `maxPages` came before. */
  function RequestsFrom(pages: seq<Page>, cutoff: int, maxPages: nat, k: nat): nat
    decreases maxPages - k
  {
    if k >= maxPages then 0
    else 1 + (if Continues(PageAt(pages, k), cutoff) then RequestsFrom(pages, cutoff, maxPages, k + 1) else 0)
  }

  function Requests(pages: seq<Page>, cutoff: int, maxPages: nat): nat {
    RequestsFrom(pages, cutoff, maxPages, 0)
  }

  /** The entries of the first `n` answers, in order. */
  function Fetched(pages: seq<Page>, n: nat): seq<FeedEntry> {
    if n == 0 then [] else Fetched(pages, n - 1) + PageAt(pages, n - 1).feed
  }

  /** Newest first: `sort(key=created_at_unix, reverse=True)`, which Python keeps stable. */
  function PostKey(p: BlueskyPost): Key {
    Key(0 - p.createdUnix, 0)
  }

  /** The candidates of every entry of every page fetched, in order. */
  function Considered(pages: seq<Page>, cutoff: int, maxPages: nat): seq<Option<BlueskyPost>> {
    Verdicts(Fetched(pages, Requests(pages, cutoff, maxPages)), cutoff)
  }

  /** The result of `collect_posts`. */
  function CollectedPosts(pages: seq<Page>, cutoff: int, maxPages: nat): seq<BlueskyPost> {
    SortBy(Dedupe(Considered(pages, cutoff, maxPages)).posts, PostKey)
  }

  lemma {:induction false} RequestsFromFacts(pages: seq<Page>, cutoff: int, maxPages: nat, k: nat)
    requires k <= maxPages
    ensures var m := RequestsFrom(pages, cutoff, maxPages, k);
      k + m <= maxPages
      && (k < maxPages ==> m >= 1)
      && (forall q :: k <= q < k + m - 1 ==> Continues(PageAt(pages, q), cutoff))
      && (m >= 1 && k + m < maxPages ==> !Continues(PageAt(pages, k + m - 1), cutoff))
    decreases maxPages - k
  {
    if k < maxPages && Continues(PageAt(pages, k), cutoff) {
      RequestsFromFacts(pages, cutoff, maxPages, k + 1);
    }
  }

  /**
   * At most `maxPages` requests; every answer but the last one read had entries,
   * a cursor and a recent post; and a walk that stops before `maxPages` stops
   * on an empty page, a missing cursor or a page without a recent post.
   */
  lemma Pagination(pages: seq<Page>, cutoff: int, maxPages: nat)
    ensures var n := Requests(pages, cutoff, maxPages);
      n <= maxPages && (maxPages > 0 ==> n >= 1)
      && (forall q :: 0 <= q < n - 1 ==> Continues(PageAt(pages, q), cutoff))
      && (0 < n < maxPages ==> !Continues(PageAt(pages, n - 1), cutoff))
  {
    RequestsFromFacts(pages, cutoff, maxPages, 0);
  }

  // ---- The result ----

  lemma {:induction false} CountAtMostOne(s: seq<BlueskyPost>, x: BlueskyPost)
    requires DistinctUrls(s)
    ensures multiset(s)[x] <= 1
  {
    if s != [] {
      var rest := s[1..];
      assert s == [s[0]] + rest;
      assert DistinctUrls(rest) by {
        forall i, j | 0 <= i < j < |rest| ensures rest[i].url != rest[j].url {
          assert rest[i] == s[i + 1] && rest[j] == s[j + 1];
        }
      }
      CountAtMostOne(rest, x);
      if s[0] == x {
        forall i | 0 <= i < |rest| ensures rest[i] != x {
          assert rest[i] == s[i + 1];
        }
        assert x !in rest;
      }
    }
  }

  /** A permutation of posts with distinct URLs has distinct URLs. */
  lemma DistinctUrlsPermutation(a: seq<BlueskyPost>, b: seq<BlueskyPost>)
    requires multiset(a) == multiset(b) && DistinctUrls(a)
    ensures DistinctUrls(b)
  {
    forall i, j | 0 <= i < j < |b| ensures b[i].url != b[j].url {
      if b[i] == b[j] {
        assert b == b[..j] + b[j..];
        assert b[i] in b[..j] && b[j] in b[j..];
        assert multiset(b)[b[i]] == multiset(b[..j])[b[i]] + multiset(b[j..])[b[i]];
        CountAtMostOne(a, b[i]);
      } else {
        assert b[i] in multiset(a) && b[j] in multiset(a);
        var p :| 0 <= p < |a| && a[p] == b[i];
        var q :| 0 <= q < |a| && a[q] == b[j];
      }
    }
  }

  /** Sorting the de-duplicated candidates newest first keeps them distinct, and keeps each one. */
  lemma SortedDedupeFacts(cs: seq<Option<BlueskyPost>>)
    ensures var r := SortBy(Dedupe(cs).posts, PostKey);
      DistinctUrls(r)
      && (forall i, j :: 0 <= i < j < |r| ==> r[i].createdUnix >= r[j].createdUnix)
      && (forall p :: p in r ==> Some(p) in cs)
      && (forall k :: 0 <= k < |cs| && cs[k].Some? ==> exists i :: 0 <= i < |r| && r[i].url == cs[k].value.url)
  {
    var a := Dedupe(cs);
    DedupeFacts(cs);
    forall k | 0 <= k < |cs| && cs[k].Some?
      ensures exists i :: 0 <= i < |a.posts| && a.posts[i].url == cs[k].value.url
    {
      assert cs[k].value.url in a.seen;
    }
    var r := SortBy(a.posts, PostKey);
    PermutationKeeps(cs, a.posts, r);
    NewestFirst(a.posts);
  }

  /** A permutation of the collected posts keeps what the collection promised. */
  lemma PermutationKeeps(cs: seq<Option<BlueskyPost>>, posts: seq<BlueskyPost>, r: seq<BlueskyPost>)
    requires multiset(posts) == multiset(r) && DistinctUrls(posts)
    requires forall i :: 0 <= i < |posts| ==> Some(posts[i]) in cs
    requires forall k :: 0 <= k < |cs| && cs[k].Some? ==>
      exists i :: 0 <= i < |posts| && posts[i].url == cs[k].value.url
    ensures DistinctUrls(r)
    ensures forall p :: p in r ==> Some(p) in cs
    ensures forall k :: 0 <= k < |cs| && cs[k].Some? ==> exists i :: 0 <= i < |r| && r[i].url == cs[k].value.url
  {
    DistinctUrlsPermutation(posts, r);
    SameUrls(posts, r);
    forall p | p in r ensures Some(p) in cs {
      var i :| 0 <= i < |posts| && posts[i] == p;
    }
    forall k | 0 <= k < |cs| && cs[k].Some? ensures exists i :: 0 <= i < |r| && r[i].url == cs[k].value.url {
      var j :| 0 <= j < |posts| && posts[j].url == cs[k].value.url;
    }
  }

  /** The sort key puts later instants first. */
  lemma NewestFirst(s: seq<BlueskyPost>)
    ensures var r := SortBy(s, PostKey);
      forall i, j :: 0 <= i < j < |r| ==> r[i].createdUnix >= r[j].createdUnix
  {
    var r := SortBy(s, PostKey);
    SortBySorted(s, PostKey);
    forall i, j | 0 <= i < j < |r| ensures r[i].createdUnix >= r[j].createdUnix {
      assert KeyLe(PostKey(r[i]), PostKey(r[j]));
    }
  }

  /** Two permutations hold the same posts, and so the same URLs. */
  lemma SameUrls(s: seq<BlueskyPost>, r: seq<BlueskyPost>)
    requires multiset(s) == multiset(r)
    ensures forall p :: p in r ==> exists i :: 0 <= i < |s| && s[i] == p
    ensures forall i :: 0 <= i < |s| ==> exists j :: 0 <= j < |r| && r[j].url == s[i].url
  {
    forall p | p in r ensures exists i :: 0 <= i < |s| && s[i] == p {
      assert p in multiset(s);
    }
    forall i | 0 <= i < |s| ensures exists j :: 0 <= j < |r| && r[j].url == s[i].url {
      assert s[i] in multiset(r);
      var j :| 0 <= j < |r| && r[j] == s[i];
    }
  }

  /**
   * `collect_posts` returns distinct URLs, newest first, each the candidate of
   * a fetched entry, and misses no candidate's URL.
   */
  lemma CollectedPostsFacts(pages: seq<Page>, cutoff: int, maxPages: nat)
    ensures DistinctUrls(CollectedPosts(pages, cutoff, maxPages))
    ensures forall i, j :: 0 <= i < j < |CollectedPosts(pages, cutoff, maxPages)| ==>
      CollectedPosts(pages, cutoff, maxPages)[i].createdUnix >= CollectedPosts(pages, cutoff, maxPages)[j].createdUnix
    ensures forall p :: p in CollectedPosts(pages, cutoff, maxPages) ==>
      Some(p) in Considered(pages, cutoff, maxPages)
    ensures forall k :: 0 <= k < |Considered(pages, cutoff, maxPages)| && Considered(pages, cutoff, maxPages)[k].Some? ==>
      exists i :: 0 <= i < |CollectedPosts(pages, cutoff, maxPages)|
        && CollectedPosts(pages, cutoff, maxPages)[i].url == Considered(pages, cutoff, maxPages)[k].value.url
  {
    SortedDedupeFacts(Considered(pages, cutoff, maxPages));
  }

  // ---- The loop ----

  lemma VerdictsSnoc(entries: seq<FeedEntry>, e: FeedEntry, cutoff: int)
    ensures Verdicts(entries + [e], cutoff) == Verdicts(entries, cutoff) + [Candidate(e, cutoff)]
  {
    var a := Verdicts(entries + [e], cutoff);
    var b := Verdicts(entries, cutoff) + [Candidate(e, cutoff)];
    forall k | 0 <= k < |a| ensures a[k] == b[k] {
      assert (entries + [e])[k] == if k < |entries| then entries[k] else e;
    }
  }

  /** The body of the inner loop, for one entry: the filters in the order they are tried. */
  method ScanEntry(e: FeedEntry, cutoff: int, posts0: seq<BlueskyPost>, seen0: set<string>)
    returns (posts: seq<BlueskyPost>, seen: set<string>, recent: bool)
    ensures Acc(posts, seen) == Step(Acc(posts0, seen0), Candidate(e, cutoff))
    ensures recent == Recent(e, cutoff)
  {
    posts, seen, recent := posts0, seen0, false;
    if e.isRepost || e.record.None? {
      return;
    }
    var rec := e.record.value;
    if !rec.createdAt.CreatedAt? {
      return;
    }
    var created := rec.createdAt.unix;
    if created < cutoff {
      return;
    }
    recent := true;
    if rec.isReply {
      return;
    }
    var display := if e.displayName != "" then e.displayName else e.handle;
    var url := AtUriToWebUrl(e.uri, e.handle);
    if url == "" || url in seen {
      return;
    }
    var text := Trim(rec.text);
    var html := RenderRichTextHtml(text, rec.facets);
    if text != "" && IsBookActivity(text) {
      return;
    }
    if text != "" && IsSelfSiteLink(text, rec.facets) {
      return;
    }
    if text == "" && e.quote.None? {
      return;
    }
    seen := seen + {url};
    posts := posts + [BlueskyPost(display, e.handle, created, e.quote, html, text, url)];
  }

  /** One more entry of the answer: one more step of the de-duplication, one more chance of a recent post. */
  lemma ScanPageStep(before: seq<FeedEntry>, feed: seq<FeedEntry>, j: nat, cutoff: int)
    requires j < |feed|
    ensures Dedupe(Verdicts(before + feed[..j + 1], cutoff))
      == Step(Dedupe(Verdicts(before + feed[..j], cutoff)), Candidate(feed[j], cutoff))
    ensures SawRecent(feed[..j + 1], cutoff) <==> SawRecent(feed[..j], cutoff) || Recent(feed[j], cutoff)
  {
    var e := feed[j];
    VerdictsSnoc(before + feed[..j], e, cutoff);
    assert before + feed[..j + 1] == before + feed[..j] + [e];
    var vs := Verdicts(before + feed[..j], cutoff) + [Candidate(e, cutoff)];
    assert vs[..|vs| - 1] == Verdicts(before + feed[..j], cutoff);
    if SawRecent(feed[..j + 1], cutoff) {
      var q :| 0 <= q < j + 1 && Recent(feed[..j + 1][q], cutoff);
      if q < j {
        assert feed[..j][q] == feed[q];
      }
    }
    if SawRecent(feed[..j], cutoff) {
      var q :| 0 <= q < j && Recent(feed[..j][q], cutoff);
      assert feed[..j + 1][q] == feed[q];
    }
    if Recent(e, cutoff) {
      assert feed[..j + 1][j] == e;
    }
  }

  /** The inner loop over one answer's entries. */
  method ScanPage(feed: seq<FeedEntry>, cutoff: int, posts0: seq<BlueskyPost>, seen0: set<string>, ghost before: seq<FeedEntry>)
    returns (posts: seq<BlueskyPost>, seen: set<string>, sawRecent: bool)
    requires Acc(posts0, seen0) == Dedupe(Verdicts(before, cutoff))
    ensures Acc(posts, seen) == Dedupe(Verdicts(before + feed, cutoff))
    ensures sawRecent == SawRecent(feed, cutoff)
  {
    posts, seen, sawRecent := posts0, seen0, false;
    assert before + feed[..0] == before;
    for j := 0 to |feed|
      invariant Acc(posts, seen) == Dedupe(Verdicts(before + feed[..j], cutoff))
      invariant sawRecent == SawRecent(feed[..j], cutoff)
    {
      ScanPageStep(before, feed, j, cutoff);
      var recent;
      posts, seen, recent := ScanEntry(feed[j], cutoff, posts, seen);
      sawRecent := sawRecent || recent;
    }
    assert feed[..|feed|] == feed;
  }

  /** `collect_posts`: returns the posts and the number of requests made. */
  method Collect(pages: seq<Page>, cutoff: int, maxPages: nat) returns (posts: seq<BlueskyPost>, requests: nat)
    ensures requests == Requests(pages, cutoff, maxPages)
    ensures posts == CollectedPosts(pages, cutoff, maxPages)
  {
    posts := [];
    var seen: set<string> := {};
    requests := 0;
    var i := 0;
    while i < maxPages
      invariant i <= maxPages
      invariant Requests(pages, cutoff, maxPages) == i + RequestsFrom(pages, cutoff, maxPages, i)
      invariant requests == i
      invariant Acc(posts, seen) == Dedupe(Verdicts(Fetched(pages, i), cutoff))
      decreases maxPages - i
    {
      var page := PageAt(pages, i);
      requests := requests + 1;
      if page.feed == [] {
        assert Fetched(pages, i) + page.feed == Fetched(pages, i);
        assert RequestsFrom(pages, cutoff, maxPages, i) == 1;
        i := i + 1;
        assert Acc(posts, seen) == Dedupe(Verdicts(Fetched(pages, i), cutoff));
        break;
      }
      var sawRecent;
      posts, seen, sawRecent := ScanPage(page.feed, cutoff, posts, seen, Fetched(pages, i));
      assert Fetched(pages, i + 1) == Fetched(pages, i) + page.feed;
      i := i + 1;
      if page.cursor.None? || page.cursor.value == "" || !sawRecent {
        assert RequestsFrom(pages, cutoff, maxPages, i - 1) == 1;
        assert Acc(posts, seen) == Dedupe(Verdicts(Fetched(pages, i), cutoff));
        break;
      }
    }
    assert requests == Requests(pages, cutoff, maxPages);
    assert Acc(posts, seen) == Dedupe(Verdicts(Fetched(pages, Requests(pages, cutoff, maxPages)), cutoff));
    posts := SortBy(posts, PostKey);
  }
}
