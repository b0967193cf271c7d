/**
 * The tag feed engine of omglol-theme/tag.js: the index load (`init`), the
 * batch cursor (`allPosts`, `nextIndex`, `renderBatch`), the per-entry
 * loader guarded by `data-loaded`, and the status line.
 *
 * The page's HTML parser, `fetch` and the two IntersectionObservers are
 * outside the model. Their results arrive as events: `Init` receives the
 * outcome of the index request, `SentinelNear` and `EntryNear` are the two
 * observers' callbacks, and `JobSettled` is a post request finishing.
 */
module TagFeed {
  import opened Wrappers
  import opened Strings
  import opened TagOptions
  import opened JsNumbers
  import JobQueue

  /** One post of the tag index: its absolute URL and its date text. */
  datatype Post = Post(url: string, date: string)

  /**
   * One anchor matched by the index selector, as the parser sees it: whether it
   * has an enclosing `li`, its `href` ("" when absent), the text of the item's
   * `i` element if there is one, and `new URL(href, origin)` (None when the
   * constructor throws).
   */
  datatype IndexLink = IndexLink(inItem: bool, href: string, dateText: Option<string>, resolved: Option<string>)

  /** The index request: failed (network error or a non-ok status), or the links of the page. */
  datatype IndexResponse = IndexFailed | IndexLinks(links: seq<IndexLink>)

  /** A post request: failed (non-ok status or a thrown error), or the page's `article`/`main` inner HTML, if any. */
  datatype PostResponse = PostFailed | PostPage(article: Option<string>)

  datatype Content = Placeholder | Html(fragment: string)

  /**
   * One rendered `article.tag-entry`: its `data-url`, its date, whether it has
   * its `.tag-entry-content` node, whether the entry observer still watches it,
   * its `data-loaded` flag, what its content node shows, and whether it carries
   * the `tag-entry-error` class.
   */
  datatype Entry = Entry(url: string, date: string, hasContentNode: bool, observed: bool,
                         loaded: bool, content: Content, failed: bool)

  /** Where the widget is: stopped for lack of a tag, waiting for the index, stopped on an error or an empty index, or browsing. */
  datatype Phase = NoTag | Mounted | IndexError | NoPosts | Browsing

  /** The container's `data-*` attributes. */
  datatype Attributes = Attributes(tag: Option<string>, showStatus: Option<string>, batchSize: Option<string>,
                                   perPage: Option<string>, concurrent: Option<string>)

  const NoTagText := "No tag specified."
  const LoadingText := "Loading..."
  const ErrorText := "Error loading tag feed."
  const NoArticleHtml := "<p>(No article found.)</p>"
  const LoadErrorHtml := "<p class=\"tag-entry-error-text\">Could not load post content.</p>"

  function NoPostsText(tag: string): string {
    "No posts found for tag: " + tag
  }

  function FoundText(count: nat, tag: string): string {
    "Found " + NatToDecimal(count) + " posts for \"" + tag + "\". Loading..."
  }

  function AllLoadedText(tag: string): string {
    "All posts loaded for \"" + tag + "\"."
  }

  function ProgressText(next: nat, total: nat): string {
    "Loaded " + NatToDecimal(next) + " of " + NatToDecimal(total) + " posts. <em>Scroll for more...</em>"
  }

  /** The status after a batch: progress while posts remain, "all loaded" once the cursor is at the end. */
  function BatchStatus(next: nat, total: nat, tag: string): (s: string)
    ensures s == AllLoadedText(tag) <==> next >= total
    ensures next < total ==> s == ProgressText(next, total)
  {
    if next < total then
      assert ProgressText(next, total)[0] != AllLoadedText(tag)[0];
      ProgressText(next, total)
    else AllLoadedText(tag)
  }

  /** The progress line reads back as the cursor and the total. */
  lemma ProgressCounts(next: nat, total: nat)
    ensures var s := ProgressText(next, total);
      var a := NatToDecimal(next);
      var b := NatToDecimal(total);
      s[7..7 + |a|] == a && s[11 + |a|..11 + |a| + |b|] == b
      && DecimalValue(a) == next && DecimalValue(b) == total
  {
    var a := NatToDecimal(next);
    var b := NatToDecimal(total);
    var tail := " posts. <em>Scroll for more...</em>";
    var s := ProgressText(next, total);
    assert s == "Loaded " + a + (" of " + b + tail);
    SliceMiddle("Loaded ", a, " of " + b + tail);
    assert s == ("Loaded " + a + " of ") + b + tail;
    SliceMiddle("Loaded " + a + " of ", b, tail);
    DecimalRoundTrip(next);
    DecimalRoundTrip(total);
  }

  lemma SliceMiddle(p: string, x: string, q: string)
    ensures (p + x + q)[|p|..|p| + |x|] == x
  {
  }

  // ---- The index: links to posts ----

  predicate Usable(l: IndexLink) {
    l.inItem && l.href != ""
  }

  function PostOf(l: IndexLink): Post
    requires l.resolved.Some?
  {
    Post(l.resolved.value, Trim(l.dateText.GetOr("")))
  }

  /** The `map` step: `null` for a link without `li` or `href`; `None` overall when a URL constructor throws. */
  function MapLinks(links: seq<IndexLink>): Option<seq<Option<Post>>> {
    if links == [] then Some([])
    else
      var l := links[0];
      if Usable(l) && l.resolved.None? then None
      else match MapLinks(links[1..])
        case None => None
        case Some(rest) => Some([if Usable(l) then Some(PostOf(l)) else None] + rest)
  }

  /** The `filter(Boolean)` step. */
  function Compact(s: seq<Option<Post>>): seq<Post> {
    if s == [] then [] else (if s[0].Some? then [s[0].value] else []) + Compact(s[1..])
  }

  /** `allPosts` as `init` builds it, or `None` when building it throws. */
  function ExtractPosts(links: seq<IndexLink>): Option<seq<Post>> {
    match MapLinks(links)
    case None => None
    case Some(c) => Some(Compact(c))
  }

  /** The usable links, in document order. */
  function UsableLinks(links: seq<IndexLink>): (r: seq<IndexLink>)
    ensures forall i :: 0 <= i < |r| ==> Usable(r[i])
  {
    if links == [] then [] else (if Usable(links[0]) then [links[0]] else []) + UsableLinks(links[1..])
  }

  predicate AllResolved(links: seq<IndexLink>) {
    forall i :: 0 <= i < |links| ==> links[i].resolved.Some?
  }

  function PostsOf(links: seq<IndexLink>): (r: seq<Post>)
    requires AllResolved(links)
    ensures |r| == |links|
  {
    if links == [] then [] else [PostOf(links[0])] + PostsOf(links[1..])
  }

  /**
   * `allPosts` is the usable links in document order, each resolved and dated,
   * with the others dropped; building it fails exactly when a usable link's URL
   * cannot be resolved.
   */
  lemma {:induction false} ExtractPostsInOrder(links: seq<IndexLink>)
    ensures var u := UsableLinks(links);
      ExtractPosts(links) == if AllResolved(u) then Some(PostsOf(u)) else None
  {
    if links != [] {
      var l, rest := links[0], links[1..];
      ExtractPostsInOrder(rest);
      var u1 := UsableLinks(rest);
      if !Usable(l) {
        assert UsableLinks(links) == u1;
        if MapLinks(rest).Some? {
          var c := MapLinks(rest).value;
          assert MapLinks(links) == Some([None] + c);
          assert Compact([None] + c) == Compact(c);
        }
      } else if l.resolved.None? {
        assert UsableLinks(links)[0] == l;
      } else {
        UsableCons(l, u1, PostOf(l));
        assert UsableLinks(links) == [l] + u1;
        if MapLinks(rest).Some? {
          var c := MapLinks(rest).value;
          assert MapLinks(links) == Some([Some(PostOf(l))] + c);
          assert Compact([Some(PostOf(l))] + c) == [PostOf(l)] + Compact(c);
        }
      }
    }
  }

  lemma UsableCons(l: IndexLink, u: seq<IndexLink>, p: Post)
    requires l.resolved.Some? && p == PostOf(l)
    ensures AllResolved([l] + u) <==> AllResolved(u)
    ensures AllResolved(u) ==> PostsOf([l] + u) == [p] + PostsOf(u)
  {
    var lu := [l] + u;
    assert lu[1..] == u;
    assert forall i :: 0 <= i < |u| ==> lu[i + 1] == u[i];
  }

  // ---- The cursor ----

  /** `nextIndex` after one `renderBatch`: it moves by the length of `allPosts.slice(next, next + size)`. */
  function NextCursor(next: nat, total: nat, size: nat): (r: nat)
    requires next <= total && size >= 1
    ensures next <= r <= total
    ensures next < total ==> r > next
    ensures r - next == SliceLength(total, next, Num(next + size))
  {
    if next + size < total then next + size else total
  }

  /** The cursor after `calls` renders starting from 0. */
  function CursorAfter(calls: nat, total: nat, size: nat): (r: nat)
    requires size >= 1
    ensures r <= total
  {
    if calls == 0 then 0 else NextCursor(CursorAfter(calls - 1, total, size), total, size)
  }

  /** After `k` renders the cursor is at `min(k * size, total)`. */
  lemma {:induction false} CursorAfterIs(calls: nat, total: nat, size: nat)
    requires size >= 1
    ensures CursorAfter(calls, total, size) == JobQueue.Min(calls * size, total)
  {
    if calls > 0 {
      CursorAfterIs(calls - 1, total, size);
      assert calls * size == (calls - 1) * size + size;
    }
  }

  /** `ceil(total / size)` renders show every post, and no fewer do. */
  lemma RendersNeeded(total: nat, size: nat)
    requires size >= 1
    ensures var calls := (total + size - 1) / size;
      CursorAfter(calls, total, size) == total
      && forall k :: 0 <= k < calls ==> CursorAfter(k, total, size) < total
  {
    var calls := (total + size - 1) / size;
    CeilBounds(total, size);
    CursorAfterIs(calls, total, size);
    forall k | 0 <= k < calls ensures CursorAfter(k, total, size) < total {
      CursorAfterIs(k, total, size);
    }
  }

  lemma CeilBounds(total: nat, size: nat)
    requires size >= 1
    ensures var calls := (total + size - 1) / size;
      calls * size >= total && forall k: nat :: k < calls ==> k * size < total
  {
    var calls := (total + size - 1) / size;
    var rem := (total + size - 1) % size;
    assert calls * size + rem == total + size - 1 && rem < size;
    forall k: nat | k < calls ensures k * size < total {
      MulMonotone(k, calls - 1, size);
      assert (calls - 1) * size == calls * size - size;
    }
  }

  lemma MulMonotone(a: nat, b: nat, c: nat)
    requires a <= b
    ensures a * c <= b * c
  {
  }

  /** Renders past the end leave the cursor where it is. */
  lemma RendersPastEnd(calls: nat, total: nat, size: nat)
    requires size >= 1 && CursorAfter(calls, total, size) == total
    ensures CursorAfter(calls + 1, total, size) == total
  {
  }

  // ---- The per-entry loader ----

  function Placeholders(posts: seq<Post>): (r: seq<Entry>)
    ensures |r| == |posts|
  {
    seq(|posts|, i requires 0 <= i < |posts| =>
      Entry(posts[i].url, posts[i].date, true, true, false, Placeholder, false))
  }

  /** What a load job does to its entry: the fetched fragment, or the fixed error fragment and class. */
  function Settled(e: Entry, response: PostResponse): (r: Entry)
    ensures r.url == e.url && r.date == e.date && r.loaded == e.loaded && r.observed == e.observed
    ensures r.content != Placeholder
    ensures response.PostFailed? ==> r.content == Html(LoadErrorHtml) && r.failed
    ensures response.PostPage? ==>
      r.failed == e.failed && r.content == Html(if response.article.Some? then response.article.value else NoArticleHtml)
  {
    match response
    case PostFailed => e.(content := Html(LoadErrorHtml), failed := true)
    case PostPage(article) => e.(content := Html(article.GetOr(NoArticleHtml)))
  }

  ghost predicate NoDup(s: seq<nat>) {
    forall i, j :: 0 <= i < j < |s| ==> s[i] != s[j]
  }

  lemma NoDupRemove(s: seq<nat>, k: nat)
    requires NoDup(s) && k < |s|
    ensures var t := s[..k] + s[k + 1..];
      NoDup(t) && s[k] !in t && forall x :: x in t <==> x in s && x != s[k]
  {
    var t := s[..k] + s[k + 1..];
    assert forall i :: 0 <= i < |t| ==> t[i] == if i < k then s[i] else s[i + 1];
    forall x | x in s && x != s[k] ensures x in t {
      var i :| 0 <= i < |s| && s[i] == x;
      assert t[if i < k then i else i - 1] == x;
    }
  }

  /** The entries are the first posts, in order, each with its content node. */
  ghost predicate Mirrors(entries: seq<Entry>, posts: seq<Post>) {
    |entries| <= |posts|
    && forall i :: 0 <= i < |entries| ==>
         entries[i].url == posts[i].url && entries[i].date == posts[i].date && entries[i].hasContentNode
  }

  /**
   * The state of the load jobs: each entry is loaded at most once and ends in
   * one outcome. `outstanding` is the jobs started or waiting, `enqueued` every
   * job ever admitted.
   */
  ghost predicate JobsOk(entries: seq<Entry>, enqueued: seq<nat>, outstanding: seq<nat>) {
    NoDup(enqueued) && NoDup(outstanding)
    && (forall j :: j in enqueued ==> j < |entries|)
    && (forall i :: 0 <= i < |entries| ==> (entries[i].loaded <==> i in enqueued))
    && (forall j :: j in outstanding ==> j < |entries| && entries[j].loaded && entries[j].content == Placeholder)
    && (forall i :: 0 <= i < |entries| && entries[i].loaded && entries[i].content == Placeholder ==> i in outstanding)
    && (forall i :: 0 <= i < |entries| && !entries[i].loaded ==> entries[i].content == Placeholder && !entries[i].failed)
    && (forall i :: 0 <= i < |entries| && entries[i].failed ==> entries[i].content == Html(LoadErrorHtml))
  }

  lemma MirrorsExtend(entries: seq<Entry>, posts: seq<Post>, hi: nat)
    requires Mirrors(entries, posts) && |entries| <= hi <= |posts|
    ensures Mirrors(entries + Placeholders(posts[|entries|..hi]), posts)
  {
    var extra := Placeholders(posts[|entries|..hi]);
    forall i | |entries| <= i < |entries| + |extra|
      ensures (entries + extra)[i].url == posts[i].url && (entries + extra)[i].date == posts[i].date
    {
      assert (entries + extra)[i] == extra[i - |entries|];
    }
  }

  lemma JobsOkExtend(entries: seq<Entry>, enqueued: seq<nat>, outstanding: seq<nat>, posts: seq<Post>)
    requires JobsOk(entries, enqueued, outstanding)
    ensures JobsOk(entries + Placeholders(posts), enqueued, outstanding)
  {
    var all := entries + Placeholders(posts);
    forall i | |entries| <= i < |all|
      ensures !all[i].loaded && all[i].content == Placeholder && !all[i].failed && i !in enqueued
    {
      assert all[i] == Placeholders(posts)[i - |entries|];
    }
    forall i | 0 <= i < |entries| ensures all[i] == entries[i] {
    }
  }

  class Feed {
    const tag: string
    const showStatus: bool
    const batchSize: nat
    const queue: JobQueue.Queue
    var phase: Phase
    /** `Some(t)` once the container's whole content was replaced by the text `t`. */
    var text: Option<string>
    /** The text of the status line; the line is mounted only when `showStatus`. */
    var status: string
    var allPosts: seq<Post>
    var nextIndex: nat
    /** The rendered entries, in list order. */
    var entries: seq<Entry>
    /** Whether the sentinel observer watches the sentinel. */
    var sentinelObserved: bool
    /** Whether the index request was made. */
    var indexRequested: bool

    ghost predicate Valid()
      reads this, queue
    {
      queue.Valid() && batchSize >= 1
      && nextIndex <= |allPosts| && |entries| == nextIndex
      && Mirrors(entries, allPosts)
      && (sentinelObserved <==> phase == Browsing)
      && (phase != Browsing ==> entries == [] && queue.enqueued == [] && queue.running == [])
      && (phase == NoTag ==> !indexRequested && text == Some(NoTagText))
      && (phase == Mounted || phase == Browsing ==> text == None)
      && (!showStatus ==> status == "")
      && JobsOk(entries, queue.enqueued, queue.running + queue.pending)
    }

    /** What a terminal message does: it goes to the status line, or to the container when the status is hidden. */
    ghost predicate Shows(message: string)
      reads this
    {
      if showStatus then status == message && text == None else text == Some(message)
    }

    /** The start-up handler up to `init`: a missing tag stops it with a message and no request. */
    constructor (attrs: Attributes)
      ensures Valid() && fresh(queue)
      ensures TagName(attrs.tag).None? ==> phase == NoTag && text == Some(NoTagText) && !indexRequested
      ensures TagName(attrs.tag).Some? ==>
        phase == Mounted && tag == TagName(attrs.tag).value && text == None && !indexRequested
        && showStatus == ShowStatus(attrs.showStatus)
        && status == (if showStatus then LoadingText else "")
        && batchSize == BatchSize(attrs.batchSize, attrs.perPage)
        && queue.max == Concurrency(attrs.concurrent)
      ensures allPosts == [] && nextIndex == 0 && entries == [] && !sentinelObserved
      ensures queue.pending == [] && queue.running == [] && queue.enqueued == []
    {
      var t := TagName(attrs.tag);
      var show := t.Some? && ShowStatus(attrs.showStatus);
      tag := t.GetOr("");
      showStatus := show;
      batchSize := BatchSize(attrs.batchSize, attrs.perPage);
      queue := new JobQueue.Queue(Concurrency(attrs.concurrent));
      allPosts, nextIndex, entries := [], 0, [];
      sentinelObserved, indexRequested := false, false;
      if t.None? {
        phase := NoTag;
        text := Some(NoTagText);
        status := "";
      } else {
        phase := Mounted;
        text := None;
        status := if show then LoadingText else "";
      }
    }

    /** `setStatusText` / `setStatusHtml`. */
    method SetStatus(s: string)
      modifies this`status
      ensures status == if showStatus then s else old(status)
    {
      if showStatus {
        status := s;
      }
    }

    /** Terminal message: the status line, or the container's text when the status is hidden. */
    method Show(message: string)
      modifies this`status, this`text
      ensures showStatus ==> status == message && text == old(text)
      ensures !showStatus ==> status == old(status) && text == Some(message)
    {
      if showStatus {
        status := message;
      } else {
        text := Some(message);
      }
    }

    /** `init` and its `catch`: the index request, then the empty, error or first-batch outcome. */
    method Init(response: IndexResponse)
      requires Valid() && phase == Mounted
      modifies this, queue
      ensures Valid() && indexRequested
      ensures queue.pending == [] && queue.running == [] && queue.enqueued == []
      ensures response.IndexFailed? || ExtractPosts(response.links).None? ==>
        phase == IndexError && Shows(ErrorText) && entries == [] && !sentinelObserved
      ensures response.IndexLinks? && ExtractPosts(response.links) == Some([]) ==>
        phase == NoPosts && Shows(NoPostsText(tag)) && entries == [] && !sentinelObserved
      ensures response.IndexLinks? && ExtractPosts(response.links).Some? && ExtractPosts(response.links) != Some([]) ==>
        phase == Browsing && sentinelObserved && text == None
        && allPosts == ExtractPosts(response.links).value
        && nextIndex == NextCursor(0, |allPosts|, batchSize)
        && entries == Placeholders(allPosts[..nextIndex])
        && status == (if showStatus then BatchStatus(nextIndex, |allPosts|, tag) else "")
    {
      indexRequested := true;
      SetStatus(LoadingText);
      var posts := if response.IndexFailed? then None else ExtractPosts(response.links);
      if posts.None? {
        Show(ErrorText);
        phase := IndexError;
      } else if posts.value == [] {
        Show(NoPostsText(tag));
        sentinelObserved := false;
        phase := NoPosts;
      } else {
        StartBrowsing(posts.value);
      }
    }

    /** The last branch of `init`: keep the post list, observe the sentinel and render the first batch. */
    method StartBrowsing(posts: seq<Post>)
      requires Valid() && phase == Mounted && posts != []
      modifies this
      ensures Valid() && phase == Browsing && sentinelObserved
      ensures text == old(text) && indexRequested == old(indexRequested)
      ensures allPosts == posts && nextIndex == NextCursor(0, |posts|, batchSize)
      ensures entries == Placeholders(posts[..nextIndex])
      ensures status == if showStatus then BatchStatus(nextIndex, |posts|, tag) else old(status)
    {
      assert entries == [] && nextIndex == 0;
      assert JobsOk(entries, queue.enqueued, queue.running + queue.pending);
      SetStatus(FoundText(|posts|, tag));
      allPosts, sentinelObserved, phase := posts, true, Browsing;
      assert Mirrors(entries, allPosts);
      RenderBatch();
      assert allPosts[0..nextIndex] == allPosts[..nextIndex];
    }

    /** `renderBatch`: the next slice of `allPosts` becomes placeholders, and the status follows the cursor. */
    method RenderBatch()
      requires Valid() && phase == Browsing
      modifies this
      ensures Valid()
      ensures allPosts == old(allPosts) && phase == old(phase) && text == old(text)
      ensures sentinelObserved == old(sentinelObserved) && indexRequested == old(indexRequested)
      ensures nextIndex == NextCursor(old(nextIndex), |allPosts|, batchSize)
      ensures entries == old(entries) + Placeholders(allPosts[old(nextIndex)..nextIndex])
      ensures status == if showStatus then BatchStatus(nextIndex, |allPosts|, tag) else old(status)
    {
      var remaining := |allPosts| - nextIndex;
      if remaining <= 0 {
        SetStatus(AllLoadedText(tag));
        assert Placeholders(allPosts[nextIndex..nextIndex]) == [];
        assert entries + [] == entries;
        return;
      }
      var end := NextCursor(nextIndex, |allPosts|, batchSize);
      var batch := allPosts[nextIndex..end];
      var grown := entries + Placeholders(batch);
      assert Mirrors(grown, allPosts) by {
        MirrorsExtend(entries, allPosts, end);
      }
      assert JobsOk(grown, queue.enqueued, queue.running + queue.pending) by {
        JobsOkExtend(entries, queue.enqueued, queue.running + queue.pending, batch);
      }
      nextIndex := end;
      entries := grown;
      SetStatus(BatchStatus(end, |allPosts|, tag));
    }

    /** The sentinel observer's callback: render the next batch while the sentinel is watched. */
    method SentinelNear()
      requires Valid()
      modifies this
      ensures Valid()
      ensures allPosts == old(allPosts) && phase == old(phase) && text == old(text) && sentinelObserved == old(sentinelObserved)
      ensures old(sentinelObserved) ==>
        nextIndex == NextCursor(old(nextIndex), |allPosts|, batchSize)
        && entries == old(entries) + Placeholders(allPosts[old(nextIndex)..nextIndex])
        && status == (if showStatus then BatchStatus(nextIndex, |allPosts|, tag) else old(status))
      ensures !old(sentinelObserved) ==> nextIndex == old(nextIndex) && entries == old(entries) && status == old(status)
    {
      if sentinelObserved {
        RenderBatch();
      }
    }

    /**
     * The entry observer's callback for the `i`-th entry: stop watching it and,
     * unless it lacks a URL or content node or is already `data-loaded`, mark it
     * and enqueue its load job.
     */
    method EntryNear(i: nat)
      requires Valid() && i < |entries|
      modifies this, queue
      ensures Valid()
      ensures var e := old(entries[i]);
        var admit := e.url != "" && e.hasContentNode && !e.loaded;
        entries == old(entries)[i := e.(observed := false, loaded := e.loaded || admit)]
        && queue.enqueued == old(queue.enqueued) + (if admit then [i] else [])
        && (admit ==> queue.running + queue.pending == old(queue.running + queue.pending) + [i])
        && (!admit ==> queue.running == old(queue.running) && queue.pending == old(queue.pending))
      ensures allPosts == old(allPosts) && nextIndex == old(nextIndex) && phase == old(phase)
      ensures status == old(status) && text == old(text) && sentinelObserved == old(sentinelObserved)
    {
      var e := entries[i];
      entries := entries[i := e.(observed := false)];
      if e.url == "" || !e.hasContentNode {
        return;
      }
      if e.loaded {
        return;
      }
      entries := entries[i := e.(observed := false, loaded := true)];
      assert i !in queue.enqueued;
      assert i !in queue.running + queue.pending;
      queue.Enqueue(i);
    }

    /**
     * The load job of the `k`-th running job finishes with `response`: its entry
     * shows the fragment or the error, then the queue frees the slot and runs.
     */
    method JobSettled(k: nat, response: PostResponse)
      requires Valid() && k < |queue.running|
      modifies this, queue
      ensures Valid()
      ensures var j := old(queue.running[k]);
        j < |old(entries)| && old(entries[j].content) == Placeholder
        && entries == old(entries)[j := Settled(old(entries[j]), response)]
      ensures queue.running + queue.pending == old(queue.running[..k] + queue.running[k + 1..] + queue.pending)
      ensures queue.enqueued == old(queue.enqueued)
      ensures old(queue.pending) != [] ==> queue.inFlight == old(queue.inFlight) && queue.started == old(queue.started) + [old(queue.pending[0])]
      ensures allPosts == old(allPosts) && nextIndex == old(nextIndex) && phase == old(phase)
      ensures status == old(status) && text == old(text) && sentinelObserved == old(sentinelObserved)
    {
      var j := queue.running[k];
      assert j in queue.running + queue.pending;
      NoDupRemove(queue.running + queue.pending, k);
      assert (queue.running + queue.pending)[..k] + (queue.running + queue.pending)[k + 1..]
        == queue.running[..k] + queue.running[k + 1..] + queue.pending;
      entries := entries[j := Settled(entries[j], response)];
      var done := queue.Settle(k, false);
    }
  }

  /** A tag with 23 posts and batches of 10: three renders, then "all loaded". */
  method TwentyThreePosts(links: seq<IndexLink>)
    requires |links| == 23 && forall i :: 0 <= i < 23 ==> links[i] == IndexLink(true, "x", None, Some("u"))
  {
    TrimNoSpaceAtEnds("running");
    var f := new Feed(Attributes(Some("running"), None, None, None, None));
    assert ExtractPosts(links).Some? && |ExtractPosts(links).value| == 23 by {
      ExtractPostsInOrder(links);
      UsableAll(links);
      assert AllResolved(links);
    }
    f.Init(IndexLinks(links));
    assert f.nextIndex == 10 && |f.entries| == 10;
    assert f.status == ProgressText(10, 23);
    f.SentinelNear();
    assert f.nextIndex == 20;
    f.SentinelNear();
    assert f.nextIndex == 23;
    assert f.status == AllLoadedText("running");
    assert f.sentinelObserved;
  }

  lemma {:induction false} UsableAll(links: seq<IndexLink>)
    requires forall i :: 0 <= i < |links| ==> Usable(links[i])
    ensures UsableLinks(links) == links
  {
    if links != [] {
      UsableAll(links[1..]);
    }
  }
}
