/** `extractPostInfo`: the record kept for a removed post. Three chains of selectors are
    tried in order, each under the post element; the first selector that finds an element
    supplies the field, even when that element's text or `href` is empty. */
module Extraction {
  import opened Strings
  import opened Optional
  import opened Dom
  import opened TitleCleanup

  /** The record stored for one removed post. */
  datatype PostInfo = PostInfo(title: string, url: string, subreddit: string, timestamp: int)

  const ClickBody := Both(TypeIs("A"), AttrIs("data-click-id", "body"))

  /** `[slot="title"]`, `h3`, `h2`, `[data-click-id="text"]`, `a[data-click-id="body"]`,
      `[id*="post-title"]`. */
  const TitleChain: seq<Selector> := [
    AttrIs("slot", "title"), TypeIs("H3"), TypeIs("H2"), AttrIs("data-click-id", "text"),
    ClickBody, AttrHas("id", "post-title")]

  /** `a[slot="full-post-link"]`, `a[data-click-id="body"]`, `a[href*="/comments/"]`,
      `a.SQnoC3ObvgnGjWt90zD9Z`. */
  const LinkChain: seq<Selector> := [
    Both(TypeIs("A"), AttrIs("slot", "full-post-link")), ClickBody,
    Both(TypeIs("A"), AttrHas("href", "/comments/")),
    Both(TypeIs("A"), ClassIs("SQnoC3ObvgnGjWt90zD9Z"))]

  /** `[data-click-id="subreddit"]`, `a[href*="/r/"]`, `[slot="subreddit"]`. */
  const SubredditChain: seq<Selector> := [
    AttrIs("data-click-id", "subreddit"), Both(TypeIs("A"), AttrHas("href", "/r/")),
    AttrIs("slot", "subreddit")]

  const RedditOrigin := "https://www.reddit.com"
  const DefaultTitle := "Promoted Post"
  const DefaultSubreddit := "Sponsored"

  /** `el.querySelector(s1) || el.querySelector(s2) || …` over the chain from selector `j`
      on (the script always starts at 0): the index in the chain of the first selector that
      finds an element, and the element it finds. */
  function ChainHit(f: Fragment, i: nat, chain: seq<Selector>, j: nat): (r: Option<(nat, nat)>)
    requires i < |f| && j <= |chain|
    ensures r.None? <==> forall l :: j <= l < |chain| ==> QuerySelector(f, i, chain[l]).None?
    ensures r.Some? ==> j <= r.value.0 < |chain| && QuerySelector(f, i, chain[r.value.0]) == Some(r.value.1)
    ensures r.Some? ==> forall l :: j <= l < r.value.0 ==> QuerySelector(f, i, chain[l]).None?
    ensures r.Some? ==> i < r.value.1 < |f|
    decreases |chain| - j
  {
    if j == |chain| then None
    else
      match QuerySelector(f, i, chain[j])
      case Some(p) => Some((j, p))
      case None => ChainHit(f, i, chain, j + 1)
  }

  /** The value of a present, non-empty attribute (`getAttribute(a)` is truthy). */
  function NonEmptyAttr(n: Node, a: string): (r: Option<string>)
    requires n.Element?
    ensures r.Some? <==> a in n.attrs && n.attrs[a] != ""
    ensures r.Some? ==> r.value == n.attrs[a]
  {
    if a in n.attrs && n.attrs[a] != "" then Some(n.attrs[a]) else None
  }

  /** The title before cleanup: the trimmed text of the first title hit, or empty. */
  function RawTitle(f: Fragment, i: nat): (r: string)
    requires i < |f|
    ensures r == [] || (!IsSpace(r[0]) && !IsSpace(r[|r| - 1]))
    ensures ChainHit(f, i, TitleChain, 0).None? ==> r == ""
  {
    match ChainHit(f, i, TitleChain, 0)
    case Some((_, p)) => Trim(TextContent(f, p))
    case None => ""
  }

  /** A `shreddit-post`'s non-empty attribute `a`, or empty for any other node. */
  function PostAttr(n: Node, a: string): (r: string)
    ensures r != "" <==> n.Element? && n.tag == "SHREDDIT-POST" && NonEmptyAttr(n, a).Some?
    ensures r != "" ==> n.Element? && r == n.attrs[a]
  {
    if n.Element? && n.tag == "SHREDDIT-POST" && NonEmptyAttr(n, a).Some? then n.attrs[a] else ""
  }

  /** The url before the default: the first link hit's `href`; without any hit, a
      `shreddit-post`'s non-empty `permalink` under the site's origin; else empty. */
  function RawUrl(f: Fragment, i: nat): (r: string)
    requires i < |f|
    ensures ChainHit(f, i, LinkChain, 0).None? && r != "" ==>
      f[i].node.Element? && f[i].node.tag == "SHREDDIT-POST" && StartsWith(r, RedditOrigin)
    ensures ChainHit(f, i, LinkChain, 0).None? ==>
      (r != "" <==> f[i].node.Element? && f[i].node.tag == "SHREDDIT-POST"
                    && NonEmptyAttr(f[i].node, "permalink").Some?)
  {
    match ChainHit(f, i, LinkChain, 0)
    case Some((_, p)) => f[p].node.href
    case None =>
      var permalink := PostAttr(f[i].node, "permalink");
      if permalink != "" then RedditOrigin + permalink else ""
  }

  /** The subreddit before the default: the trimmed text of the first subreddit hit;
      without any hit, a `shreddit-post`'s non-empty `subreddit-prefixed-name`; else empty. */
  function RawSubreddit(f: Fragment, i: nat): (r: string)
    requires i < |f|
    ensures ChainHit(f, i, SubredditChain, 0).Some? ==> r == [] || (!IsSpace(r[0]) && !IsSpace(r[|r| - 1]))
    ensures ChainHit(f, i, SubredditChain, 0).None? && r != "" ==>
      f[i].node.Element? && f[i].node.tag == "SHREDDIT-POST"
  {
    match ChainHit(f, i, SubredditChain, 0)
    case Some((_, p)) => Trim(TextContent(f, p))
    case None => PostAttr(f[i].node, "subreddit-prefixed-name")
  }

  /** `s || fallback` for a string. */
  function OrDefault(s: string, fallback: string): (r: string)
    ensures r == s || (s == "" && r == fallback)
    ensures r != "" <==> s != "" || fallback != ""
  {
    if s != "" then s else fallback
  }

  /** The record for the element at `i`, read at time `now` on a page at `location`. */
  function ExtractPostInfo(f: Fragment, i: nat, now: int, location: string): (r: PostInfo)
    requires i < |f| && f[i].node.Element?
    ensures r.title != "" && r.subreddit != "" && r.timestamp == now
    ensures location != "" ==> r.url != ""
  {
    PostInfo(OrDefault(CleanTitle(RawTitle(f, i)), DefaultTitle),
             OrDefault(RawUrl(f, i), location),
             OrDefault(RawSubreddit(f, i), DefaultSubreddit),
             now)
  }

  // ----- Properties -------------------------------------------------------------------------

  /** The first link selector that finds an element supplies the url, even when that
      element has no `href`: the page location is used then, never the permalink. */
  lemma {:induction false} LinkHitWins(f: Fragment, i: nat, now: int, location: string, p: nat)
    requires i < |f| && f[i].node.Element?
    requires ChainHit(f, i, LinkChain, 0).Some? && ChainHit(f, i, LinkChain, 0).value.1 == p
    ensures ExtractPostInfo(f, i, now, location).url == if f[p].node.href != "" then f[p].node.href else location
  {}

  /** Without any link hit, a `shreddit-post` with a non-empty `permalink` gets exactly the
      permalink under the site's origin; any other element gets the page location. */
  lemma {:induction false} PermalinkFallback(f: Fragment, i: nat, now: int, location: string)
    requires i < |f| && f[i].node.Element?
    requires forall j :: 0 <= j < |LinkChain| ==> QuerySelector(f, i, LinkChain[j]).None?
    ensures var n := f[i].node;
      ExtractPostInfo(f, i, now, location).url ==
        if n.tag == "SHREDDIT-POST" && "permalink" in n.attrs && n.attrs["permalink"] != ""
        then RedditOrigin + n.attrs["permalink"]
        else location
  {
    assert ChainHit(f, i, LinkChain, 0).None?;
  }

  /** Without any subreddit hit, a `shreddit-post` with a non-empty
      `subreddit-prefixed-name` gets that name; any other element gets the default. */
  lemma {:induction false} SubredditFallback(f: Fragment, i: nat, now: int, location: string)
    requires i < |f| && f[i].node.Element?
    requires forall j :: 0 <= j < |SubredditChain| ==> QuerySelector(f, i, SubredditChain[j]).None?
    ensures var n := f[i].node;
      ExtractPostInfo(f, i, now, location).subreddit ==
        if n.tag == "SHREDDIT-POST" && "subreddit-prefixed-name" in n.attrs
           && n.attrs["subreddit-prefixed-name"] != ""
        then n.attrs["subreddit-prefixed-name"]
        else DefaultSubreddit
  {
    assert ChainHit(f, i, SubredditChain, 0).None?;
  }

  /** The first subreddit selector that finds an element supplies the subreddit, even when
      its text is blank: the default is used then, never the attribute. */
  lemma {:induction false} SubredditHitWins(f: Fragment, i: nat, now: int, location: string, p: nat)
    requires i < |f| && f[i].node.Element?
    requires ChainHit(f, i, SubredditChain, 0).Some? && ChainHit(f, i, SubredditChain, 0).value.1 == p
    ensures ExtractPostInfo(f, i, now, location).subreddit ==
      if Trim(TextContent(f, p)) != "" then Trim(TextContent(f, p)) else DefaultSubreddit
  {}

  /** The first title selector that finds an element supplies the title: its trimmed text,
      cleaned of the marker, or the default when that leaves nothing. */
  lemma {:induction false} TitleHit(f: Fragment, i: nat, now: int, location: string, p: nat)
    requires i < |f| && f[i].node.Element?
    requires ChainHit(f, i, TitleChain, 0).Some? && ChainHit(f, i, TitleChain, 0).value.1 == p
    ensures ExtractPostInfo(f, i, now, location).title
         == OrDefault(CleanTitle(Trim(TextContent(f, p))), DefaultTitle)
  {}

  /** Without any title hit the title is the default. */
  lemma {:induction false} NoTitleHit(f: Fragment, i: nat, now: int, location: string)
    requires i < |f| && f[i].node.Element?
    requires forall j :: 0 <= j < |TitleChain| ==> QuerySelector(f, i, TitleChain[j]).None?
    ensures ExtractPostInfo(f, i, now, location).title == DefaultTitle
  {
    assert ChainHit(f, i, TitleChain, 0).None?;
    assert !Contains("", Marker);
  }

  /** A title hit whose trimmed text is non-empty and free of the marker is kept as it is. */
  lemma {:induction false} TitleHitKept(f: Fragment, i: nat, now: int, location: string, p: nat)
    requires i < |f| && f[i].node.Element?
    requires ChainHit(f, i, TitleChain, 0).Some? && ChainHit(f, i, TitleChain, 0).value.1 == p
    requires Trim(TextContent(f, p)) != "" && !Contains(Trim(TextContent(f, p)), Marker)
    ensures ExtractPostInfo(f, i, now, location).title == Trim(TextContent(f, p))
  {}

  /** An element without descendants that is not a `shreddit-post` yields the defaults. */
  lemma {:induction false} EmptyElementDefaults(f: Fragment, i: nat, now: int, location: string)
    requires i < |f| && f[i].node.Element? && f[i].node.tag != "SHREDDIT-POST"
    requires SubtreeEnd(f, i) == i + 1
    ensures ExtractPostInfo(f, i, now, location) == PostInfo(DefaultTitle, location, DefaultSubreddit, now)
  {
    assert ChainHit(f, i, TitleChain, 0).None?;
    assert ChainHit(f, i, LinkChain, 0).None?;
    assert ChainHit(f, i, SubredditChain, 0).None?;
  }
}
