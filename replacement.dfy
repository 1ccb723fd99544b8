/** What `highlightPromotedPosts` does to the page and to the record set, as functions of
    the page, the identity allocator and the records: one step per handle, and a pass as
    the steps in list order. The session's method is proved to follow this pass. */
module Replacement {
  import opened Strings
  import opened Optional
  import opened Dom
  import opened Page
  import opened Extraction
  import opened Detection

  const RemovedClass := "promoted-removed"
  const PlaceholderClass := "promoted-removed-placeholder"
  const Banner := "\U{1F3AF} Promoted content removed"
  const UntitledLabel := "Sponsored post"

  /** The placeholder for a record titled `title`. The three `div`s are created in the order
      placeholder, title line, banner line (`innerHTML` runs after the title line exists),
      so they take the identities `first`, `first + 1`, `first + 2`. */
  function Placeholder(first: ElemId, title: string): (r: Fragment)
    ensures WellFormed(r) && r[0].depth == 0
    ensures r[0].node.Element? && r[0].node.id == first && RemovedClass in r[0].node.classes
  {
    [Entry(0, Element(first, "DIV", map[], {PlaceholderClass, RemovedClass}, "")),
     Entry(1, Element(first + 2, "DIV", map[], {}, "")),
     Entry(2, Text(Banner)),
     Entry(1, Element(first + 1, "DIV", map[], {}, "")),
     Entry(2, Text(OrDefault(title, UntitledLabel)))]
  }

  /** The placeholder is one tree of three new elements, rooted at a marked `div`, whose
      second line reads the title (or the fallback label when the title is empty). */
  lemma {:induction false} PlaceholderShape(first: ElemId, title: string)
    ensures WellFormed(Placeholder(first, title))
    ensures FragmentIds(Placeholder(first, title)) == [first, first + 2, first + 1]
    ensures Placeholder(first, title)[0].node.id == first
    ensures RemovedClass in Placeholder(first, title)[0].node.classes
    ensures forall k :: 0 <= k < |Placeholder(first, title)| && Placeholder(first, title)[k].node.Element? ==>
      Placeholder(first, title)[k].node.tag == "DIV"
    ensures TextContent(Placeholder(first, title), 3) == OrDefault(title, UntitledLabel)
  {
    PlaceholderIds(first, title);
    PlaceholderTitleLine(first, title);
  }

  lemma {:induction false} PlaceholderIds(first: ElemId, title: string)
    ensures FragmentIds(Placeholder(first, title)) == [first, first + 2, first + 1]
  {
    var t := Placeholder(first, title);
    assert FragmentIds(t[4..]) == [] by { assert t[4..][1..] == []; }
    assert FragmentIds(t[3..]) == [first + 1] by { assert t[3..][1..] == t[4..]; }
    assert FragmentIds(t[2..]) == [first + 1] by { assert t[2..][1..] == t[3..]; }
    assert FragmentIds(t[1..]) == [first + 2, first + 1] by { assert t[1..][1..] == t[2..]; }
  }

  lemma {:induction false} PlaceholderTitleLine(first: ElemId, title: string)
    ensures TextContent(Placeholder(first, title), 3) == OrDefault(title, UntitledLabel)
  {
    assert SubtreeEnd(Placeholder(first, title), 3) == 5;
  }

  /** The title line never shows the fallback: every extracted record has a title. */
  lemma {:induction false} PlaceholderShowsRecordTitle(f: Fragment, i: nat, now: int, location: string, first: ElemId)
    requires i < |f| && f[i].node.Element?
    ensures var info := ExtractPostInfo(f, i, now, location);
      TextContent(Placeholder(first, info.title), 3) == info.title
  {
    PlaceholderShape(first, ExtractPostInfo(f, i, now, location).title);
  }

  /** None of the five detection rules picks the placeholder itself, wherever it sits. */
  lemma {:induction false} PlaceholderNeverDetected(page: Fragment, k: nat, first: ElemId, title: string)
    requires k < |page| && page[k].node == Placeholder(first, title)[0].node
    ensures !IsPromoted(page, k)
  {
    var n := page[k].node;
    assert n == Element(first, "DIV", map[], {PlaceholderClass, RemovedClass}, "");
    assert |"SHREDDIT-POST"| != |n.tag|;
    assert !Matches(TypeIs("SHREDDIT-POST"), n);
    assert |"promoted"| != |PlaceholderClass| && |"promoted"| != |RemovedClass|;
    assert !Matches(ClassIs("promoted"), n);
    assert |"promotedlink"| != |PlaceholderClass| && |"promotedlink"| != |RemovedClass|;
    assert !Matches(ClassIs("promotedlink"), n);
    assert !Matches(PostContainer, n) && !Matches(DataPromoted, n);
  }

  /** The three new identities are distinct, allocated, and not yet in a page whose
      identities are all below `nextId`. */
  lemma {:induction false} PlaceholderFresh(forest: seq<Fragment>, nextId: ElemId, title: string)
    requires ValidForest(forest, nextId)
    ensures FreshBlock(forest, nextId + 3, Placeholder(nextId, title))
    ensures ValidForest(forest, nextId + 3)
  {
    var t := Placeholder(nextId, title);
    PlaceholderShape(nextId, title);
    var ids := FragmentIds(t);
    assert multiset(ids) == multiset{nextId, nextId + 2, nextId + 1};
    forall x | x in ids ensures x < nextId + 3 && x !in ForestIds(forest) {
      assert x >= nextId;
    }
  }

  /** The records so far (a set kept in insertion order) and the page they were read from. */
  datatype PassState = PassState(forest: seq<Fragment>, nextId: ElemId, records: seq<PostInfo>)

  /** `promotedPosts.add(JSON.stringify(r))`: the encoding of a record is one-to-one, so the
      set of strings behaves as a set of records. */
  function AddRecord(records: seq<PostInfo>, r: PostInfo): seq<PostInfo> {
    if r in records then records else records + [r]
  }

  /** Adding keeps the records, adds `r`, adds nothing else and adds it at most once. */
  lemma {:induction false} AddRecordIsSetInsert(records: seq<PostInfo>, r: PostInfo)
    ensures records <= AddRecord(records, r)
    ensures forall x :: x in AddRecord(records, r) <==> x in records || x == r
    ensures NoDuplicates(records) ==> NoDuplicates(AddRecord(records, r))
    ensures |AddRecord(records, r)| == if r in records then |records| else |records| + 1
  {}

  /** An identical record collapses into the one already there. */
  lemma {:induction false} AddRecordIdempotent(records: seq<PostInfo>, r: PostInfo)
    ensures AddRecord(AddRecord(records, r), r) == AddRecord(records, r)
  {
    assert r in AddRecord(records, r);
  }

  /** One iteration of the `forEach` for the handle `id`, at clock reading `now`. */
  function Step(st: PassState, id: ElemId, now: int, location: string): (r: PassState)
    ensures st.records <= r.records && |r.records| <= |st.records| + 1
  {
    match Locate(st.forest, id)
    case None => st
    case Some((a, k)) =>
      if RemovedClass in st.forest[a][k].node.classes then st
      else StepAt(st, a, k, ExtractPostInfo(st.forest[a], k, now, location))
  }

  /** That iteration for the unmarked element at position `k` of fragment `a`, whose record
      is `info`: record it, allocate the placeholder's three identities, and put the
      placeholder in the element's place when the element has a parent. */
  function StepAt(st: PassState, a: nat, k: nat, info: PostInfo): (r: PassState)
    requires a < |st.forest| && k < |st.forest[a]|
    ensures st.records <= r.records && info in r.records && |r.records| <= |st.records| + 1
    ensures r.nextId == st.nextId + 3
  {
    AddRecordIsSetInsert(st.records, info);
    var t := Placeholder(st.nextId, info.title);
    PassState(if HasParent(st.forest, a, k) then Replace(st.forest, a, k, t) else st.forest,
              st.nextId + 3, AddRecord(st.records, info))
  }

  /** The whole `forEach`: the steps for `posts` in order, the `j`-th at `clock(j)`. */
  function Pass(st: PassState, posts: seq<ElemId>, clock: nat -> int, location: string): (r: PassState)
    ensures st.records <= r.records && |r.records| <= |st.records| + |posts|
  {
    if posts == [] then st
    else Step(Pass(st, posts[..|posts| - 1], clock, location), posts[|posts| - 1], clock(|posts| - 1), location)
  }

  /** The step for an unmarked element is `StepAt` with the record extracted from it. */
  lemma {:induction false} StepOnUnmarked(st: PassState, id: ElemId, now: int, location: string, a: nat, k: nat)
    requires Locate(st.forest, id) == Some((a, k))
    requires RemovedClass !in st.forest[a][k].node.classes
    ensures Step(st, id, now, location) == StepAt(st, a, k, ExtractPostInfo(st.forest[a], k, now, location))
  {}

  // ----- One step ---------------------------------------------------------------------------

  /** An element already marked `promoted-removed` is left alone and adds no record. */
  lemma {:induction false} StepSkipsRemoved(st: PassState, id: ElemId, now: int, location: string, a: nat, k: nat)
    requires Locate(st.forest, id) == Some((a, k))
    requires RemovedClass in st.forest[a][k].node.classes
    ensures Step(st, id, now, location) == st
  {}

  /** Any other element's record is added, whether or not the element has a parent; an
      element without a parent stays where it is. */
  lemma {:induction false} StepRecords(st: PassState, id: ElemId, now: int, location: string, a: nat, k: nat)
    requires Locate(st.forest, id) == Some((a, k))
    requires RemovedClass !in st.forest[a][k].node.classes
    ensures var r := Step(st, id, now, location);
      ExtractPostInfo(st.forest[a], k, now, location) in r.records
      && r.nextId == st.nextId + 3
      && (!HasParent(st.forest, a, k) ==> r.forest == st.forest)
  {
    AddRecordIsSetInsert(st.records, ExtractPostInfo(st.forest[a], k, now, location));
  }

  /** An element with a parent is swapped, within its own fragment, for the placeholder that
      carries its record's title. */
  lemma {:induction false} StepReplacesInPlace(st: PassState, id: ElemId, now: int, location: string, a: nat, k: nat)
    requires Locate(st.forest, id) == Some((a, k))
    requires RemovedClass !in st.forest[a][k].node.classes && HasParent(st.forest, a, k)
    ensures Step(st, id, now, location).forest[a]
         == Splice(st.forest[a], k, Placeholder(st.nextId, ExtractPostInfo(st.forest[a], k, now, location).title))
  {
    StepOnUnmarked(st, id, now, location, a, k);
  }

  /** The placeholder spliced in for the element at `k` is a marked element at the same depth,
      with the same parent and the same index among its siblings; everything before it is
      kept, and everything after the old subtree follows the placeholder unchanged. */
  lemma {:induction false} PlaceholderInPlace(f: Fragment, k: nat, first: ElemId, title: string)
    requires WellFormed(f) && k < |f|
    ensures var g := Splice(f, k, Placeholder(first, title));
      var e := SubtreeEnd(f, k);
      WellFormed(g) && |g| == |f| - (e - k) + 5
      && g[k].depth == f[k].depth && g[k].node.Element? && g[k].node.id == first
      && RemovedClass in g[k].node.classes
      && g[..k] == f[..k]
      && (k > 0 ==> ParentIndex(g, k) == ParentIndex(f, k) && g[ParentIndex(g, k)] == f[ParentIndex(f, k)]
                    && ChildIndex(g, k) == ChildIndex(f, k))
      && (forall j :: e <= j < |f| ==> g[j - e + k + 5] == f[j])
  {
    SpliceInPlace(f, k, Placeholder(first, title));
  }

  /** Replacing an element with a parent leaves every other fragment alone and keeps the old
      subtree, now detached, as a fragment of its own, where its handles still find it. */
  lemma {:induction false} StepDetachesSubtree(st: PassState, id: ElemId, now: int, location: string, a: nat, k: nat)
    requires Locate(st.forest, id) == Some((a, k))
    requires RemovedClass !in st.forest[a][k].node.classes && HasParent(st.forest, a, k)
    ensures var r := Step(st, id, now, location).forest;
      |r| == |st.forest| + 1
      && (forall b :: 0 <= b < |st.forest| && b != a ==> r[b] == st.forest[b])
      && r[|st.forest|] == Subtree(st.forest[a], k)
  {
    StepOnUnmarked(st, id, now, location, a, k);
    StepAtDetaches(st, a, k, ExtractPostInfo(st.forest[a], k, now, location));
  }

  /** The same for the change made to an unmarked element, whatever its record. */
  lemma {:induction false} StepAtDetaches(st: PassState, a: nat, k: nat, info: PostInfo)
    requires a < |st.forest| && k < |st.forest[a]| && HasParent(st.forest, a, k)
    ensures var r := StepAt(st, a, k, info).forest;
      |r| == |st.forest| + 1
      && (forall b :: 0 <= b < |st.forest| && b != a ==> r[b] == st.forest[b])
      && r[|st.forest|] == Subtree(st.forest[a], k)
  {
  }

  /** A step keeps the page well-formed with distinct, allocated identities. */
  lemma {:induction false} StepKeepsValid(st: PassState, id: ElemId, now: int, location: string)
    requires ValidForest(st.forest, st.nextId)
    ensures ValidForest(Step(st, id, now, location).forest, Step(st, id, now, location).nextId)
  {
    match Locate(st.forest, id)
    case None =>
    case Some((a, k)) =>
      if RemovedClass !in st.forest[a][k].node.classes {
        StepAtKeepsValid(st, a, k, ExtractPostInfo(st.forest[a], k, now, location));
      }
  }

  /** The same for the change made to an unmarked element, whatever its record. */
  lemma {:induction false} StepAtKeepsValid(st: PassState, a: nat, k: nat, info: PostInfo)
    requires ValidForest(st.forest, st.nextId)
    requires a < |st.forest| && k < |st.forest[a]| && st.forest[a][k].node.Element?
    ensures ValidForest(StepAt(st, a, k, info).forest, StepAt(st, a, k, info).nextId)
  {
    PlaceholderFresh(st.forest, st.nextId, info.title);
    if HasParent(st.forest, a, k) {
      ReplaceKeepsValid(st.forest, st.nextId + 3, a, k, Placeholder(st.nextId, info.title));
    }
  }

  // ----- A pass -----------------------------------------------------------------------------

  /** Over a pass the records only grow, stay free of duplicates, and grow by at most one
      per handle; the page stays valid. */
  lemma {:induction false} PassGrowsRecords(st: PassState, posts: seq<ElemId>, clock: nat -> int, location: string)
    requires NoDuplicates(st.records) && ValidForest(st.forest, st.nextId)
    ensures var r := Pass(st, posts, clock, location);
      st.records <= r.records && NoDuplicates(r.records)
      && |r.records| <= |st.records| + |posts|
      && ValidForest(r.forest, r.nextId)
    decreases |posts|
  {
    if posts != [] {
      var n := |posts| - 1;
      var mid := Pass(st, posts[..n], clock, location);
      PassGrowsRecords(st, posts[..n], clock, location);
      StepKeepsValid(mid, posts[n], clock(n), location);
      match Locate(mid.forest, posts[n])
      case None =>
      case Some((a, k)) =>
        if RemovedClass !in mid.forest[a][k].node.classes {
          AddRecordIsSetInsert(mid.records, ExtractPostInfo(mid.forest[a], k, clock(n), location));
        }
    }
  }
}
