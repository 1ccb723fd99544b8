/** What `detectPromotedPosts` finds: five independent rules, each a query over the
    document, whose hits are concatenated in rule order and then de-duplicated by element
    identity, keeping the first occurrence. */
module Detection {
  import opened Strings
  import opened Dom

  /** Rule 1: `shreddit-post[is-promoted="true"]`. */
  const FlaggedPost := Both(TypeIs("SHREDDIT-POST"), AttrIs("is-promoted", "true"))
  /** Rule 2: `[data-testid="post-container"]`, kept when its text holds the marker. */
  const PostContainer := AttrIs("data-testid", "post-container")
  /** Rule 3: `[data-promoted="true"]`. */
  const DataPromoted := AttrIs("data-promoted", "true")
  /** Rule 4: `.promoted, .promotedlink`. */
  const PromotedClass := Either(ClassIs("promoted"), ClassIs("promotedlink"))
  /** Rule 5: every `shreddit-post`, kept when its text holds the marker. */
  const AnyPost := TypeIs("SHREDDIT-POST")

  /** The positions are element entries of `page`. */
  predicate ElementPositions(page: Fragment, ps: seq<nat>) {
    forall k :: 0 <= k < |ps| ==> ps[k] < |page| && page[ps[k]].node.Element?
  }

  lemma {:induction false} QueryAllElements(page: Fragment, sel: Selector)
    ensures ElementPositions(page, QueryAll(page, sel))
  {}

  /** The handles of the elements at the given positions (`forEach(post => promoted.push(post))`). */
  function IdsAt(page: Fragment, ps: seq<nat>): (r: seq<ElemId>)
    requires ElementPositions(page, ps)
    ensures |r| == |ps|
    ensures forall k :: 0 <= k < |ps| ==> r[k] == page[ps[k]].node.id
  {
    if ps == [] then [] else IdsAt(page, ps[..|ps| - 1]) + [page[ps[|ps| - 1]].node.id]
  }

  /** One more position adds its handle at the end. */
  lemma {:induction false} IdsAtStep(page: Fragment, ps: seq<nat>, j: nat)
    requires ElementPositions(page, ps) && j < |ps|
    ensures ElementPositions(page, ps[..j]) && ElementPositions(page, ps[..j + 1])
    ensures IdsAt(page, ps[..j + 1]) == IdsAt(page, ps[..j]) + [page[ps[j]].node.id]
  {
    assert ps[..j + 1][..j] == ps[..j];
  }

  predicate HasMarkerText(page: Fragment, p: nat)
    requires p < |page|
  {
    Contains(TextContent(page, p), Marker)
  }

  /** The handles of the first `n` listed elements whose `textContent` includes the marker,
      in list order (the filtering `forEach` after `n` iterations). */
  function MarkedIds(page: Fragment, ps: seq<nat>, n: nat): seq<ElemId>
    requires ElementPositions(page, ps) && n <= |ps|
  {
    if n == 0 then [] else MarkedIds(page, ps, n - 1) + MarkedHit(page, ps[n - 1])
  }

  /** The handle of the element at `p` if its text holds the marker, else nothing. */
  function MarkedHit(page: Fragment, p: nat): seq<ElemId>
    requires p < |page| && page[p].node.Element?
  {
    if HasMarkerText(page, p) then [page[p].node.id] else []
  }

  /** The filter keeps exactly the handles of the listed elements that hold the marker. */
  lemma {:induction false} MarkedIdsMembers(page: Fragment, ps: seq<nat>, n: nat, x: ElemId)
    requires ElementPositions(page, ps) && n <= |ps|
    ensures x in MarkedIds(page, ps, n) <==>
      exists k :: 0 <= k < n && page[ps[k]].node.id == x && HasMarkerText(page, ps[k])
  {
    if x in MarkedIds(page, ps, n) {
      var k := MarkedIdsSource(page, ps, n, x);
    }
    if exists k :: 0 <= k < n && page[ps[k]].node.id == x && HasMarkerText(page, ps[k]) {
      var k :| 0 <= k < n && page[ps[k]].node.id == x && HasMarkerText(page, ps[k]);
      MarkedIdsKeeps(page, ps, n, k);
    }
  }

  /** Each kept handle comes from a listed element that holds the marker. */
  lemma {:induction false} MarkedIdsSource(page: Fragment, ps: seq<nat>, n: nat, x: ElemId) returns (k: nat)
    requires ElementPositions(page, ps) && n <= |ps|
    requires x in MarkedIds(page, ps, n)
    ensures k < n && page[ps[k]].node.id == x && HasMarkerText(page, ps[k])
  {
    var p := ps[n - 1];
    var marked := HasMarkerText(page, p);
    assert MarkedIds(page, ps, n) == MarkedIds(page, ps, n - 1) + (if marked then [page[p].node.id] else []);
    if x in MarkedIds(page, ps, n - 1) {
      k := MarkedIdsSource(page, ps, n - 1, x);
    } else {
      k := n - 1;
    }
  }

  /** Each listed element among the first `n` that holds the marker has its handle kept. */
  lemma {:induction false} MarkedIdsKeeps(page: Fragment, ps: seq<nat>, n: nat, k: nat)
    requires ElementPositions(page, ps) && k < n <= |ps|
    requires HasMarkerText(page, ps[k])
    ensures page[ps[k]].node.id in MarkedIds(page, ps, n)
  {
    var p := ps[n - 1];
    var marked := HasMarkerText(page, p);
    assert MarkedIds(page, ps, n) == MarkedIds(page, ps, n - 1) + (if marked then [page[p].node.id] else []);
    if k < n - 1 {
      MarkedIdsKeeps(page, ps, n - 1, k);
    }
  }

  /** The hits of one rule: every element matching `sel`, in document order, keeping only
      those whose text holds the marker when `marked`. */
  function RuleHits(page: Fragment, sel: Selector, marked: bool): (r: seq<ElemId>) {
    QueryAllElements(page, sel);
    if marked then MarkedIds(page, QueryAll(page, sel), |QueryAll(page, sel)|) else IdsAt(page, QueryAll(page, sel))
  }

  /** The `promoted` array before de-duplication: the five rules' hits, in rule order. */
  function Candidates(page: Fragment): (r: seq<ElemId>) {
    RuleHits(page, FlaggedPost, false) + RuleHits(page, PostContainer, true)
    + RuleHits(page, DataPromoted, false) + RuleHits(page, PromotedClass, false)
    + RuleHits(page, AnyPost, true)
  }

  /** `[...new Set(xs)]`: each value once, at the place of its first occurrence. */
  function Dedup(xs: seq<ElemId>): (r: seq<ElemId>)
    ensures |r| <= |xs|
  {
    if xs == [] then []
    else
      var d := Dedup(xs[..|xs| - 1]);
      if xs[|xs| - 1] in d then d else d + [xs[|xs| - 1]]
  }

  /** The elements `detectPromotedPosts` returns. */
  function Detected(page: Fragment): (r: seq<ElemId>)
    ensures NoDuplicates(r) && |r| <= |Candidates(page)|
  {
    DedupCorrect(Candidates(page));
    Dedup(Candidates(page))
  }

  /** The detection rules, stated on one entry of the document. */
  predicate IsPromoted(page: Fragment, k: nat)
    requires k < |page|
  {
    var n := page[k].node;
    n.Element? &&
    (Matches(FlaggedPost, n)
     || (Matches(PostContainer, n) && HasMarkerText(page, k))
     || Matches(DataPromoted, n)
     || Matches(PromotedClass, n)
     || (Matches(AnyPost, n) && HasMarkerText(page, k)))
  }

  predicate NoDuplicates<T(==)>(s: seq<T>) {
    forall i, j :: 0 <= i < j < |s| ==> s[i] != s[j]
  }

  function FirstIndex(xs: seq<ElemId>, x: ElemId): (i: nat)
    requires x in xs
    ensures i < |xs| && xs[i] == x && forall j :: 0 <= j < i ==> xs[j] != x
  {
    if xs[0] == x then 0 else 1 + FirstIndex(xs[1..], x)
  }

  lemma {:induction false} FirstIndexOfExtension(xs: seq<ElemId>, y: ElemId, x: ElemId)
    requires x in xs
    ensures FirstIndex(xs + [y], x) == FirstIndex(xs, x)
  {
    var i := FirstIndex(xs, x);
    var j := FirstIndex(xs + [y], x);
    assert (xs + [y])[i] == x;
    assert xs[j] == x by { if j >= |xs| { assert false; } }
  }

  /** De-duplication keeps exactly the values of its input, each once, ordered by where
      they first occur. */
  lemma {:induction false} DedupCorrect(xs: seq<ElemId>)
    ensures NoDuplicates(Dedup(xs))
    ensures forall x :: x in Dedup(xs) <==> x in xs
    ensures forall i, j :: 0 <= i < j < |Dedup(xs)| ==>
      Dedup(xs)[i] in xs && Dedup(xs)[j] in xs &&
      FirstIndex(xs, Dedup(xs)[i]) < FirstIndex(xs, Dedup(xs)[j])
    decreases |xs|
  {
    if xs != [] {
      var init, y := xs[..|xs| - 1], xs[|xs| - 1];
      assert xs == init + [y];
      DedupCorrect(init);
      var d := Dedup(init);
      forall x | x in d ensures x in init && FirstIndex(xs, x) == FirstIndex(init, x) {
        assert x in init;
        FirstIndexOfExtension(init, y, x);
      }
      if y !in d {
        assert FirstIndex(xs, y) == |init|;
      }
    }
  }

  /** Some element of `page` with handle `x` satisfies `sel` (and, when `marked`, holds the
      marker in its text). */
  predicate HasMatch(page: Fragment, x: ElemId, sel: Selector, marked: bool) {
    exists p :: 0 <= p < |page| && page[p].node.Element? && page[p].node.id == x
                && Matches(sel, page[p].node) && (marked ==> HasMarkerText(page, p))
  }

  lemma {:induction false} PlainRuleMembers(page: Fragment, sel: Selector, x: ElemId)
    ensures x in RuleHits(page, sel, false) <==> HasMatch(page, x, sel, false)
  {
    QueryAllElements(page, sel);
    var q := QueryAll(page, sel);
    var r := IdsAt(page, q);
    if x in r {
      var k :| 0 <= k < |r| && r[k] == x;
      assert page[q[k]].node.id == x;
    }
    if HasMatch(page, x, sel, false) {
      var p :| 0 <= p < |page| && page[p].node.Element? && page[p].node.id == x && Matches(sel, page[p].node);
      assert p in q;
      var k :| 0 <= k < |q| && q[k] == p;
      assert r[k] == x;
    }
  }

  lemma {:induction false} MarkedRuleMembers(page: Fragment, sel: Selector, x: ElemId)
    ensures x in RuleHits(page, sel, true) <==> HasMatch(page, x, sel, true)
  {
    QueryAllElements(page, sel);
    var q := QueryAll(page, sel);
    MarkedIdsMembers(page, q, |q|, x);
    if HasMatch(page, x, sel, true) {
      var p :| 0 <= p < |page| && page[p].node.Element? && page[p].node.id == x
               && Matches(sel, page[p].node) && HasMarkerText(page, p);
      assert p in q;
      var k :| 0 <= k < |q| && q[k] == p;
      assert page[q[k]].node.id == x && HasMarkerText(page, q[k]);
    }
  }

  lemma {:induction false} CandidateMembers(page: Fragment, x: ElemId)
    ensures x in Candidates(page) <==>
      (HasMatch(page, x, FlaggedPost, false) || HasMatch(page, x, PostContainer, true)
       || HasMatch(page, x, DataPromoted, false) || HasMatch(page, x, PromotedClass, false)
       || HasMatch(page, x, AnyPost, true))
  {
    PlainRuleMembers(page, FlaggedPost, x);
    MarkedRuleMembers(page, PostContainer, x);
    PlainRuleMembers(page, DataPromoted, x);
    PlainRuleMembers(page, PromotedClass, x);
    MarkedRuleMembers(page, AnyPost, x);
  }

  lemma {:induction false} PromotedIffSomeRule(page: Fragment, x: ElemId)
    ensures (exists k :: 0 <= k < |page| && page[k].node.Element? && page[k].node.id == x && IsPromoted(page, k))
      <==> (HasMatch(page, x, FlaggedPost, false) || HasMatch(page, x, PostContainer, true)
            || HasMatch(page, x, DataPromoted, false) || HasMatch(page, x, PromotedClass, false)
            || HasMatch(page, x, AnyPost, true))
  {
    if exists k :: 0 <= k < |page| && page[k].node.Element? && page[k].node.id == x && IsPromoted(page, k) {
      var k :| 0 <= k < |page| && page[k].node.Element? && page[k].node.id == x && IsPromoted(page, k);
      var n := page[k].node;
      if Matches(FlaggedPost, n) { assert HasMatch(page, x, FlaggedPost, false); }
      else if Matches(PostContainer, n) && HasMarkerText(page, k) { assert HasMatch(page, x, PostContainer, true); }
      else if Matches(DataPromoted, n) { assert HasMatch(page, x, DataPromoted, false); }
      else if Matches(PromotedClass, n) { assert HasMatch(page, x, PromotedClass, false); }
      else { assert HasMatch(page, x, AnyPost, true); }
    }
  }

  /** An element is detected exactly when it satisfies one of the five rules. */
  lemma {:induction false} DetectedIffPromoted(page: Fragment, x: ElemId)
    ensures x in Detected(page) <==>
      exists k :: 0 <= k < |page| && page[k].node.Element? && page[k].node.id == x && IsPromoted(page, k)
  {
    DedupCorrect(Candidates(page));
    CandidateMembers(page, x);
    PromotedIffSomeRule(page, x);
  }

  /** Detection returns each element once, in the order of first occurrence among the
      concatenated rule results. */
  lemma {:induction false} DetectedOnceInRuleOrder(page: Fragment)
    ensures NoDuplicates(Detected(page))
    ensures forall x :: x in Detected(page) <==> x in Candidates(page)
    ensures forall i, j :: 0 <= i < j < |Detected(page)| ==>
      FirstIndex(Candidates(page), Detected(page)[i]) < FirstIndex(Candidates(page), Detected(page)[j])
  {
    DedupCorrect(Candidates(page));
  }
}
