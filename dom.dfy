/** The page the content script works on, reduced to what the script reads and writes.

    A tree is stored in document order (preorder) as a sequence of entries, each holding
    a node and its depth below the tree's root. The descendants of the entry at `i` are the
    entries after it up to the next entry that is not deeper (its subtree block), and its
    parent is the nearest earlier entry that is shallower. Element nodes carry an identity,
    their upper-case `tagName`, their attributes, their class tokens and their resolved
    `href`; text nodes carry their data, so that `textContent` is derived from the tree.

    The page is a forest: fragment 0 is the document, whose root element hangs below the
    Document node; every other fragment is a subtree that `replaceChild` detached and that
    script code may still hold a handle to. */
module Dom {
  import opened Strings
  import opened Optional

  type ElemId = nat

  datatype Node =
    | Element(id: ElemId, tag: string, attrs: map<string, string>, classes: set<string>, href: string)
    | Text(data: string)

  datatype Entry = Entry(depth: nat, node: Node)

  type Fragment = seq<Entry>

  /** `next` may come right after `prev` in document order: it is not a root, it is at most
      one level deeper, and it is deeper only below an element. */
  predicate CanFollow(prev: Entry, next: Entry) {
    1 <= next.depth <= prev.depth + 1 && (next.depth == prev.depth + 1 ==> prev.node.Element?)
  }

  /** A single tree with an element at its root. */
  predicate WellFormed(f: Fragment) {
    |f| > 0 && f[0].depth == 0 && f[0].node.Element?
    && forall k :: 0 < k < |f| ==> CanFollow(f[k - 1], f[k])
  }

  // ----- Structure --------------------------------------------------------------------

  function ScanEnd(f: Fragment, i: nat, j: nat): (e: nat)
    requires i < j <= |f|
    ensures j <= e <= |f|
    ensures forall k :: j <= k < e ==> f[k].depth > f[i].depth
    ensures e < |f| ==> f[e].depth <= f[i].depth
    decreases |f| - j
  {
    if j == |f| || f[j].depth <= f[i].depth then j else ScanEnd(f, i, j + 1)
  }

  /** One past the last descendant of the entry at `i`. */
  function SubtreeEnd(f: Fragment, i: nat): (e: nat)
    requires i < |f|
    ensures i < e <= |f|
    ensures forall k :: i < k < e ==> f[k].depth > f[i].depth
    ensures e < |f| ==> f[e].depth <= f[i].depth
  {
    ScanEnd(f, i, i + 1)
  }

  function ScanParent(f: Fragment, i: nat, j: nat): (p: nat)
    requires WellFormed(f) && j < i < |f|
    ensures p <= j && f[p].depth < f[i].depth
    ensures forall k :: p < k <= j ==> f[k].depth >= f[i].depth
    decreases j
  {
    assert CanFollow(f[i - 1], f[i]);
    if f[j].depth < f[i].depth || j == 0 then j else ScanParent(f, i, j - 1)
  }

  /** The position of the parent of a non-root entry: the nearest shallower entry before it. */
  function ParentIndex(f: Fragment, i: nat): (p: nat)
    requires WellFormed(f) && 0 < i < |f|
    ensures p < i && f[p].depth < f[i].depth
    ensures forall k :: p < k < i ==> f[k].depth >= f[i].depth
  {
    ScanParent(f, i, i - 1)
  }

  function CountAtDepth(f: Fragment, lo: nat, hi: nat, d: nat): (n: nat)
    requires lo <= hi <= |f|
    ensures n <= hi - lo
    decreases hi - lo
  {
    if lo == hi then 0 else (if f[lo].depth == d then 1 else 0) + CountAtDepth(f, lo + 1, hi, d)
  }

  /** The index of a non-root entry among its parent's child nodes. */
  function ChildIndex(f: Fragment, i: nat): (r: nat)
    requires WellFormed(f) && 0 < i < |f|
    ensures r < i
  {
    CountAtDepth(f, ParentIndex(f, i) + 1, i, f[i].depth)
  }

  lemma {:induction false} ScanParentOnPrefix(f: Fragment, g: Fragment, i: nat, j: nat)
    requires WellFormed(f) && WellFormed(g) && j < i < |f| && i < |g|
    requires f[..i] == g[..i] && f[i].depth == g[i].depth
    ensures ScanParent(f, i, j) == ScanParent(g, i, j)
    decreases j
  {
    assert f[j] == f[..i][j] && g[j] == g[..i][j];
    if !(f[j].depth < f[i].depth || j == 0) { ScanParentOnPrefix(f, g, i, j - 1); }
  }

  lemma {:induction false} CountOnPrefix(f: Fragment, g: Fragment, lo: nat, hi: nat, d: nat)
    requires lo <= hi <= |f| && hi <= |g| && f[..hi] == g[..hi]
    ensures CountAtDepth(f, lo, hi, d) == CountAtDepth(g, lo, hi, d)
    decreases hi - lo
  {
    if lo < hi {
      assert f[lo] == f[..hi][lo] && g[lo] == g[..hi][lo];
      CountOnPrefix(f, g, lo + 1, hi, d);
    }
  }

  /** Parent and position among the siblings depend only on what comes before an entry:
      a tree that agrees on the entries before `i` and puts a node of the same depth at `i`
      gives that node the same parent and the same index among its siblings. */
  lemma {:induction false} ParentAndIndexDependOnPrefix(f: Fragment, g: Fragment, i: nat)
    requires WellFormed(f) && WellFormed(g) && 0 < i < |f| && i < |g|
    requires f[..i] == g[..i] && f[i].depth == g[i].depth
    ensures ParentIndex(f, i) == ParentIndex(g, i)
    ensures f[ParentIndex(f, i)] == g[ParentIndex(g, i)]
    ensures ChildIndex(f, i) == ChildIndex(g, i)
  {
    ScanParentOnPrefix(f, g, i, i - 1);
    var p := ParentIndex(f, i);
    assert f[p] == f[..i][p] && g[p] == g[..i][p];
    CountOnPrefix(f, g, p + 1, i, f[i].depth);
  }

  // ----- Text ---------------------------------------------------------------------------

  function TextIn(f: Fragment, lo: nat, hi: nat): (s: string)
    requires lo <= hi <= |f|
    decreases hi - lo
  {
    if lo == hi then ""
    else (if f[lo].node.Text? then f[lo].node.data else "") + TextIn(f, lo + 1, hi)
  }

  /** `textContent` of the element at `i`: the data of the text nodes in its subtree, in
      document order. */
  function TextContent(f: Fragment, i: nat): (r: string)
    requires i < |f|
  {
    TextIn(f, i, SubtreeEnd(f, i))
  }

  // ----- Selectors ---------------------------------------------------------------------

  /** The CSS selectors the script uses: a type selector (matched against the upper-case
      `tagName`), `[a="v"]`, `[a*="v"]`, `.c`, a compound of two, and a selector list. */
  datatype Selector =
    | TypeIs(tag: string)
    | AttrIs(name: string, value: string)
    | AttrHas(name: string, part: string)
    | ClassIs(token: string)
    | Both(left: Selector, right: Selector)
    | Either(left: Selector, right: Selector)

  predicate Matches(sel: Selector, n: Node) {
    n.Element? &&
    match sel
    case TypeIs(t) => n.tag == t
    case AttrIs(a, v) => a in n.attrs && n.attrs[a] == v
    case AttrHas(a, part) => part != "" && a in n.attrs && Contains(n.attrs[a], part)
    case ClassIs(c) => c in n.classes
    case Both(l, r) => Matches(l, n) && Matches(r, n)
    case Either(l, r) => Matches(l, n) || Matches(r, n)
  }

  /** The first position in `[lo, hi)` whose node matches `sel`. */
  function FirstMatch(f: Fragment, sel: Selector, lo: nat, hi: nat): (r: Option<nat>)
    requires lo <= hi <= |f|
    ensures r.Some? ==> lo <= r.value < hi && Matches(sel, f[r.value].node)
    ensures r.Some? ==> forall k :: lo <= k < r.value ==> !Matches(sel, f[k].node)
    ensures r.None? ==> forall k :: lo <= k < hi ==> !Matches(sel, f[k].node)
    decreases hi - lo
  {
    if lo == hi then None
    else if Matches(sel, f[lo].node) then Some(lo)
    else FirstMatch(f, sel, lo + 1, hi)
  }

  /** `element.querySelector(sel)`: the first descendant in document order that matches. */
  function QuerySelector(f: Fragment, i: nat, sel: Selector): (r: Option<nat>)
    requires i < |f|
    ensures r.Some? ==> i < r.value < SubtreeEnd(f, i) && Matches(sel, f[r.value].node)
    ensures r.Some? ==> forall k :: i < k < r.value ==> !Matches(sel, f[k].node)
    ensures r.None? ==> forall k :: i < k < SubtreeEnd(f, i) ==> !Matches(sel, f[k].node)
  {
    FirstMatch(f, sel, i + 1, SubtreeEnd(f, i))
  }

  /** All positions in `[lo, |f|)` whose node matches `sel`, in increasing order. */
  function AllMatches(f: Fragment, sel: Selector, lo: nat): (r: seq<nat>)
    requires lo <= |f|
    ensures forall k :: 0 <= k < |r| ==> lo <= r[k] < |f| && Matches(sel, f[r[k]].node)
    ensures forall j :: lo <= j < |f| && Matches(sel, f[j].node) ==> j in r
    ensures forall k, l :: 0 <= k < l < |r| ==> r[k] < r[l]
    decreases |f| - lo
  {
    if lo == |f| then []
    else if Matches(sel, f[lo].node) then [lo] + AllMatches(f, sel, lo + 1)
    else AllMatches(f, sel, lo + 1)
  }

  /** `document.querySelectorAll(sel)` on a tree: every matching entry, in document order. */
  function QueryAll(f: Fragment, sel: Selector): seq<nat> {
    AllMatches(f, sel, 0)
  }

  // ----- Identity -------------------------------------------------------------------------

  function FragmentIds(f: Fragment): seq<ElemId> {
    if f == [] then []
    else (if f[0].node.Element? then [f[0].node.id] else []) + FragmentIds(f[1..])
  }

  function ForestIds(forest: seq<Fragment>): seq<ElemId> {
    if forest == [] then [] else FragmentIds(forest[0]) + ForestIds(forest[1..])
  }

  /** No element identity occurs twice. */
  ghost predicate Distinct(ids: seq<ElemId>) {
    forall x | x in multiset(ids) :: multiset(ids)[x] == 1
  }

  lemma {:induction false} FragmentIdsAppend(a: Fragment, b: Fragment)
    ensures FragmentIds(a + b) == FragmentIds(a) + FragmentIds(b)
    decreases |a|
  {
    if a != [] {
      assert (a + b)[1..] == a[1..] + b;
      FragmentIdsAppend(a[1..], b);
    } else {
      assert a + b == b;
    }
  }

  lemma {:induction false} ForestIdsAppend(a: seq<Fragment>, b: seq<Fragment>)
    ensures ForestIds(a + b) == ForestIds(a) + ForestIds(b)
    decreases |a|
  {
    if a != [] {
      assert (a + b)[1..] == a[1..] + b;
      ForestIdsAppend(a[1..], b);
    } else {
      assert a + b == b;
    }
  }

  lemma {:induction false} FragmentIdsAt(f: Fragment, k: nat)
    requires k < |f| && f[k].node.Element?
    ensures f[k].node.id in FragmentIds(f)
  {
    assert f == f[..k] + f[k..];
    FragmentIdsAppend(f[..k], f[k..]);
  }

  /** The identities of a forest, split around one of its fragments. */
  lemma {:induction false} ForestIdsAround(forest: seq<Fragment>, f: nat)
    requires f < |forest|
    ensures ForestIds(forest)
         == ForestIds(forest[..f]) + FragmentIds(forest[f]) + ForestIds(forest[f + 1..])
  {
    var rest := forest[f..];
    assert forest == forest[..f] + rest;
    ForestIdsAppend(forest[..f], rest);
    assert rest[0] == forest[f] && rest[1..] == forest[f + 1..];
    assert ForestIds(rest) == FragmentIds(forest[f]) + ForestIds(forest[f + 1..]);
  }

  // ----- Moving subtrees ---------------------------------------------------------------

  /** The same entries, `d` levels deeper. */
  function Indent(f: Fragment, d: nat): (g: Fragment)
    ensures |g| == |f|
    ensures forall k :: 0 <= k < |f| ==> g[k] == Entry(f[k].depth + d, f[k].node)
  {
    if f == [] then [] else [Entry(f[0].depth + d, f[0].node)] + Indent(f[1..], d)
  }

  /** The same entries, `d` levels shallower. */
  function Outdent(f: Fragment, d: nat): (g: Fragment)
    requires forall k :: 0 <= k < |f| ==> f[k].depth >= d
    ensures |g| == |f|
    ensures forall k :: 0 <= k < |f| ==> g[k] == Entry(f[k].depth - d, f[k].node)
  {
    if f == [] then [] else [Entry(f[0].depth - d, f[0].node)] + Outdent(f[1..], d)
  }

  lemma {:induction false} IndentKeepsIds(f: Fragment, d: nat)
    ensures FragmentIds(Indent(f, d)) == FragmentIds(f)
    decreases |f|
  {
    if f != [] { IndentKeepsIds(f[1..], d); assert Indent(f, d)[1..] == Indent(f[1..], d); }
  }

  lemma {:induction false} OutdentKeepsIds(f: Fragment, d: nat)
    requires forall k :: 0 <= k < |f| ==> f[k].depth >= d
    ensures FragmentIds(Outdent(f, d)) == FragmentIds(f)
    decreases |f|
  {
    if f != [] { OutdentKeepsIds(f[1..], d); assert Outdent(f, d)[1..] == Outdent(f[1..], d); }
  }

  /** The subtree of the entry at `i`, re-rooted at depth 0 (what `replaceChild` detaches). */
  function Subtree(f: Fragment, i: nat): (t: Fragment)
    requires i < |f|
    ensures |t| == SubtreeEnd(f, i) - i
    ensures t[0] == Entry(0, f[i].node)
  {
    Outdent(f[i..SubtreeEnd(f, i)], f[i].depth)
  }

  /** `f` with the subtree of the entry at `i` replaced by `t`, put at that entry's depth. */
  function Splice(f: Fragment, i: nat, t: Fragment): (g: Fragment)
    requires i < |f|
  {
    f[..i] + Indent(t, f[i].depth) + f[SubtreeEnd(f, i)..]
  }

  lemma {:induction false} SubtreeWellFormed(f: Fragment, i: nat)
    requires WellFormed(f) && i < |f| && f[i].node.Element?
    ensures WellFormed(Subtree(f, i))
  {
    var t := Subtree(f, i);
    forall k | 0 < k < |t| ensures CanFollow(t[k - 1], t[k]) {
      assert CanFollow(f[i + k - 1], f[i + k]);
    }
  }

  lemma {:induction false} SpliceWellFormed(f: Fragment, i: nat, t: Fragment)
    requires WellFormed(f) && WellFormed(t) && i < |f|
    ensures WellFormed(Splice(f, i, t))
  {
    var d := f[i].depth;
    var e := SubtreeEnd(f, i);
    var mid := Indent(t, d);
    var g := Splice(f, i, t);
    assert |g| == i + |t| + (|f| - e);
    forall k | 0 < k < |g| ensures CanFollow(g[k - 1], g[k]) {
      if k < i {
        assert g[k - 1] == f[k - 1] && g[k] == f[k];
      } else if k == i {
        assert g[k - 1] == f[i - 1] && g[k] == Entry(d, t[0].node);
        assert CanFollow(f[i - 1], f[i]);
      } else if k < i + |t| {
        assert g[k - 1] == Entry(t[k - 1 - i].depth + d, t[k - 1 - i].node);
        assert g[k] == Entry(t[k - i].depth + d, t[k - i].node);
        assert CanFollow(t[k - i - 1], t[k - i]);
      } else if k == i + |t| {
        assert g[k] == f[e] && g[k - 1] == mid[|t| - 1];
        assert e > 0 && CanFollow(f[e - 1], f[e]);
      } else {
        var j := k - i - |t| + e;
        assert g[k] == f[j] && g[k - 1] == f[j - 1];
        assert CanFollow(f[j - 1], f[j]);
      }
    }
    if i == 0 { assert g[0] == Entry(d, t[0].node); }
    else { assert g[0] == f[0]; }
  }

  /** Splicing a tree rooted at depth 0 in place of the subtree at `i`: the new root sits at
      the old depth under the same parent with the same sibling index, what comes before is
      kept, and what followed the old subtree follows the new one unchanged. */
  lemma {:induction false} SpliceInPlace(f: Fragment, i: nat, t: Fragment)
    requires WellFormed(f) && WellFormed(t) && i < |f| && |t| > 0 && t[0].depth == 0
    ensures var g := Splice(f, i, t);
      var e := SubtreeEnd(f, i);
      WellFormed(g) && |g| == |f| - (e - i) + |t|
      && g[i] == Entry(f[i].depth, t[0].node)
      && g[..i] == f[..i]
      && (i > 0 ==> ParentIndex(g, i) == ParentIndex(f, i) && g[ParentIndex(g, i)] == f[ParentIndex(f, i)]
                    && ChildIndex(g, i) == ChildIndex(f, i))
      && (forall j :: e <= j < |f| ==> g[j - e + i + |t|] == f[j])
  {
    var g := Splice(f, i, t);
    var e := SubtreeEnd(f, i);
    SpliceWellFormed(f, i, t);
    assert g[i] == Indent(t, f[i].depth)[0];
    assert g[..i] == f[..i];
    if i > 0 { ParentAndIndexDependOnPrefix(f, g, i); }
  }

  /** Splicing moves the old subtree's identities out and the new block's in. */
  lemma {:induction false} SpliceIds(f: Fragment, i: nat, t: Fragment)
    requires i < |f|
    ensures multiset(FragmentIds(Splice(f, i, t))) + multiset(FragmentIds(f[i..SubtreeEnd(f, i)]))
         == multiset(FragmentIds(f)) + multiset(FragmentIds(t))
  {
    var e := SubtreeEnd(f, i);
    FragmentIdsAppend(f[..i] + Indent(t, f[i].depth), f[e..]);
    FragmentIdsAppend(f[..i], Indent(t, f[i].depth));
    IndentKeepsIds(t, f[i].depth);
    assert f == f[..i] + f[i..e] + f[e..];
    FragmentIdsAppend(f[..i] + f[i..e], f[e..]);
    FragmentIdsAppend(f[..i], f[i..e]);
  }
}

/** Finding an element by identity, and the document as mutable state. */
module Page {
  import opened Optional
  import opened Dom

  predicate IsElementWith(e: Entry, id: ElemId) {
    e.node.Element? && e.node.id == id
  }

  function IndexIn(f: Fragment, id: ElemId, lo: nat): (r: Option<nat>)
    requires lo <= |f|
    ensures r.Some? ==> lo <= r.value < |f| && IsElementWith(f[r.value], id)
    ensures r.None? ==> forall k :: lo <= k < |f| ==> !IsElementWith(f[k], id)
    decreases |f| - lo
  {
    if lo == |f| then None
    else if IsElementWith(f[lo], id) then Some(lo)
    else IndexIn(f, id, lo + 1)
  }

  function LocateFrom(forest: seq<Fragment>, id: ElemId, a: nat): (r: Option<(nat, nat)>)
    requires a <= |forest|
    ensures r.Some? ==> a <= r.value.0 < |forest| && r.value.1 < |forest[r.value.0]|
                        && IsElementWith(forest[r.value.0][r.value.1], id)
    ensures r.None? ==>
      forall x, k :: a <= x < |forest| && 0 <= k < |forest[x]| ==> !IsElementWith(forest[x][k], id)
    decreases |forest| - a
  {
    if a == |forest| then None
    else match IndexIn(forest[a], id, 0)
      case Some(k) => Some((a, k))
      case None => LocateFrom(forest, id, a + 1)
  }

  /** Where the element with identity `id` is: its fragment and its position there. */
  function Locate(forest: seq<Fragment>, id: ElemId): (r: Option<(nat, nat)>)
    ensures r.Some? ==> r.value.0 < |forest| && r.value.1 < |forest[r.value.0]|
                        && IsElementWith(forest[r.value.0][r.value.1], id)
    ensures r.None? ==>
      forall x, k :: 0 <= x < |forest| && 0 <= k < |forest[x]| ==> !IsElementWith(forest[x][k], id)
  {
    LocateFrom(forest, id, 0)
  }

  /** `element.parentNode` is not null: every element of the document has one (the root
      element's is the Document node); in a detached subtree all but its root have one. */
  predicate HasParent(forest: seq<Fragment>, a: nat, k: nat)
    requires a < |forest| && k < |forest[a]|
  {
    a == 0 || forest[a][k].depth > 0
  }

  /** `parent.replaceChild(t, element)`: the element's subtree is replaced by `t` at the same
      place and becomes a detached fragment of its own. */
  function Replace(forest: seq<Fragment>, a: nat, k: nat, t: Fragment): (r: seq<Fragment>)
    requires a < |forest| && k < |forest[a]|
    ensures |r| == |forest| + 1
  {
    forest[a := Splice(forest[a], k, t)] + [Subtree(forest[a], k)]
  }

  /** Every fragment is a tree, every identity is below the allocation counter, and no
      identity occurs twice in the whole page. */
  ghost predicate ValidForest(forest: seq<Fragment>, nextId: ElemId) {
    |forest| > 0
    && (forall a :: 0 <= a < |forest| ==> WellFormed(forest[a]))
    && (forall x :: x in ForestIds(forest) ==> x < nextId)
    && Distinct(ForestIds(forest))
  }

  /** New identities that `t` brings along: distinct, allocated, and not yet in the page. */
  ghost predicate FreshBlock(forest: seq<Fragment>, nextId: ElemId, t: Fragment) {
    WellFormed(t) && Distinct(FragmentIds(t))
    && forall x :: x in FragmentIds(t) ==> x < nextId && x !in ForestIds(forest)
  }

  lemma {:induction false} ReplaceIds(forest: seq<Fragment>, a: nat, k: nat, t: Fragment)
    requires a < |forest| && k < |forest[a]|
    ensures multiset(ForestIds(Replace(forest, a, k, t)))
         == multiset(ForestIds(forest)) + multiset(FragmentIds(t))
  {
    var f := forest[a];
    var sp := Splice(f, k, t);
    var g := forest[a := sp];
    var blk := Subtree(f, k);
    var before, after := ForestIds(forest[..a]), ForestIds(forest[a + 1..]);
    ForestIdsAppend(g, [blk]);
    assert ForestIds([blk]) == FragmentIds(blk) by { assert [blk][1..] == []; }
    OutdentKeepsIds(f[k..SubtreeEnd(f, k)], f[k].depth);
    ForestIdsAround(forest, a);
    ForestIdsAround(g, a);
    assert g[..a] == forest[..a] && g[a + 1..] == forest[a + 1..];
    assert ForestIds(g) == before + FragmentIds(sp) + after;
    assert ForestIds(forest) == before + FragmentIds(f) + after;
    SpliceIds(f, k, t);
    Rearrange(multiset(before), multiset(after), multiset(FragmentIds(sp)), multiset(FragmentIds(blk)),
              multiset(FragmentIds(f)), multiset(FragmentIds(t)));
  }

  lemma {:induction false} Rearrange(u: multiset<ElemId>, v: multiset<ElemId>, s: multiset<ElemId>, o: multiset<ElemId>,
                  f: multiset<ElemId>, t: multiset<ElemId>)
    requires s + o == f + t
    ensures u + s + v + o == u + f + v + t
  {
    assert forall x :: (u + s + v + o)[x] == u[x] + v[x] + (s + o)[x];
    assert forall x :: (u + f + v + t)[x] == u[x] + v[x] + (f + t)[x];
  }

  lemma {:induction false} DistinctSum(s: seq<ElemId>, u: seq<ElemId>, v: seq<ElemId>)
    requires multiset(s) == multiset(u) + multiset(v)
    requires Distinct(u) && Distinct(v) && forall x :: x in v ==> x !in u
    ensures Distinct(s)
  {
    forall x | x in multiset(s) ensures multiset(s)[x] == 1 {
      if x in v { assert x !in multiset(u); } else { assert x !in multiset(v); }
    }
  }

  lemma {:induction false} BoundedSum(s: seq<ElemId>, u: seq<ElemId>, v: seq<ElemId>, n: ElemId)
    requires multiset(s) == multiset(u) + multiset(v)
    requires forall x :: x in u ==> x < n
    requires forall x :: x in v ==> x < n
    ensures forall x :: x in s ==> x < n
  {
    forall x | x in s ensures x < n {
      assert x in multiset(s);
      assert multiset(s)[x] == multiset(u)[x] + multiset(v)[x];
      if multiset(v)[x] > 0 { assert x in v; } else { assert x in multiset(u); assert x in u; }
    }
  }

  lemma {:induction false} ReplaceWellFormed(forest: seq<Fragment>, a: nat, k: nat, t: Fragment)
    requires a < |forest| && k < |forest[a]| && forest[a][k].node.Element? && WellFormed(t)
    requires forall b :: 0 <= b < |forest| ==> WellFormed(forest[b])
    ensures forall b :: 0 <= b < |forest| + 1 ==> WellFormed(Replace(forest, a, k, t)[b])
  {
    var r := Replace(forest, a, k, t);
    SpliceWellFormed(forest[a], k, t);
    SubtreeWellFormed(forest[a], k);
    forall b | 0 <= b < |r| ensures WellFormed(r[b]) {
      if b < |forest| && b != a { assert r[b] == forest[b]; }
    }
  }

  lemma {:induction false} ReplaceKeepsValid(forest: seq<Fragment>, nextId: ElemId, a: nat, k: nat, t: Fragment)
    requires ValidForest(forest, nextId) && a < |forest| && k < |forest[a]|
    requires forest[a][k].node.Element? && FreshBlock(forest, nextId, t)
    ensures ValidForest(Replace(forest, a, k, t), nextId)
  {
    var r := Replace(forest, a, k, t);
    ReplaceWellFormed(forest, a, k, t);
    ReplaceIds(forest, a, k, t);
    BoundedSum(ForestIds(r), ForestIds(forest), FragmentIds(t), nextId);
    DistinctSum(ForestIds(r), ForestIds(forest), FragmentIds(t));
  }

  /** The page the content script runs in. Handles to elements are identities; the page
      keeps, beside the document, the subtrees that were detached from it. */
  class Document {
    var forest: seq<Fragment>
    var nextId: ElemId

    ghost predicate Valid()
      reads this
    {
      ValidForest(forest, nextId)
    }

    /** The loaded page: one well-formed tree whose identities are distinct and allocated. */
    constructor (root: Fragment, nextId: ElemId)
      requires WellFormed(root) && Distinct(FragmentIds(root))
      requires forall x :: x in FragmentIds(root) ==> x < nextId
      ensures Valid() && forest == [root] && this.nextId == nextId
    {
      forest := [root];
      this.nextId := nextId;
      new;
      assert ForestIds([root]) == FragmentIds(root) by { assert [root][1..] == []; }
    }

    /** `document.createElement` called `n` times: the next `n` identities, all new. */
    method CreateElements(n: nat) returns (first: ElemId)
      requires Valid()
      modifies this`nextId
      ensures Valid() && first == old(nextId) && nextId == first + n
    {
      first := nextId;
      nextId := nextId + n;
    }

    /** `element.parentNode.replaceChild(t, element)` for an element that has a parent. */
    method ReplaceChild(a: nat, k: nat, t: Fragment)
      requires Valid() && a < |forest| && k < |forest[a]| && forest[a][k].node.Element?
      requires HasParent(forest, a, k) && FreshBlock(forest, nextId, t)
      modifies this`forest
      ensures Valid() && forest == Replace(old(forest), a, k, t)
    {
      ReplaceKeepsValid(forest, nextId, a, k, t);
      forest := Replace(forest, a, k, t);
    }
  }
}
