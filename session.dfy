/** The content script's detector object: the record set it accumulates, the state of its
    mutation observer, and the scan that detects promoted posts, replaces them and writes a
    snapshot of the records to storage. */
module ContentScript {
  import opened Strings
  import opened Optional
  import opened Dom
  import opened Page
  import opened Detection
  import opened Extraction
  import opened Replacement
  import opened Store

  /** `this.observer`: not yet created (null), observing, or disconnected (still non-null). */
  datatype ObserverState = Idle | Observing | Disconnected

  /** How the `chrome.storage.local.set` call returned: normally, or by a synchronous throw. */
  datatype WriteOutcome = Accepted | Threw(message: string)

  const ContextInvalidated := "Extension context invalidated"

  /** The entries after `updateStorage`: the snapshot when the write went through, the old
      entries when it threw. */
  function EntriesAfterWrite(entries: map<string, StoreValue>, records: seq<PostInfo>, writeTime: int,
                             outcome: WriteOutcome): (m: map<string, StoreValue>)
    ensures outcome.Threw? ==> m == entries
    ensures outcome.Accepted? ==>
      CountKey in m && m[CountKey] == Number(|records|) && PostsKey in m && m[PostsKey] == Posts(records)
      && LastUpdateKey in m && m[LastUpdateKey] == Number(writeTime)
  {
    if outcome.Accepted? then WithSnapshot(entries, records, writeTime) else entries
  }

  /** The observer after `updateStorage`: only a throw whose message mentions the invalidated
      context disconnects it, and only when it was created. */
  function ObserverAfterWrite(observer: ObserverState, outcome: WriteOutcome): (o: ObserverState)
    ensures o != observer ==> o == Disconnected && observer == Observing
    ensures o == Disconnected <==>
      observer == Disconnected
      || (observer == Observing && outcome.Threw? && Contains(outcome.message, ContextInvalidated))
  {
    if observer == Observing && outcome.Threw? && Contains(outcome.message, ContextInvalidated) then Disconnected
    else observer
  }

  // ----- The observer callback's decision ---------------------------------------------------

  /** The number of element nodes (`nodeType === 1`) among a list of added nodes. */
  function ElementsIn(nodeTypes: seq<int>): nat {
    if nodeTypes == [] then 0
    else ElementsIn(nodeTypes[..|nodeTypes| - 1]) + (if nodeTypes[|nodeTypes| - 1] == 1 then 1 else 0)
  }

  /** The number of element nodes added by a batch of mutation records, each given by the
      node types of its added nodes. */
  function ElementNodes(mutations: seq<seq<int>>): nat {
    if mutations == [] then 0
    else ElementNodes(mutations[..|mutations| - 1]) + ElementsIn(mutations[|mutations| - 1])
  }

  lemma {:induction false} ElementsInPositive(nodeTypes: seq<int>)
    ensures ElementsIn(nodeTypes) > 0 <==> exists j :: 0 <= j < |nodeTypes| && nodeTypes[j] == 1
    decreases |nodeTypes|
  {
    if nodeTypes != [] {
      var init := nodeTypes[..|nodeTypes| - 1];
      ElementsInPositive(init);
      if exists j :: 0 <= j < |nodeTypes| && nodeTypes[j] == 1 {
        var j :| 0 <= j < |nodeTypes| && nodeTypes[j] == 1;
        if j < |init| { assert init[j] == 1; }
      }
      if exists j :: 0 <= j < |init| && init[j] == 1 {
        var j :| 0 <= j < |init| && init[j] == 1;
        assert nodeTypes[j] == 1;
      }
    }
  }

  /** The callback rescans exactly when some added node is an element. */
  lemma {:induction false} RescanIffElementAdded(mutations: seq<seq<int>>)
    ensures ElementNodes(mutations) > 0 <==>
      exists i, j :: 0 <= i < |mutations| && 0 <= j < |mutations[i]| && mutations[i][j] == 1
    decreases |mutations|
  {
    if mutations != [] {
      var n := |mutations| - 1;
      var init := mutations[..n];
      RescanIffElementAdded(init);
      ElementsInPositive(mutations[n]);
      if exists i, j :: 0 <= i < |mutations| && 0 <= j < |mutations[i]| && mutations[i][j] == 1 {
        var i, j :| 0 <= i < |mutations| && 0 <= j < |mutations[i]| && mutations[i][j] == 1;
        if i < n { assert init[i][j] == 1; }
      }
      if exists i, j :: 0 <= i < |init| && 0 <= j < |init[i]| && init[i][j] == 1 {
        var i, j :| 0 <= i < |init| && 0 <= j < |init[i]| && init[i][j] == 1;
        assert mutations[i][j] == 1;
      }
    }
  }

  /** The `forEach` over the mutation records and their added nodes, collecting the element
      nodes; returns how many were collected. */
  method CountAddedElements(mutations: seq<seq<int>>) returns (n: nat)
    ensures n == ElementNodes(mutations)
  {
    n := 0;
    for i := 0 to |mutations|
      invariant n == ElementNodes(mutations[..i])
    {
      var nodes := mutations[i];
      ghost var before := n;
      for j := 0 to |nodes|
        invariant n == before + ElementsIn(nodes[..j])
      {
        assert nodes[..j + 1][..j] == nodes[..j];
        if nodes[j] == 1 {
          n := n + 1;
        }
      }
      assert nodes[..|nodes|] == nodes;
      assert mutations[..i + 1][..i] == mutations[..i];
    }
    assert mutations[..|mutations|] == mutations;
  }

  // ----- Storage and the detector -----------------------------------------------------------

  /** `chrome.storage.local`, reduced to its entries. */
  class Storage {
    var entries: map<string, StoreValue>

    constructor (entries: map<string, StoreValue>)
      ensures this.entries == entries
    {
      this.entries := entries;
    }
  }

  /** `RedditPromotedDetector`: the records of removed posts (`this.promotedPosts`, a set
      kept in insertion order) and the mutation observer. */
  class Session {
    var records: seq<PostInfo>
    var observer: ObserverState

    ghost predicate Valid()
      reads this
    {
      NoDuplicates(records)
    }

    constructor ()
      ensures Valid() && records == [] && observer == Idle
    {
      records := [];
      observer := Idle;
    }

    /** `querySelectorAll(sel).forEach(post => promoted.push(post))` for rules 1, 3 and 4:
        appends the handle of every element matching `sel`, in document order. */
    static method PushMatches(page: Fragment, sel: Selector, promoted: seq<ElemId>) returns (r: seq<ElemId>)
      ensures r == promoted + RuleHits(page, sel, false)
    {
      QueryAllElements(page, sel);
      r := PushAll(page, QueryAll(page, sel), promoted);
    }

    /** The same for rules 2 and 5, whose `forEach` pushes only the elements whose text
        holds the marker. */
    static method PushMarkedMatches(page: Fragment, sel: Selector, promoted: seq<ElemId>) returns (r: seq<ElemId>)
      ensures r == promoted + RuleHits(page, sel, true)
    {
      QueryAllElements(page, sel);
      var q := QueryAll(page, sel);
      r := PushMarked(page, q, promoted);
    }

    /** The pushing `forEach` over a node list: every handle, in list order. */
    static method PushAll(page: Fragment, q: seq<nat>, promoted: seq<ElemId>) returns (r: seq<ElemId>)
      requires ElementPositions(page, q)
      ensures r == promoted + IdsAt(page, q)
    {
      r := promoted;
      for j := 0 to |q|
        invariant r == promoted + IdsAt(page, q[..j])
      {
        IdsAtStep(page, q, j);
        r := r + [page[q[j]].node.id];
      }
      assert q[..|q|] == q;
    }

    /** The filtering `forEach` over a node list: the handles of the elements whose text
        holds the marker, in list order. */
    static method PushMarked(page: Fragment, q: seq<nat>, promoted: seq<ElemId>) returns (r: seq<ElemId>)
      requires ElementPositions(page, q)
      ensures r == promoted + MarkedIds(page, q, |q|)
    {
      r := promoted;
      for j := 0 to |q|
        invariant r == promoted + MarkedIds(page, q, j)
      {
        r := r + MarkedHit(page, q[j]);
      }
    }

    /** `[...new Set(promoted)]`. */
    static method Unique(promoted: seq<ElemId>) returns (found: seq<ElemId>)
      ensures found == Dedup(promoted)
    {
      found := [];
      for k := 0 to |promoted|
        invariant found == Dedup(promoted[..k])
      {
        assert promoted[..k + 1][..k] == promoted[..k];
        if promoted[k] !in found {
          found := found + [promoted[k]];
        }
      }
      assert promoted[..|promoted|] == promoted;
    }

    /** `detectPromotedPosts`: the five rules in order over the document, then the
        de-duplication. Reads the page and changes nothing. */
    method DetectPromotedPosts(doc: Document) returns (found: seq<ElemId>)
      requires |doc.forest| > 0
      ensures found == Detected(doc.forest[0])
    {
      var page := doc.forest[0];
      var promoted := PushMatches(page, FlaggedPost, []);
      ghost var upTo1 := promoted;
      promoted := PushMarkedMatches(page, PostContainer, promoted);
      ghost var upTo2 := promoted;
      promoted := PushMatches(page, DataPromoted, promoted);
      ghost var upTo3 := promoted;
      promoted := PushMatches(page, PromotedClass, promoted);
      ghost var upTo4 := promoted;
      promoted := PushMarkedMatches(page, AnyPost, promoted);
      CandidatesInRuleOrder(page, upTo1, upTo2, upTo3, upTo4, promoted);
      found := Unique(promoted);
    }

    /** The pushes of the five rules, one after the other, build the candidate list. */
    static lemma {:induction false} CandidatesInRuleOrder(page: Fragment, upTo1: seq<ElemId>, upTo2: seq<ElemId>,
                                                          upTo3: seq<ElemId>, upTo4: seq<ElemId>, all: seq<ElemId>)
      requires upTo1 == [] + RuleHits(page, FlaggedPost, false)
      requires upTo2 == upTo1 + RuleHits(page, PostContainer, true)
      requires upTo3 == upTo2 + RuleHits(page, DataPromoted, false)
      requires upTo4 == upTo3 + RuleHits(page, PromotedClass, false)
      requires all == upTo4 + RuleHits(page, AnyPost, true)
      ensures all == Candidates(page)
    {
      assert [] + RuleHits(page, FlaggedPost, false) == RuleHits(page, FlaggedPost, false);
    }

    /** `updateStorage`: writes the snapshot of the records; a synchronous throw leaves the
        entries alone and, when it says the extension context is invalidated, disconnects
        a created observer. */
    method UpdateStorage(store: Storage, writeTime: int, outcome: WriteOutcome)
      modifies store, this`observer
      ensures store.entries == EntriesAfterWrite(old(store.entries), records, writeTime, outcome)
      ensures observer == ObserverAfterWrite(old(observer), outcome)
    {
      match outcome
      case Accepted =>
        store.entries := WithSnapshot(store.entries, records, writeTime);
      case Threw(message) =>
        if Contains(message, ContextInvalidated) {
          if observer != Idle {
            observer := Disconnected;
          }
        }
    }

    /** One iteration of the `forEach` in `highlightPromotedPosts`: unless the element is
        already marked, record it and, when it has a parent, put a placeholder in its place. */
    method RemovePost(doc: Document, id: ElemId, now: int, location: string)
      requires doc.Valid() && Valid()
      modifies this`records, doc
      ensures doc.Valid() && Valid()
      ensures PassState(doc.forest, doc.nextId, records)
           == Step(PassState(old(doc.forest), old(doc.nextId), old(records)), id, now, location)
    {
      match Locate(doc.forest, id) {
        case None =>
        case Some((a, k)) =>
          if RemovedClass !in doc.forest[a][k].node.classes {
            var info := ExtractPostInfo(doc.forest[a], k, now, location);
            ReplacePost(doc, a, k, info);
          }
      }
    }

    /** The body of that iteration for an unmarked element and its record `info`: add the
        record, create the three elements of the placeholder, and swap the element for the
        placeholder when it has a parent. */
    method ReplacePost(doc: Document, a: nat, k: nat, info: PostInfo)
      requires doc.Valid() && Valid()
      requires a < |doc.forest| && k < |doc.forest[a]| && doc.forest[a][k].node.Element?
      modifies this`records, doc
      ensures doc.Valid() && Valid()
      ensures PassState(doc.forest, doc.nextId, records)
           == StepAt(PassState(old(doc.forest), old(doc.nextId), old(records)), a, k, info)
    {
      ghost var after := StepAt(PassState(doc.forest, doc.nextId, records), a, k, info);
      AddRecordIsSetInsert(records, info);
      records := AddRecord(records, info);
      PlaceholderFresh(doc.forest, doc.nextId, info.title);
      var first := doc.CreateElements(3);
      var placeholder := Placeholder(first, info.title);
      if HasParent(doc.forest, a, k) {
        doc.ReplaceChild(a, k, placeholder);
      }
      assert records == after.records && doc.nextId == after.nextId;
      assert doc.forest == after.forest;
    }

    /** `highlightPromotedPosts(posts)`: the pass over `posts` (the `j`-th record read at
        `clock(j)`), then one storage write when the list was not empty. */
    method HighlightPromotedPosts(doc: Document, store: Storage, posts: seq<ElemId>, clock: nat -> int,
                                  location: string, writeTime: int, outcome: WriteOutcome)
      requires doc.Valid() && Valid()
      modifies this`records, this`observer, doc, store
      ensures doc.Valid() && Valid()
      ensures PassState(doc.forest, doc.nextId, records)
           == Pass(PassState(old(doc.forest), old(doc.nextId), old(records)), posts, clock, location)
      ensures |posts| > 0 ==> store.entries == EntriesAfterWrite(old(store.entries), records, writeTime, outcome)
                              && observer == ObserverAfterWrite(old(observer), outcome)
      ensures |posts| == 0 ==> store.entries == old(store.entries) && observer == old(observer)
    {
      ghost var st0 := PassState(doc.forest, doc.nextId, records);
      for j := 0 to |posts|
        invariant doc.Valid() && Valid()
        invariant PassState(doc.forest, doc.nextId, records) == Pass(st0, posts[..j], clock, location)
        invariant store.entries == old(store.entries) && observer == old(observer)
      {
        assert posts[..j + 1][..j] == posts[..j];
        RemovePost(doc, posts[j], clock(j), location);
      }
      assert posts[..|posts|] == posts;
      if |posts| > 0 {
        UpdateStorage(store, writeTime, outcome);
      }
    }

    /** One scan, as the initial timeout and every interval tick run it: detect, then
        replace and write. */
    method Scan(doc: Document, store: Storage, clock: nat -> int, location: string, writeTime: int,
                outcome: WriteOutcome)
      requires doc.Valid() && Valid()
      modifies this`records, this`observer, doc, store
      ensures doc.Valid() && Valid()
      ensures PassState(doc.forest, doc.nextId, records)
           == Pass(PassState(old(doc.forest), old(doc.nextId), old(records)),
                   Detected(old(doc.forest)[0]), clock, location)
      ensures |Detected(old(doc.forest)[0])| == 0 ==>
        store.entries == old(store.entries) && observer == old(observer)
      ensures |Detected(old(doc.forest)[0])| > 0 ==>
        store.entries == EntriesAfterWrite(old(store.entries), records, writeTime, outcome)
        && observer == ObserverAfterWrite(old(observer), outcome)
    {
      var promoted := DetectPromotedPosts(doc);
      HighlightPromotedPosts(doc, store, promoted, clock, location, writeTime, outcome);
    }

    /** `startObserver`. */
    method StartObserver()
      modifies this`observer
      ensures observer == Observing
    {
      observer := Observing;
    }

    /** The observer callback for one batch of mutation records. A disconnected (or not yet
        created) observer delivers nothing; otherwise a scan runs exactly when some added
        node is an element. */
    method OnMutations(doc: Document, store: Storage, mutations: seq<seq<int>>, clock: nat -> int,
                       location: string, writeTime: int, outcome: WriteOutcome)
      requires doc.Valid() && Valid()
      modifies this`records, this`observer, doc, store
      ensures doc.Valid() && Valid()
      ensures old(observer) != Observing || ElementNodes(mutations) == 0 ==>
        doc.forest == old(doc.forest) && doc.nextId == old(doc.nextId) && records == old(records)
        && store.entries == old(store.entries) && observer == old(observer)
      ensures old(observer) == Observing && ElementNodes(mutations) > 0 ==>
        PassState(doc.forest, doc.nextId, records)
        == Pass(PassState(old(doc.forest), old(doc.nextId), old(records)),
                Detected(old(doc.forest)[0]), clock, location)
      ensures old(observer) == Observing && ElementNodes(mutations) > 0 ==>
        if |Detected(old(doc.forest)[0])| == 0
        then store.entries == old(store.entries) && observer == Observing
        else store.entries == EntriesAfterWrite(old(store.entries), records, writeTime, outcome)
             && observer == ObserverAfterWrite(Observing, outcome)
    {
      if observer == Observing {
        var added := CountAddedElements(mutations);
        if added > 0 {
          Scan(doc, store, clock, location, writeTime, outcome);
        }
      }
    }
  }
}
