/** The extension's local storage as a key/value map, the snapshot `updateStorage` writes
    into it, and the reply to the popup's `getPromotedCount` message. */
module Store {
  import opened Optional
  import opened Extraction

  /** The kinds of value the content script stores: the record list, numbers, strings. */
  datatype StoreValue = Posts(posts: seq<PostInfo>) | Number(n: int) | Str(s: string)

  const PostsKey := "promotedPosts"
  const CountKey := "count"
  const LastUpdateKey := "lastUpdate"
  const CountAction := "getPromotedCount"

  /** JavaScript truthiness of a stored value; an array is truthy even when empty. */
  predicate Truthy(v: StoreValue) {
    match v
    case Posts(_) => true
    case Number(n) => n != 0
    case Str(s) => s != ""
  }

  /** The entries after `set({promotedPosts, count, lastUpdate})`: the three keys are
      overwritten, every other key is kept. */
  function WithSnapshot(entries: map<string, StoreValue>, records: seq<PostInfo>, writeTime: int)
    : (m: map<string, StoreValue>)
    ensures m.Keys == entries.Keys + {PostsKey, CountKey, LastUpdateKey}
    ensures m[PostsKey] == Posts(records) && m[CountKey] == Number(|records|)
    ensures m[LastUpdateKey] == Number(writeTime)
    ensures forall key :: key in entries && key != PostsKey && key != CountKey && key != LastUpdateKey
                          ==> m[key] == entries[key]
  {
    entries[PostsKey := Posts(records)][CountKey := Number(|records|)][LastUpdateKey := Number(writeTime)]
  }

  /** What a read of the storage gives the message handler: the entries, or a synchronous
      error (the extension context is gone). */
  datatype ReadOutcome = Read(entries: map<string, StoreValue>) | ReadThrew(message: string)

  /** `{count}` or `{success: false, error}`. */
  datatype Reply = CountReply(count: StoreValue) | FailureReply(error: string)

  /** `result.count || 0`. */
  function CountOrZero(entries: map<string, StoreValue>): (v: StoreValue)
    ensures v == Number(0) || (CountKey in entries && v == entries[CountKey] && Truthy(v))
    ensures CountKey in entries && Truthy(entries[CountKey]) ==> v == entries[CountKey]
  {
    if CountKey in entries && Truthy(entries[CountKey]) then entries[CountKey] else Number(0)
  }

  /** The message listener: only `getPromotedCount` is answered, with the stored count or 0,
      or with a failure carrying the error's message when the read throws; every other
      action gets no reply. */
  function HandleMessage(action: string, read: ReadOutcome): (r: Option<Reply>)
    ensures r.Some? <==> action == CountAction
    ensures r.Some? && read.ReadThrew? ==> r.value == FailureReply(read.message)
    ensures r.Some? && read.Read? ==> r.value == CountReply(CountOrZero(read.entries))
  {
    if action != CountAction then None
    else match read
      case Read(entries) => Some(CountReply(CountOrZero(entries)))
      case ReadThrew(message) => Some(FailureReply(message))
  }

  /** After a snapshot of `records` has been written, the popup is told exactly the number
      of records, also when there are none (0 is falsy and replaced by 0). */
  lemma {:induction false} CountReplyAfterWrite(entries: map<string, StoreValue>, records: seq<PostInfo>, writeTime: int)
    ensures HandleMessage(CountAction, Read(WithSnapshot(entries, records, writeTime)))
         == Some(CountReply(Number(|records|)))
  {
    var m := WithSnapshot(entries, records, writeTime);
    if |records| == 0 { assert !Truthy(m[CountKey]); }
  }

  /** The reply to `getPromotedCount` is never a falsy stored value. */
  lemma {:induction false} CountReplyTruthyOrZero(entries: map<string, StoreValue>)
    ensures var r := HandleMessage(CountAction, Read(entries));
      r.Some? && r.value.CountReply? && (Truthy(r.value.count) || r.value.count == Number(0))
  {}
}
