/**
 * The in-memory ticket registry of bot.js: a plain JavaScript object keyed by
 * ticket id. Its keys are enumerated in insertion order (ids that
 * `Date.now()` has produced since February 1970 are too long to be
 * array-index keys), so the model is an ordered
 * sequence of (key, ticket) entries whose keys are pairwise distinct.
 */
module Registry {
  import opened Wrappers

  datatype Status = Open | Closed

  datatype Ticket = Ticket(userId: string, threadId: string, category: string, status: Status)

  datatype Entry = Entry(key: string, ticket: Ticket)

  predicate DistinctKeys(es: seq<Entry>) {
    forall i, j :: 0 <= i < j < |es| ==> es[i].key != es[j].key
  }

  /** A JavaScript object never holds the same own key twice. */
  type Registry = es: seq<Entry> | DistinctKeys(es) witness []

  /** `Object.keys(tickets)`: the keys in enumeration order. */
  function Keys(reg: Registry): (ks: seq<string>)
    ensures |ks| == |reg|
    ensures forall i :: 0 <= i < |reg| ==> ks[i] == reg[i].key
  {
    if reg == [] then [] else [reg[0].key] + Keys(reg[1..])
  }

  /** Position of key `k`, if present. */
  function IndexOfKey(es: seq<Entry>, k: string): (r: Option<nat>)
    ensures r.Some? ==> r.value < |es| && es[r.value].key == k
    ensures r.None? <==> forall j :: 0 <= j < |es| ==> es[j].key != k
  {
    if es == [] then None
    else if es[0].key == k then Some(0)
    else match IndexOfKey(es[1..], k)
      case None => None
      case Some(i) => Some(i + 1)
  }

  /** `tickets[k]`, which is `undefined` when `k` is not a key. */
  function Get(reg: Registry, k: string): (r: Option<Ticket>)
    ensures r.Some? <==> exists i :: 0 <= i < |reg| && reg[i].key == k
    ensures r.Some? ==> exists i :: 0 <= i < |reg| && reg[i].key == k && reg[i].ticket == r.value
  {
    match IndexOfKey(reg, k)
    case None => None
    case Some(i) => Some(reg[i].ticket)
  }

  /** Reading the entry stored at a position yields that entry's ticket. */
  lemma GetAt(reg: Registry, i: nat)
    requires i < |reg|
    ensures Get(reg, reg[i].key) == Some(reg[i].ticket)
  {
    var r := IndexOfKey(reg, reg[i].key);
    assert r.Some?;
    assert r.value == i;
  }

  /** A key is present exactly when some entry carries it. */
  lemma GetSomeIff(reg: Registry, k: string)
    ensures Get(reg, k).Some? <==> k in Keys(reg)
  {
    if k in Keys(reg) {
      var i :| 0 <= i < |Keys(reg)| && Keys(reg)[i] == k;
      GetAt(reg, i);
    }
  }

  /**
   * `tickets[k] = t`: an existing key keeps its position and gets the new
   * record; a new key is appended at the end of the enumeration order.
   */
  function Put(reg: Registry, k: string, t: Ticket): (r: Registry)
    ensures Get(r, k) == Some(t)
    ensures forall k' :: k' != k ==> Get(r, k') == Get(reg, k')
    ensures k in Keys(reg) ==> Keys(r) == Keys(reg)
    ensures k !in Keys(reg) ==> Keys(r) == Keys(reg) + [k]
  {
    match IndexOfKey(reg, k)
    case Some(i) =>
      var r: seq<Entry> := reg[i := Entry(k, t)];
      PutAtFacts(reg, i, t);
      r
    case None =>
      var r: seq<Entry> := reg + [Entry(k, t)];
      PutEndFacts(reg, k, t);
      r
  }

  lemma PutAtFacts(reg: Registry, i: nat, t: Ticket)
    requires i < |reg|
    ensures DistinctKeys(reg[i := Entry(reg[i].key, t)])
    ensures Get(reg[i := Entry(reg[i].key, t)], reg[i].key) == Some(t)
    ensures forall k' :: k' != reg[i].key ==>
      Get(reg[i := Entry(reg[i].key, t)], k') == Get(reg, k')
    ensures Keys(reg[i := Entry(reg[i].key, t)]) == Keys(reg)
  {
    var r: Registry := reg[i := Entry(reg[i].key, t)];
    GetAt(r, i);
    forall k' | k' != reg[i].key
      ensures Get(r, k') == Get(reg, k')
    {
      match IndexOfKey(reg, k')
      case None =>
        assert IndexOfKey(r, k').None?;
      case Some(j) =>
        GetAt(reg, j);
        GetAt(r, j);
    }
  }

  lemma PutEndFacts(reg: Registry, k: string, t: Ticket)
    requires forall j :: 0 <= j < |reg| ==> reg[j].key != k
    ensures DistinctKeys(reg + [Entry(k, t)])
    ensures Get(reg + [Entry(k, t)], k) == Some(t)
    ensures forall k' :: k' != k ==> Get(reg + [Entry(k, t)], k') == Get(reg, k')
    ensures Keys(reg + [Entry(k, t)]) == Keys(reg) + [k]
  {
    var es := reg + [Entry(k, t)];
    assert DistinctKeys(es);
    var r: Registry := es;
    GetAt(r, |reg|);
    forall k' | k' != k
      ensures Get(r, k') == Get(reg, k')
    {
      AppendGetOther(reg, Entry(k, t), k');
    }
    KeysAppend(reg, Entry(k, t));
  }

  lemma KeysAppend(reg: Registry, e: Entry)
    requires DistinctKeys(reg + [e])
    ensures Keys(reg + [e]) == Keys(reg) + [e.key]
  {
    var r: Registry := reg + [e];
    assert |Keys(r)| == |Keys(reg) + [e.key]|;
    forall i | 0 <= i < |Keys(r)| ensures Keys(r)[i] == (Keys(reg) + [e.key])[i] {
      if i < |reg| { assert r[i] == reg[i]; }
    }
  }

  lemma AppendGetOther(reg: Registry, e: Entry, k: string)
    requires DistinctKeys(reg + [e])
    requires k != e.key
    ensures Get(reg + [e], k) == Get(reg, k)
  {
    var r: Registry := reg + [e];
    match IndexOfKey(reg, k)
    case None =>
      assert IndexOfKey(r, k).None?;
    case Some(j) =>
      GetAt(reg, j);
      GetAt(r, j);
  }

  /**
   * The record written by the `create_ticket_` handler: the fresh id maps to an
   * open ticket, every other key keeps its record. The id is not assumed to be
   * unused: a repeated id overwrites the earlier ticket in place.
   */
  function Create(reg: Registry, id: string, userId: string, threadId: string, category: string): (r: Registry)
    ensures Get(r, id) == Some(Ticket(userId, threadId, category, Open))
    ensures forall k :: k != id ==> Get(r, k) == Get(reg, k)
    ensures id !in Keys(reg) ==> Keys(r) == Keys(reg) + [id]
    ensures id in Keys(reg) ==> Keys(r) == Keys(reg)
  {
    Put(reg, id, Ticket(userId, threadId, category, Open))
  }

  /** Entry `i` is the first, in key order, bound to thread `channelId`. */
  predicate FirstInChannel(es: seq<Entry>, channelId: string, i: int) {
    && 0 <= i < |es|
    && es[i].ticket.threadId == channelId
    && forall j :: 0 <= j < i ==> es[j].ticket.threadId != channelId
  }

  /** Index of the first entry, in enumeration order, whose ticket lives in thread `threadId`. */
  function FirstInThread(es: seq<Entry>, threadId: string): (r: Option<nat>)
    ensures r.Some? ==> FirstInChannel(es, threadId, r.value)
    ensures r.None? <==> forall j :: 0 <= j < |es| ==> es[j].ticket.threadId != threadId
  {
    if es == [] then None
    else if es[0].ticket.threadId == threadId then Some(0)
    else match FirstInThread(es[1..], threadId)
      case None => None
      case Some(i) => Some(i + 1)
  }

  /**
   * The lookup of both the close button and the message handler: a search of
   * the key list for the first key, in enumeration order, whose ticket is
   * bound to the thread; `None` stands for the search's `undefined`.
   */
  function FindByThread(reg: Registry, threadId: string): (r: Option<string>)
    ensures r.Some? <==> exists i :: 0 <= i < |reg| && reg[i].ticket.threadId == threadId
    ensures r.Some? ==> exists i :: FirstInChannel(reg, threadId, i) && reg[i].key == r.value
  {
    match FirstInThread(reg, threadId)
    case None => None
    case Some(i) => Some(reg[i].key)
  }

  /** The ticket found by `FindByThread` is bound to the thread that was searched. */
  lemma FindByThreadGet(reg: Registry, threadId: string)
    requires FindByThread(reg, threadId).Some?
    ensures Get(reg, FindByThread(reg, threadId).value).Some?
    ensures Get(reg, FindByThread(reg, threadId).value).value.threadId == threadId
  {
    var i := FirstInThread(reg, threadId).value;
    GetAt(reg, i);
  }

  /** The ticket `FindByThread` returns is the first entry bound to the channel. */
  lemma FindByThreadFirst(reg: Registry, channelId: string)
    requires FindByThread(reg, channelId).Some?
    ensures exists i ::
              && FirstInChannel(reg, channelId, i)
              && reg[i].key == FindByThread(reg, channelId).value
              && Get(reg, reg[i].key) == Some(reg[i].ticket)
  {
    var i := FirstInThread(reg, channelId).value;
    GetAt(reg, i);
  }

  /** Only one entry can be the first bound to a thread. */
  lemma FirstInChannelUnique(reg: Registry, channelId: string, i: int, j: int)
    requires FirstInChannel(reg, channelId, i) && FirstInChannel(reg, channelId, j)
    ensures i == j
  {
  }

  /** No two tickets are bound to the same thread. */
  predicate ThreadsUnique(reg: seq<Entry>) {
    forall i, j :: 0 <= i < j < |reg| ==> reg[i].ticket.threadId != reg[j].ticket.threadId
  }

  /** When no two tickets share a thread, the lookup finds the unique ticket of that thread. */
  lemma FindByThreadUnique(reg: Registry, i: nat)
    requires ThreadsUnique(reg)
    requires i < |reg|
    ensures FindByThread(reg, reg[i].ticket.threadId) == Some(reg[i].key)
  {
  }

  /** Replacing one entry by one bound to the same or to an unused thread keeps threads unique. */
  lemma ReplaceKeepsThreadsUnique(es: seq<Entry>, i: nat, e: Entry)
    requires i < |es| && ThreadsUnique(es)
    requires e.ticket.threadId == es[i].ticket.threadId
      || forall j :: 0 <= j < |es| ==> es[j].ticket.threadId != e.ticket.threadId
    ensures ThreadsUnique(es[i := e])
  {
  }

  /** Appending an entry bound to an unused thread keeps threads unique. */
  lemma AppendKeepsThreadsUnique(es: seq<Entry>, e: Entry)
    requires ThreadsUnique(es)
    requires forall j :: 0 <= j < |es| ==> es[j].ticket.threadId != e.ticket.threadId
    ensures ThreadsUnique(es + [e])
  {
  }

  /** Where `Put` writes: over the old entry of the key, or at the end. */
  lemma PutShape(reg: Registry, k: string, t: Ticket)
    ensures IndexOfKey(reg, k).Some? ==> Put(reg, k, t) == reg[IndexOfKey(reg, k).value := Entry(k, t)]
    ensures IndexOfKey(reg, k).None? ==> Put(reg, k, t) == reg + [Entry(k, t)]
  {
  }

  /** `tickets[k].status = 'closed'` for a key that is present; nothing else changes. */
  function SetClosed(reg: Registry, k: string): (r: Registry)
    requires Get(reg, k).Some?
    ensures Get(r, k) == Some(Get(reg, k).value.(status := Closed))
    ensures forall k' :: k' != k ==> Get(r, k') == Get(reg, k')
    ensures Keys(r) == Keys(reg)
  {
    GetSomeIff(reg, k);
    Put(reg, k, Get(reg, k).value.(status := Closed))
  }
}
