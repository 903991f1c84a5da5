/**
 * The duplicate-suppression ledger of `sendUniqueMessage` (bot.js:380-394):
 * a process-wide set of keys `userId + ":" + JSON.stringify(content)`. The
 * serialisation is a parameter `ser`; the send itself is a foreign call whose
 * success is a parameter.
 */
module Dedup {

  /** The ledger key of a (recipient, content) pair. */
  function MessageKey<C>(userId: string, ser: C -> string, content: C): (k: string)
    ensures |k| == |userId| + 1 + |ser(content)|
    ensures k[..|userId|] == userId && k[|userId|] == ':' && k[|userId| + 1..] == ser(content)
  {
    userId + ":" + ser(content)
  }

  ghost predicate Injective<C(!new)>(ser: C -> string) {
    forall a, b :: ser(a) == ser(b) ==> a == b
  }

  predicate ColonFree(userId: string) {
    forall i :: 0 <= i < |userId| ==> userId[i] != ':'
  }

  /**
   * For recipients whose ids hold no colon (platform ids are digit strings),
   * the key determines the recipient and, under an injective serialisation,
   * the content.
   */
  lemma KeyInjective<C(!new)>(ser: C -> string, u1: string, c1: C, u2: string, c2: C)
    requires Injective(ser)
    requires ColonFree(u1) && ColonFree(u2)
    requires MessageKey(u1, ser, c1) == MessageKey(u2, ser, c2)
    ensures u1 == u2 && c1 == c2
  {
    var k := MessageKey(u1, ser, c1);
    assert u1 == k[..|u1|] == u2;
    assert ser(c1) == k[|u1| + 1..] == ser(c2);
  }

  /** Without the colon-free condition two different pairs can share a key. */
  lemma KeyCollision()
    ensures MessageKey("a", (s: string) => s, "b:c") == MessageKey("a:b", (s: string) => s, "c")
  {
  }

  datatype Delivery<C> = Delivery(to: string, content: C)

  /** `null` when suppressed, the sent message when the send resolves, a rejection when it throws. */
  datatype SendResult<C> = Suppressed | Delivered(delivery: Delivery<C>) | SendFailed

  datatype SendStep<C> = SendStep(ledger: set<string>, result: SendResult<C>)

  /**
   * One call of `sendUniqueMessage`. A present key suppresses the send; an
   * absent key sends, and only a send that resolves adds the key, after the
   * fact. Both source branches (with and without `files`) send the same
   * content, so they are one case here.
   */
  function SendUnique<C>(ledger: set<string>, userId: string, ser: C -> string, content: C, sendOk: bool): (s: SendStep<C>)
    ensures ledger <= s.ledger
    ensures s.result.Suppressed? <==> MessageKey(userId, ser, content) in ledger
    ensures s.result.Delivered? <==> MessageKey(userId, ser, content) !in ledger && sendOk
    ensures s.result.Delivered? ==> s.result.delivery == Delivery(userId, content)
    ensures s.result.Delivered? ==> s.ledger == ledger + {MessageKey(userId, ser, content)}
    ensures !s.result.Delivered? ==> s.ledger == ledger
  {
    var key := MessageKey(userId, ser, content);
    if key !in ledger then
      if sendOk then SendStep(ledger + {key}, Delivered(Delivery(userId, content)))
      else SendStep(ledger, SendFailed)
    else SendStep(ledger, Suppressed)
  }

  /** After a delivery, the same (recipient, content) pair is suppressed, whatever the platform would do. */
  lemma SecondSendSuppressed<C>(ledger: set<string>, userId: string, ser: C -> string, content: C, ok1: bool, ok2: bool)
    requires SendUnique(ledger, userId, ser, content, ok1).result.Delivered?
    ensures SendUnique(SendUnique(ledger, userId, ser, content, ok1).ledger, userId, ser, content, ok2)
      == SendStep(SendUnique(ledger, userId, ser, content, ok1).ledger, Suppressed)
  {
  }

  /** The ledger made of the keys of a set of deliveries. */
  ghost function LedgerOf<C(!new)>(ser: C -> string, ds: set<Delivery<C>>): set<string> {
    set d | d in ds :: MessageKey(d.to, ser, d.content)
  }

  /**
   * With colon-free recipients and an injective serialisation, a send is
   * suppressed exactly when that same pair was delivered before: no false
   * suppression, no duplicate delivery.
   */
  lemma SuppressedIffDeliveredBefore<C(!new)>(ser: C -> string, ds: set<Delivery<C>>, userId: string, content: C, sendOk: bool)
    requires Injective(ser)
    requires ColonFree(userId)
    requires forall d :: d in ds ==> ColonFree(d.to)
    ensures SendUnique(LedgerOf(ser, ds), userId, ser, content, sendOk).result.Suppressed?
      <==> Delivery(userId, content) in ds
  {
    var key := MessageKey(userId, ser, content);
    if key in LedgerOf(ser, ds) {
      var d :| d in ds && MessageKey(d.to, ser, d.content) == key;
      KeyInjective(ser, d.to, d.content, userId, content);
    }
  }

  datatype Request<C> = Request(userId: string, content: C, sendOk: bool)

  datatype Run<C> = Run(ledger: set<string>, delivered: seq<Delivery<C>>)

  /** A sequence of `sendUniqueMessage` calls against one ledger, collecting the deliveries in order. */
  function RunSends<C>(ledger: set<string>, ser: C -> string, reqs: seq<Request<C>>): (r: Run<C>)
    ensures ledger <= r.ledger
    ensures |r.delivered| <= |reqs|
    decreases |reqs|
  {
    if reqs == [] then Run(ledger, [])
    else
      var s := SendUnique(ledger, reqs[0].userId, ser, reqs[0].content, reqs[0].sendOk);
      var rest := RunSends(s.ledger, ser, reqs[1..]);
      match s.result
      case Delivered(d) => Run(rest.ledger, [d] + rest.delivered)
      case _ => rest
  }

  /** The ledger keys of a list of deliveries. */
  function DeliveredKeys<C>(ser: C -> string, ds: seq<Delivery<C>>): set<string> {
    if ds == [] then {} else {MessageKey(ds[0].to, ser, ds[0].content)} + DeliveredKeys(ser, ds[1..])
  }

  lemma {:induction false} DeliveredKeysHas<C>(ser: C -> string, ds: seq<Delivery<C>>, i: nat)
    requires i < |ds|
    ensures MessageKey(ds[i].to, ser, ds[i].content) in DeliveredKeys(ser, ds)
  {
    if i > 0 {
      DeliveredKeysHas(ser, ds[1..], i - 1);
    }
  }

  /**
   * The ledger only grows, and by exactly the keys of the deliveries made,
   * none of which was in the starting ledger.
   */
  lemma {:induction false} RunLedger<C>(ledger: set<string>, ser: C -> string, reqs: seq<Request<C>>)
    ensures RunSends(ledger, ser, reqs).ledger == ledger + DeliveredKeys(ser, RunSends(ledger, ser, reqs).delivered)
    ensures ledger !! DeliveredKeys(ser, RunSends(ledger, ser, reqs).delivered)
    decreases |reqs|
  {
    if reqs != [] {
      var s := SendUnique(ledger, reqs[0].userId, ser, reqs[0].content, reqs[0].sendOk);
      RunLedger(s.ledger, ser, reqs[1..]);
      var rest := RunSends(s.ledger, ser, reqs[1..]);
      if s.result.Delivered? {
        var r := RunSends(ledger, ser, reqs);
        assert r.delivered[1..] == rest.delivered;
      }
    }
  }

  /** A repeated (recipient, content) pair is delivered at most once over any run of sends. */
  lemma {:induction false} DeliveredAtMostOnce<C>(ledger: set<string>, ser: C -> string, reqs: seq<Request<C>>)
    ensures var d := RunSends(ledger, ser, reqs).delivered;
      forall i, j :: 0 <= i < j < |d| ==> d[i] != d[j]
    decreases |reqs|
  {
    if reqs != [] {
      var s := SendUnique(ledger, reqs[0].userId, ser, reqs[0].content, reqs[0].sendOk);
      DeliveredAtMostOnce(s.ledger, ser, reqs[1..]);
      RunLedger(s.ledger, ser, reqs[1..]);
      var rest := RunSends(s.ledger, ser, reqs[1..]);
      if s.result.Delivered? {
        var d := RunSends(ledger, ser, reqs).delivered;
        assert d[1..] == rest.delivered;
        forall j | 0 < j < |d| ensures d[0] != d[j] {
          DeliveredKeysHas(ser, rest.delivered, j - 1);
        }
      }
    }
  }
}
