/**
 * The `messageCreate` handler (bot.js:342-377): which ticket a message
 * belongs to, and whether and where a copy goes.
 */
module Relay {
  import opened Wrappers
  import opened Registry
  import opened Dedup
  import opened Outbound

  datatype Destination = NoRelay | ToOwner(userId: string) | ToThread(threadId: string)

  /**
   * Entry `i` is the ticket a message in `channelId` is handled for: the
   * first match, found under a truthy (non-empty) key, and still open.
   */
  predicate ActiveIn(reg: Registry, channelId: string, i: int) {
    FirstInChannel(reg, channelId, i) && reg[i].key != "" && reg[i].ticket.status == Open
  }

  /**
   * The routing decision. The DM branch is kept as written: it fires only when
   * the DM channel's id is itself some ticket's thread id.
   */
  function Route(authorIsBot: bool, channelId: string, channelIsDM: bool, senderIsStaff: bool, reg: Registry): (d: Destination)
    ensures authorIsBot ==> d == NoRelay
    ensures (forall i :: 0 <= i < |reg| ==> reg[i].ticket.threadId != channelId) ==> d == NoRelay
    ensures (forall i :: 0 <= i < |reg| && reg[i].ticket.threadId == channelId ==> reg[i].ticket.status == Closed)
      ==> d == NoRelay
    ensures d.ToOwner? ==> senderIsStaff && exists i :: ActiveIn(reg, channelId, i) && reg[i].ticket.userId == d.userId
    ensures d.ToThread? ==> !senderIsStaff && channelIsDM && d.threadId == channelId
  {
    if authorIsBot then NoRelay
    else match FindByThread(reg, channelId)
      case None => NoRelay
      case Some(key) =>
        if key == "" then NoRelay
        else
          FindByThreadGet(reg, channelId);
          var ticket := Get(reg, key).value;
          if ticket.status != Open then NoRelay
          else if senderIsStaff then
            FindByThreadFirst(reg, channelId);
            ToOwner(ticket.userId)
          else if channelIsDM then ToThread(ticket.threadId)
          else NoRelay
  }

  /** Staff messages in an active ticket's thread go to that ticket's owner, and nothing else does. */
  lemma RouteToOwnerIff(authorIsBot: bool, channelId: string, channelIsDM: bool, senderIsStaff: bool, reg: Registry, userId: string)
    ensures Route(authorIsBot, channelId, channelIsDM, senderIsStaff, reg) == ToOwner(userId)
      <==> !authorIsBot && senderIsStaff && exists i :: ActiveIn(reg, channelId, i) && reg[i].ticket.userId == userId
  {
    if !authorIsBot && senderIsStaff && exists i :: ActiveIn(reg, channelId, i) && reg[i].ticket.userId == userId {
      var i :| ActiveIn(reg, channelId, i) && reg[i].ticket.userId == userId;
      assert FindByThread(reg, channelId).Some?;
      FindByThreadFirst(reg, channelId);
      var j :| FirstInChannel(reg, channelId, j) && reg[j].key == FindByThread(reg, channelId).value
        && Get(reg, reg[j].key) == Some(reg[j].ticket);
      FirstInChannelUnique(reg, channelId, i, j);
    }
  }

  /** A non-staff message goes to a thread exactly when its DM channel is an active ticket's thread. */
  lemma RouteToThreadIff(authorIsBot: bool, channelId: string, channelIsDM: bool, senderIsStaff: bool, reg: Registry, threadId: string)
    ensures Route(authorIsBot, channelId, channelIsDM, senderIsStaff, reg) == ToThread(threadId)
      <==> (!authorIsBot && !senderIsStaff && channelIsDM && threadId == channelId
            && exists i :: ActiveIn(reg, channelId, i))
  {
    if !authorIsBot && FindByThread(reg, channelId).Some? {
      FindByThreadFirst(reg, channelId);
      var j :| FirstInChannel(reg, channelId, j) && reg[j].key == FindByThread(reg, channelId).value
        && Get(reg, reg[j].key) == Some(reg[j].ticket);
      forall i | ActiveIn(reg, channelId, i) ensures i == j {
        FirstInChannelUnique(reg, channelId, i, j);
      }
      if Route(authorIsBot, channelId, channelIsDM, senderIsStaff, reg).ToThread? {
        assert ActiveIn(reg, channelId, j);
      }
    }
  }

  /** A ticket that is closed receives no relay, whoever writes in its thread. */
  lemma ClosedTicketNotRelayed(authorIsBot: bool, channelIsDM: bool, senderIsStaff: bool, reg: Registry, i: nat)
    requires i < |reg|
    requires FirstInChannel(reg, reg[i].ticket.threadId, i) && reg[i].ticket.status == Closed
    ensures Route(authorIsBot, reg[i].ticket.threadId, channelIsDM, senderIsStaff, reg) == NoRelay
  {
    var ch := reg[i].ticket.threadId;
    assert FindByThread(reg, ch).Some?;
    FindByThreadFirst(reg, ch);
    var j :| FirstInChannel(reg, ch, j) && reg[j].key == FindByThread(reg, ch).value
      && Get(reg, reg[j].key) == Some(reg[j].ticket);
    FirstInChannelUnique(reg, ch, i, j);
  }

  datatype Effect =
    | NoEffect
    /** `sendUniqueMessage` to the ticket owner, with its result. */
    | OwnerSend(result: SendResult<Content>)
    /** `thread.send` of a copy, and whether it resolved. */
    | ThreadSend(threadId: string, content: Content, sent: bool)

  /** The ledger after the message, the one outbound effect, and which messages got the check-mark reaction. */
  datatype MessageOutcome = MessageOutcome(ledger: set<string>, effect: Effect, ackedCopy: bool, ackedOriginal: bool)

  /**
   * The whole handler: route, build the copy at time `now`, send it (through
   * the ledger only on the way to the owner) and react. A rejected send ends
   * the handler before any reaction.
   */
  function OnMessage(reg: Registry, ledger: set<string>, ser: Content -> string, m: Message, now: int, sendOk: bool): (o: MessageOutcome)
    ensures ledger <= o.ledger
    ensures o.effect.NoEffect? <==> Route(m.authorIsBot, m.channelId, m.channelIsDM, m.senderIsStaff, reg) == NoRelay
    ensures o.effect.NoEffect? ==> o.ledger == ledger && !o.ackedCopy && !o.ackedOriginal
    ensures o.effect.OwnerSend? ==> Route(m.authorIsBot, m.channelId, m.channelIsDM, m.senderIsStaff, reg).ToOwner?
    ensures o.effect.OwnerSend? && o.effect.result.Delivered? ==>
      o.effect.result.delivery.to == Route(m.authorIsBot, m.channelId, m.channelIsDM, m.senderIsStaff, reg).userId
    ensures o.ackedCopy <==> (o.effect.OwnerSend? && o.effect.result.Delivered?) || (o.effect.ThreadSend? && o.effect.sent)
    ensures o.ackedOriginal <==> o.ackedCopy || (o.effect.OwnerSend? && o.effect.result.Suppressed?)
    ensures o.effect.ThreadSend? ==>
      && Route(m.authorIsBot, m.channelId, m.channelIsDM, m.senderIsStaff, reg) == ToThread(o.effect.threadId)
      && o.effect.content == Relayed(CopyOf(m, now, ToThreadColor))
      && o.effect.sent == sendOk
      && o.ledger == ledger
    ensures o.effect.OwnerSend? ==>
      var key := MessageKey(Route(m.authorIsBot, m.channelId, m.channelIsDM, m.senderIsStaff, reg).userId,
                            ser, Relayed(CopyOf(m, now, ToOwnerColor)));
      && (o.effect.result.Suppressed? <==> key in ledger)
      && (o.effect.result.Delivered? <==> key !in ledger && sendOk)
      && (o.effect.result.Delivered? ==> o.ledger == ledger + {key})
      && (!o.effect.result.Delivered? ==> o.ledger == ledger)
    ensures o.effect.OwnerSend? && o.effect.result.Delivered? ==>
      o.effect.result.delivery.content == Relayed(CopyOf(m, now, ToOwnerColor))
  {
    match Route(m.authorIsBot, m.channelId, m.channelIsDM, m.senderIsStaff, reg)
    case NoRelay => MessageOutcome(ledger, NoEffect, false, false)
    case ToOwner(userId) =>
      var s := SendUnique(ledger, userId, ser, Relayed(CopyOf(m, now, ToOwnerColor)), sendOk);
      MessageOutcome(s.ledger, OwnerSend(s.result), s.result.Delivered?, !s.result.SendFailed?)
    case ToThread(threadId) =>
      MessageOutcome(ledger, ThreadSend(threadId, Relayed(CopyOf(m, now, ToThreadColor)), sendOk), sendOk, sendOk)
  }

  /**
   * A staff message in an open ticket's thread, whose copy is new to the
   * ledger and whose send resolves, reaches the owner exactly once, carries
   * the message's text, and both messages get the check-mark.
   */
  lemma StaffMessageRelayedOnce(reg: Registry, ledger: set<string>, ser: Content -> string, m: Message, now: int, i: nat)
    requires !m.authorIsBot && m.senderIsStaff && ActiveIn(reg, m.channelId, i)
    requires MessageKey(reg[i].ticket.userId, ser, Relayed(CopyOf(m, now, ToOwnerColor))) !in ledger
    ensures var o := OnMessage(reg, ledger, ser, m, now, true);
      && o.effect == OwnerSend(Delivered(Delivery(reg[i].ticket.userId, Relayed(CopyOf(m, now, ToOwnerColor)))))
      && o.effect.result.delivery.content.copy.text == m.text
      && o.ackedCopy && o.ackedOriginal
  {
    RouteToOwnerIff(m.authorIsBot, m.channelId, m.channelIsDM, m.senderIsStaff, reg, reg[i].ticket.userId);
  }
}
