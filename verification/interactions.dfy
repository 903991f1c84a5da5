/**
 * The button handlers of `interactionCreate` that touch the registry: ticket
 * creation (bot.js:189-263, 301-304) and closing (bot.js:305-338). Fetching the
 * configured channel, creating the thread and sending direct messages are
 * parameters saying how they turned out, and so is the setup in the new
 * thread (`setupOk`, which covers the check mark on the staff message); the
 * other platform calls (replies, follow-ups, user fetches, the remaining
 * reactions, archiving) are taken to succeed.
 */
module Interactions {
  import opened Wrappers
  import opened Registry
  import opened CustomId
  import opened Dedup
  import opened Outbound

  /** The two process-wide variables: `tickets` and `sentMessages`. */
  datatype BotState = BotState(tickets: Registry, sent: set<string>)

  datatype User = User(id: string, username: string)

  /** What the platform does during ticket creation. */
  datatype CreateEnv = CreateEnv(
    channelFetched: bool,
    channelIsText: bool,
    canManageThreads: bool,
    canSendMessages: bool,
    /** The id of the created thread; `None` when creating it throws. */
    thread: Option<string>,
    /** The file write, the staff message, its reaction and the role ping all succeed. */
    setupOk: bool,
    /** The confirmation direct message resolves. */
    dmOk: bool)

  datatype CreateReply = Created | NotTextChannel | MissingPermissions | CreationFailed

  datatype CreateOutcome = CreateOutcome(
    state: BotState,
    reply: CreateReply,
    threadName: Option<string>,
    confirmation: Option<SendResult<Content>>)

  /**
   * The `create_ticket_<category>` button. The ticket is recorded as soon as
   * the thread exists, so a later failure still leaves it in the registry
   * while the user is told creation failed. The confirmation goes through the
   * ledger and is not awaited: its outcome never changes the reply.
   */
  function OnCreate(st: BotState, ser: Content -> string, category: string, user: User, ticketId: string, env: CreateEnv): (o: CreateOutcome)
    ensures o.reply == NotTextChannel <==> env.channelFetched && !env.channelIsText
    ensures o.reply == MissingPermissions <==>
      env.channelFetched && env.channelIsText && !(env.canManageThreads && env.canSendMessages)
    ensures o.threadName.Some? ==> env.thread.Some? && o.threadName.value == ThreadName(category, user.username)
    ensures o.threadName.None? ==> o.state == st
    ensures o.threadName.Some? ==>
      && Get(o.state.tickets, ticketId) == Some(Ticket(user.id, env.thread.value, category, Open))
      && (forall k :: k != ticketId ==> Get(o.state.tickets, k) == Get(st.tickets, k))
    ensures o.reply == Created <==> o.threadName.Some? && env.setupOk
    ensures o.confirmation.Some? <==> o.reply == Created
    ensures o.confirmation.Some? && o.confirmation.value.Delivered? ==>
      o.confirmation.value.delivery == Delivery(user.id, TicketCreated(category))
    ensures o.reply != Created ==> o.state.sent == st.sent
    ensures o.threadName.Some? <==>
      env.channelFetched && env.channelIsText && env.canManageThreads && env.canSendMessages && env.thread.Some?
    ensures o.confirmation.Some? ==>
      (o.confirmation.value.Suppressed? <==> MessageKey(user.id, ser, TicketCreated(category)) in st.sent)
    ensures o.confirmation.Some? && o.confirmation.value.Delivered? ==>
      o.state.sent == st.sent + {MessageKey(user.id, ser, TicketCreated(category))}
    ensures o.confirmation.Some? ==>
      (o.confirmation.value.Delivered? <==> MessageKey(user.id, ser, TicketCreated(category)) !in st.sent && env.dmOk)
    ensures o.confirmation.Some? && !o.confirmation.value.Delivered? ==> o.state.sent == st.sent
    ensures o.threadName.Some? ==> o.state.tickets == Create(st.tickets, ticketId, user.id, env.thread.value, category)
  {
    if !env.channelFetched then CreateOutcome(st, CreationFailed, None, None)
    else if !env.channelIsText then CreateOutcome(st, NotTextChannel, None, None)
    else if !(env.canManageThreads && env.canSendMessages) then CreateOutcome(st, MissingPermissions, None, None)
    else match env.thread
      case None => CreateOutcome(st, CreationFailed, None, None)
      case Some(threadId) =>
        var name := ThreadName(category, user.username);
        var tickets := Create(st.tickets, ticketId, user.id, threadId, category);
        if !env.setupOk then CreateOutcome(BotState(tickets, st.sent), CreationFailed, Some(name), None)
        else
          var s := SendUnique(st.sent, user.id, ser, TicketCreated(category), env.dmOk);
          CreateOutcome(BotState(tickets, s.ledger), Created, Some(name), Some(s.result))
  }

  /** Every platform call up to and including the setup in the new thread succeeds. */
  predicate SetupSucceeds(env: CreateEnv) {
    && env.channelFetched && env.channelIsText && env.canManageThreads && env.canSendMessages
    && env.thread.Some? && env.setupOk
  }

  /**
   * The confirmation's content depends only on the category, so once a user
   * has been confirmed a ticket in some category, creating another ticket in
   * that category sends them no confirmation at all.
   */
  lemma SecondTicketSameCategoryNotConfirmed(st: BotState, ser: Content -> string, category: string, user: User,
                                              id1: string, env1: CreateEnv, id2: string, env2: CreateEnv)
    requires SetupSucceeds(env1) && env1.dmOk && SetupSucceeds(env2)
    requires MessageKey(user.id, ser, TicketCreated(category)) !in st.sent
    ensures var first := OnCreate(st, ser, category, user, id1, env1);
      && first.reply == Created
      && first.confirmation == Some(Delivered(Delivery(user.id, TicketCreated(category))))
      && OnCreate(first.state, ser, category, user, id2, env2).reply == Created
      && OnCreate(first.state, ser, category, user, id2, env2).confirmation == Some(Suppressed)
  {
  }

  /**
   * The key the close button acts on: the first ticket bound to the channel,
   * if the channel is a thread and the key found is truthy.
   */
  function CloseTarget(reg: Registry, channelIsThread: bool, channelId: string): (r: Option<string>)
    ensures r.Some? ==> channelIsThread && r.value != ""
    ensures r.Some? ==> Get(reg, r.value).Some? && Get(reg, r.value).value.threadId == channelId
    ensures r.Some? ==> exists i :: FirstInChannel(reg, channelId, i) && reg[i].key == r.value
    ensures channelIsThread && (exists i :: FirstInChannel(reg, channelId, i) && reg[i].key != "") ==> r.Some?
    ensures (forall i :: 0 <= i < |reg| ==> reg[i].ticket.threadId != channelId) ==> r.None?
  {
    if !channelIsThread then None
    else match FindByThread(reg, channelId)
      case None => None
      case Some(k) =>
        FindByThreadGet(reg, channelId);
        FindByThreadFirst(reg, channelId);
        var j :| FirstInChannel(reg, channelId, j) && reg[j].key == k && Get(reg, reg[j].key) == Some(reg[j].ticket);
        forall i | FirstInChannel(reg, channelId, i) ensures i == j {
          FirstInChannelUnique(reg, channelId, i, j);
        }
        if k == "" then None else Some(k)
  }

  /** The registry write of the close button: no status check, only `status := Closed`. */
  function CloseTickets(reg: Registry, channelIsThread: bool, channelId: string): (r: Registry)
    ensures Keys(r) == Keys(reg)
    ensures forall k :: Get(reg, k).Some? ==>
      (Get(r, k).Some? && Get(r, k).value.(status := Get(reg, k).value.status) == Get(reg, k).value)
    ensures forall k :: Get(reg, k).Some? && Get(reg, k).value.status == Closed ==> Get(r, k) == Get(reg, k)
    ensures forall k :: Get(reg, k).Some? && Get(reg, k).value.threadId != channelId ==> Get(r, k) == Get(reg, k)
    ensures !channelIsThread ==> r == reg
    ensures forall k :: CloseTarget(reg, channelIsThread, channelId) != Some(k) ==> Get(r, k) == Get(reg, k)
    ensures CloseTarget(reg, channelIsThread, channelId).Some? ==>
      Get(r, CloseTarget(reg, channelIsThread, channelId).value).value.status == Closed
  {
    match CloseTarget(reg, channelIsThread, channelId)
    case None => reg
    case Some(k) =>
      var r := SetClosed(reg, k);
      assert forall k' :: Get(reg, k').Some? ==>
        (Get(r, k').Some? && Get(r, k').value.(status := Get(reg, k').value.status) == Get(reg, k').value) by {
        forall k' | Get(reg, k').Some?
          ensures Get(r, k').Some? && Get(r, k').value.(status := Get(reg, k').value.status) == Get(reg, k').value
        {
          if k' != k { assert Get(r, k') == Get(reg, k'); }
        }
      }
      r
  }

  datatype CloseReply = ClosedNotice | NotATicket | NotAThread

  datatype CloseOutcome = CloseOutcome(state: BotState, reply: CloseReply, notice: Option<SendResult<Content>>, archived: bool)

  /**
   * The `close_ticket` button. The status is written before anything is sent;
   * the owner's notice carries the closing time and goes through the ledger;
   * the thread is archived unless that send throws.
   */
  function OnClose(st: BotState, ser: Content -> string, channelIsThread: bool, channelId: string, now: int, dmOk: bool): (o: CloseOutcome)
    ensures o.reply == NotAThread <==> !channelIsThread
    ensures o.reply == ClosedNotice <==> CloseTarget(st.tickets, channelIsThread, channelId).Some?
    ensures o.reply != ClosedNotice ==> o.state == st && o.notice.None? && !o.archived
    ensures o.state.tickets == CloseTickets(st.tickets, channelIsThread, channelId)
    ensures o.reply == ClosedNotice ==>
      var k := CloseTarget(st.tickets, channelIsThread, channelId).value;
      && Get(o.state.tickets, k) == Some(Get(st.tickets, k).value.(status := Closed))
      && o.notice.Some?
      && (o.notice.value.Delivered? ==>
            o.notice.value.delivery == Delivery(Get(st.tickets, k).value.userId,
                                                TicketClosed(Get(st.tickets, k).value.category, now)))
      && (o.archived <==> !o.notice.value.SendFailed?)
    ensures o.reply == ClosedNotice ==>
      var t := Get(st.tickets, CloseTarget(st.tickets, channelIsThread, channelId).value).value;
      var key := MessageKey(t.userId, ser, TicketClosed(t.category, now));
      && (o.notice.value.Suppressed? <==> key in st.sent)
      && (o.notice.value.Delivered? <==> key !in st.sent && dmOk)
      && (o.notice.value.Delivered? ==> o.state.sent == st.sent + {key})
      && (!o.notice.value.Delivered? ==> o.state.sent == st.sent)
    ensures st.sent <= o.state.sent
  {
    match CloseTarget(st.tickets, channelIsThread, channelId)
    case None =>
      CloseOutcome(st, if channelIsThread then NotATicket else NotAThread, None, false)
    case Some(k) =>
      var tickets := SetClosed(st.tickets, k);
      var t := Get(tickets, k).value;
      var s := SendUnique(st.sent, t.userId, ser, TicketClosed(t.category, now), dmOk);
      CloseOutcome(BotState(tickets, s.ledger), ClosedNotice, Some(s.result), !s.result.SendFailed?)
  }

  /** Closing twice leaves the registry as closing once. */
  lemma CloseIdempotent(st: BotState, ser: Content -> string, channelIsThread: bool, channelId: string,
                        now1: int, ok1: bool, now2: int, ok2: bool)
    ensures var once := OnClose(st, ser, channelIsThread, channelId, now1, ok1).state;
      OnClose(once, ser, channelIsThread, channelId, now2, ok2).state.tickets == once.tickets
  {
    var once := OnClose(st, ser, channelIsThread, channelId, now1, ok1).state;
    match CloseTarget(st.tickets, channelIsThread, channelId)
    case None =>
    case Some(k) =>
      assert CloseTarget(once.tickets, channelIsThread, channelId) == Some(k) by {
        CloseTargetStable(st.tickets, channelIsThread, channelId, k);
      }
      var t := Get(once.tickets, k).value;
      assert t.status == Closed;
      PutSame(once.tickets, k);
  }

  /** Overwriting a key with its own record changes nothing. */
  lemma PutSame(reg: Registry, k: string)
    requires Get(reg, k).Some?
    ensures Put(reg, k, Get(reg, k).value) == reg
  {
    var i := IndexOfKey(reg, k).value;
    assert reg[i := Entry(k, reg[i].ticket)] == reg;
  }

  /** Closing a ticket keeps it the target of its thread. */
  lemma CloseTargetStable(reg: Registry, channelIsThread: bool, channelId: string, k: string)
    requires CloseTarget(reg, channelIsThread, channelId) == Some(k)
    ensures CloseTarget(SetClosed(reg, k), channelIsThread, channelId) == Some(k)
  {
    var i := IndexOfKey(reg, k).value;
    PutShape(reg, k, reg[i].ticket.(status := Closed));
    CloseTargetSameShape(reg, SetClosed(reg, k), channelIsThread, channelId);
  }

  /** The close target depends only on the keys and threads of the entries. */
  lemma CloseTargetSameShape(a: Registry, b: Registry, channelIsThread: bool, channelId: string)
    requires |a| == |b|
    requires forall j :: 0 <= j < |a| ==> a[j].key == b[j].key && a[j].ticket.threadId == b[j].ticket.threadId
    ensures CloseTarget(a, channelIsThread, channelId) == CloseTarget(b, channelIsThread, channelId)
  {
    FirstInThreadSameThreads(a, b, channelId);
  }

  lemma {:induction false} FirstInThreadSameThreads(a: seq<Entry>, b: seq<Entry>, threadId: string)
    requires |a| == |b|
    requires forall j :: 0 <= j < |a| ==> a[j].ticket.threadId == b[j].ticket.threadId
    ensures FirstInThread(a, threadId) == FirstInThread(b, threadId)
  {
    if a != [] {
      FirstInThreadSameThreads(a[1..], b[1..], threadId);
    }
  }

  /**
   * There is no status check before closing: closing an already closed
   * ticket answers as before and notifies the owner again, and a notice
   * stamped with a different time is not caught by the ledger.
   */
  lemma CloseTwiceNotifiesTwice(st: BotState, ser: Content -> string, i: nat, now1: int, now2: int)
    requires Injective(ser)
    requires i < |st.tickets| && st.tickets[i].key != ""
    requires forall j :: 0 <= j < i ==> st.tickets[j].ticket.threadId != st.tickets[i].ticket.threadId
    requires now1 != now2
    requires MessageKey(st.tickets[i].ticket.userId, ser, TicketClosed(st.tickets[i].ticket.category, now2)) !in st.sent
    ensures var channelId := st.tickets[i].ticket.threadId;
      var once := OnClose(st, ser, true, channelId, now1, true);
      var twice := OnClose(once.state, ser, true, channelId, now2, true);
      && once.reply == ClosedNotice && twice.reply == ClosedNotice
      && twice.notice == Some(Delivered(Delivery(st.tickets[i].ticket.userId,
                                                 TicketClosed(st.tickets[i].ticket.category, now2))))
  {
    var channelId := st.tickets[i].ticket.threadId;
    var t := st.tickets[i].ticket;
    var once := OnClose(st, ser, true, channelId, now1, true);
    FirstCloseFacts(st, ser, i, now1);
    var k1 := MessageKey(t.userId, ser, TicketClosed(t.category, now1));
    var k2 := MessageKey(t.userId, ser, TicketClosed(t.category, now2));
    assert k1 != k2;
    NewNoticeDelivered(once.state, ser, channelId, st.tickets[i].key, t.(status := Closed), now2);
  }

  /** After closing the first ticket of a thread, the thread still targets it, now closed. */
  lemma FirstCloseFacts(st: BotState, ser: Content -> string, i: nat, now: int)
    requires i < |st.tickets| && st.tickets[i].key != ""
    requires forall j :: 0 <= j < i ==> st.tickets[j].ticket.threadId != st.tickets[i].ticket.threadId
    ensures var t := st.tickets[i].ticket;
      var once := OnClose(st, ser, true, t.threadId, now, true);
      && once.reply == ClosedNotice
      && CloseTarget(once.state.tickets, true, t.threadId) == Some(st.tickets[i].key)
      && Get(once.state.tickets, st.tickets[i].key) == Some(t.(status := Closed))
      && once.state.sent <= st.sent + {MessageKey(t.userId, ser, TicketClosed(t.category, now))}
  {
    var channelId := st.tickets[i].ticket.threadId;
    CloseTargetAt(st.tickets, channelId, i);
    GetAt(st.tickets, i);
    CloseTargetStable(st.tickets, true, channelId, st.tickets[i].key);
  }

  /** A close whose target's notice key is new delivers that notice when the send resolves. */
  lemma NewNoticeDelivered(st: BotState, ser: Content -> string, channelId: string, k: string, t: Ticket, now: int)
    requires CloseTarget(st.tickets, true, channelId) == Some(k)
    requires Get(st.tickets, k) == Some(t)
    requires MessageKey(t.userId, ser, TicketClosed(t.category, now)) !in st.sent
    ensures OnClose(st, ser, true, channelId, now, true).notice == Some(Delivered(Delivery(t.userId, TicketClosed(t.category, now))))
  {
  }

  /** The first ticket bound to a thread, under a non-empty key, is the close target of that thread. */
  lemma CloseTargetAt(reg: Registry, channelId: string, i: nat)
    requires i < |reg| && reg[i].key != ""
    requires FirstInChannel(reg, channelId, i)
    ensures CloseTarget(reg, true, channelId) == Some(reg[i].key)
  {
    var j :| FirstInChannel(reg, channelId, j) && reg[j].key == CloseTarget(reg, true, channelId).value;
    FirstInChannelUnique(reg, channelId, i, j);
  }
}
