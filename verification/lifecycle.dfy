/**
 * Runs of registry writes. The only writes the bot makes to a ticket are the
 * whole `open` record at creation (bot.js:222-227) and `status = 'closed'`
 * at close (bot.js:311).
 */
module Lifecycle {
  import opened Wrappers
  import opened Registry
  import opened Interactions

  datatype Op =
    | CreateOp(id: string, userId: string, threadId: string, category: string)
    | CloseOp(channelIsThread: bool, channelId: string)

  function Apply(reg: Registry, op: Op): Registry {
    match op
    case CreateOp(id, userId, threadId, category) => Create(reg, id, userId, threadId, category)
    case CloseOp(channelIsThread, channelId) => CloseTickets(reg, channelIsThread, channelId)
  }

  function ApplyAll(reg: Registry, ops: seq<Op>): Registry
    decreases |ops|
  {
    if ops == [] then reg else ApplyAll(Apply(reg, ops[0]), ops[1..])
  }

  /** A single write turns a closed ticket open only when it is a creation that reuses the ticket's id. */
  lemma OnlyCreationOpens(reg: Registry, op: Op, k: string)
    requires Get(reg, k).Some? && Get(reg, k).value.status == Closed
    ensures Get(Apply(reg, op), k).Some?
    ensures Get(Apply(reg, op), k).value.status == Open ==> op.CreateOp? && op.id == k
  {
  }

  /**
   * Along any run that never reuses its id for a creation, a closed ticket
   * stays closed, with the same owner, thread and category.
   */
  lemma {:induction false} ClosedStaysClosed(reg: Registry, ops: seq<Op>, k: string)
    requires Get(reg, k).Some? && Get(reg, k).value.status == Closed
    requires forall i :: 0 <= i < |ops| ==> !(ops[i].CreateOp? && ops[i].id == k)
    ensures Get(ApplyAll(reg, ops), k) == Get(reg, k)
    decreases |ops|
  {
    if ops != [] {
      assert Get(Apply(reg, ops[0]), k) == Get(reg, k);
      ClosedStaysClosed(Apply(reg, ops[0]), ops[1..], k);
    }
  }

  /** Tickets are never deleted: every key stays, in its place. */
  lemma {:induction false} KeysOnlyGrow(reg: Registry, ops: seq<Op>)
    ensures |Keys(reg)| <= |Keys(ApplyAll(reg, ops))|
    ensures Keys(ApplyAll(reg, ops))[..|Keys(reg)|] == Keys(reg)
    decreases |ops|
  {
    if ops != [] {
      var next := Apply(reg, ops[0]);
      assert Keys(next)[..|Keys(reg)|] == Keys(reg);
      KeysOnlyGrow(next, ops[1..]);
      assert Keys(ApplyAll(reg, ops))[..|Keys(next)|][..|Keys(reg)|] == Keys(ApplyAll(reg, ops))[..|Keys(reg)|];
    }
  }

  /**
   * Each thread is bound to at most one ticket as long as every creation uses
   * a thread no ticket is bound to yet (the platform hands out fresh thread ids).
   */
  lemma ThreadsUniquePreserved(reg: Registry, op: Op)
    requires ThreadsUnique(reg)
    requires op.CreateOp? ==> forall i :: 0 <= i < |reg| ==> reg[i].ticket.threadId != op.threadId
    ensures ThreadsUnique(Apply(reg, op))
  {
    match op
    case CreateOp(id, userId, threadId, category) =>
      var t := Ticket(userId, threadId, category, Open);
      PutShape(reg, id, t);
      if IndexOfKey(reg, id).Some? {
        ReplaceKeepsThreadsUnique(reg, IndexOfKey(reg, id).value, Entry(id, t));
      } else {
        AppendKeepsThreadsUnique(reg, Entry(id, t));
      }
    case CloseOp(channelIsThread, channelId) =>
      match CloseTarget(reg, channelIsThread, channelId)
      case None =>
      case Some(k) =>
        var i := IndexOfKey(reg, k).value;
        PutShape(reg, k, reg[i].ticket.(status := Closed));
        ReplaceKeepsThreadsUnique(reg, i, Entry(k, reg[i].ticket.(status := Closed)));
  }
}
