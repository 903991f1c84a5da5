/**
 * The contents the bot sends, reduced to what the ledger key and the relay
 * depend on: embed text, attachments and timestamps (bot.js:256-261,
 * 272-276, 323-327, 353-358, 365-370).
 */
module Outbound {
  import opened Wrappers
  import opened Attachments

  /** Accent of a copy sent to the ticket owner. */
  const ToOwnerColor: string := "#0099ff"
  /** Accent of a copy posted into the ticket thread. */
  const ToThreadColor: string := "#00ff00"

  /** A relayed copy: author, avatar, text, files (`null` when none), timestamp and accent. */
  datatype RelayCopy = RelayCopy(
    authorName: string,
    avatarUrl: string,
    text: string,
    files: Option<seq<FileRef>>,
    timestamp: int,
    color: string)

  datatype Content =
    /** The "Ticket Created" direct message: depends only on the category. */
    | TicketCreated(category: string)
    /** The "Ticket Closed" direct message, stamped with the closing time. */
    | TicketClosed(category: string, timestamp: int)
    | Relayed(copy: RelayCopy)

  /** An inbound chat message, as the `messageCreate` handler sees it. */
  datatype Message = Message(
    authorIsBot: bool,
    authorName: string,
    avatarUrl: string,
    channelId: string,
    channelIsDM: bool,
    senderIsStaff: bool,
    text: string,
    attachments: seq<Attachment>)

  /** The embed built from a message, with its files, at time `now`. */
  function CopyOf(m: Message, now: int, color: string): (c: RelayCopy)
    ensures c.authorName == m.authorName && c.avatarUrl == m.avatarUrl && c.text == m.text
    ensures c.timestamp == now && c.color == color
    ensures c.files.None? <==> m.attachments == []
    ensures c.files.Some? ==> |c.files.value| == |m.attachments|
    ensures c.files.Some? ==> forall i :: 0 <= i < |m.attachments| ==>
      c.files.value[i] == FileRef(m.attachments[i].url, m.attachments[i].name)
  {
    RelayCopy(m.authorName, m.avatarUrl, m.text, HandleAttachments(m.attachments), now, color)
  }

  /** A relayed copy links exactly the URLs of the message's attachments, in order. */
  lemma CopyLinksAttachments(m: Message, now: int, color: string)
    requires m.attachments != []
    ensures CopyOf(m, now, color).files.Some?
    ensures FileUrls(CopyOf(m, now, color).files.value) == Urls(m.attachments)
  {
    UrlsPreserved(m.attachments);
  }
}
