# Support-ticket bot: registry, routing and duplicate suppression

A Dafny model of the core logic of `bot.js`, a chat-platform
support-ticket bot. The rest of the file is glue over the chat SDK. The model covers:

- the **ticket registry**, a JavaScript object keyed by ticket id. It is modelled as an
  insertion-ordered sequence of (key, ticket) entries with distinct keys. It covers creation
  (`tickets[id] = {…, status: 'open'}`), lookup of the first ticket bound to a thread,
  and closing (`status = 'closed'`, with no check of the prior status);
- the **button ids** `create_ticket_<category>` and their decoding with `startsWith` and
  `replace`, the dispatch of `interactionCreate`, and the thread name `<category> - <username>`;
- the **relay routing** of `messageCreate`, first as a pure decision (`Relay.Route`), then as
  the whole handler with its send and check-mark reactions (`Relay.OnMessage`);
- the **duplicate-suppression ledger** of `sendUniqueMessage`, whose key is
  `userId + ":" + serialize(content)`;
- the **attachment mapping** of `handleAttachments`.

Modules: `Wrappers` (Option), `Registry`, `CustomId`, `Attachments`, `Dedup`, `Outbound`
(the contents the bot sends), `Relay`, `Interactions` (the create and close buttons) and
`Lifecycle` (runs of registry writes).

Sending a message, fetching the configured channel and creating a thread are boolean or
optional parameters saying how the call turned out. Fetching users and channels, replying,
follow-ups, archiving and every reaction except the check mark on the new thread's staff
message are assumed to succeed (see "Left out"). That check mark, the file write and the
staff messages of a new ticket together form the `setupOk` parameter of `Interactions.OnCreate`. The clock
(`Date.now()`) is a parameter too. So is the serialisation `JSON.stringify`, as a function
`ser`. Properties that need `ser` to be injective assume so explicitly.

Behaviour of `bot.js` that the model keeps as written:

- The DM branch of `messageCreate` (bot.js:362-374) relays a message to a thread only when
  the DM channel's id equals the thread id of an active ticket (`Relay.RouteToThreadIff`).
  The model assumes nothing about how the platform assigns ids, so the branch is modelled
  as written. Direct messages that the owner sends are relayed by the per-ticket message
  collectors, which are left out.
- Ticket ids come from `Date.now()`. Two creations in the same millisecond reuse an id. The
  second overwrites the first in place, and its status becomes `open` again
  (`Registry.Create`, `Lifecycle.OnlyCreationOpens`).
- The ticket is recorded as soon as the thread exists. A later failure still reports
  "unable to create" and leaves the ticket in the registry (`Interactions.OnCreate`).
- The "Ticket Created" direct message goes through the ledger, and its content depends only
  on the category. So a user's second ticket in the same category gets no confirmation
  (`Interactions.SecondTicketSameCategoryNotConfirmed`).
- `sendUniqueMessage` is declared twice. The later `async` declaration (bot.js:380-394)
  replaces the earlier one (bot.js:81-91) by hoisting, so only the later one is modelled.

## Model

| member | source | states |
|---|---|---|
| Registry.Keys | bot.js:309 | the keys are listed one per entry, in enumeration order |
| Registry.Get | bot.js:311 | reading a key gives a ticket exactly when some entry has that key, and then it is that entry's ticket; otherwise `undefined` |
| Registry.Put | bot.js:222-227 | assigning a key makes it map to the new record and leaves every other key's record unchanged; an existing key keeps its position in key order, a new key is appended |
| Registry.Create | bot.js:221-227 | the given id maps to an open ticket with the given user, thread and category; all other tickets are unchanged; a repeated id overwrites in place instead of adding a key |
| Registry.FindByThread | bot.js:309 | finds a key exactly when some ticket is bound to the thread, and the key found is that of the first such ticket in key order |
| Registry.FindByThreadUnique | bot.js:346 | when no two tickets share a thread, the lookup returns the key of the one ticket bound to it |
| Registry.FindByThreadFirst | bot.js:309-311 | a key found for a thread is that of the first ticket bound to it, and reading that key gives back that ticket |
| Registry.FirstInChannelUnique | bot.js:309 | at most one position holds the first ticket bound to a thread |
| Registry.SetClosed | bot.js:311 | only the status of the closed ticket changes, to closed; owner, thread, category, other tickets and key order stay |
| CustomId.StartsWithConcat | bot.js:189 | an id starts with a prefix exactly when it is that prefix followed by some rest |
| CustomId.ReplaceFirst | bot.js:190 | the first occurrence of the pattern, and only it, is replaced; a leading occurrence leaves the replacement followed by the rest; with no occurrence the string is unchanged |
| CustomId.IndexOf | bot.js:190 | the index found is an occurrence of the pattern with no earlier occurrence; none is found only when the pattern does not occur at all |
| CustomId.Encode | bot.js:182 | the button id starts with `create_ticket_` and the rest of it is the category |
| CustomId.Decode | bot.js:189-190 | an id decodes exactly when it starts with `create_ticket_`, and it decodes to the text after that prefix |
| CustomId.DecodeEncode | bot.js:182-190 | decoding the id built for any category returns that category |
| CustomId.EncodeDecode | bot.js:189-190 | every decodable id is the id built for the category it decodes to |
| CustomId.CategoriesRoundTrip | bot.js:179-186 | each of the three offered categories survives the round trip, and they get pairwise distinct button ids |
| CustomId.ThreadName | bot.js:214 | the thread name is the category, then the separator ` - `, then the username |
| CustomId.ThreadNameSplits | bot.js:214 | a category without a hyphen and the username are recovered by splitting the thread name at its first separator |
| CustomId.CategoriesHaveNoHyphen | bot.js:76 | none of the offered categories contains a hyphen |
| CustomId.CategoryNamesSplit | bot.js:214 | the thread name of every offered category splits back into that category and the username |
| CustomId.Dispatch | bot.js:168-190 | `/ticket`, and only it, shows one button per category in order; another slash command is rejected, because it has no custom id; a button creates a ticket exactly when its id has the create prefix, and for the category encoded in it; only `close_ticket` closes; any other button, and any other interaction, does nothing |
| CustomId.PickerButtonsCreate | bot.js:179-190 | every button shown by `/ticket` leads to creating a ticket of its own category |
| Attachments.ToFileRefs | bot.js:400-403 | one reference per attachment, in order, carrying its URL and name |
| Attachments.HandleAttachments | bot.js:397-406 | no attachments gives null; otherwise a non-empty list pairing each attachment's URL with its name, in order |
| Attachments.UrlsPreserved | bot.js:400-403 | the relayed files link the same URLs, in the same order |
| Attachments.ToFileRefsAppend | bot.js:400-403 | the mapping treats attachments one by one: mapping a concatenation concatenates the mappings |
| Dedup.MessageKey | bot.js:381 | the key is the user id, a colon, then the serialised content |
| Dedup.KeyInjective | bot.js:381 | for colon-free user ids and an injective serialisation, equal keys mean the same recipient and the same content |
| Dedup.KeyCollision | bot.js:381 | with a colon in a user id, two different (user, content) pairs can share a key |
| Dedup.SendUnique | bot.js:380-394 | a present key suppresses the send and leaves the ledger; an absent key sends to the given user; the key is added only when the send resolves; the ledger never shrinks |
| Dedup.SecondSendSuppressed | bot.js:381-390 | after a delivery, the same (user, content) is suppressed whatever the platform would do |
| Dedup.SuppressedIffDeliveredBefore | bot.js:381-393 | for colon-free ids and an injective serialisation, a send is suppressed exactly when that same pair was delivered before |
| Dedup.RunLedger | bot.js:382-390 | over any run of sends the ledger grows by exactly the keys of the deliveries, none of which was in it before |
| Dedup.DeliveredAtMostOnce | bot.js:381-393 | over any run of sends that run one after another, no (user, content) pair is delivered twice |
| Outbound.CopyOf | bot.js:353-358 | a relayed copy carries the author's name and avatar, the text and the current time; its files are null exactly when there are no attachments, and otherwise reference each attachment's URL and name in order |
| Outbound.CopyLinksAttachments | bot.js:397-406 | a copy of a message with attachments links exactly the attachments' URLs, in order |
| Relay.Route | bot.js:342-377 | no destination for a bot author, for a channel no ticket is bound to, or when every ticket bound to it is closed; owner destinations go to a staff sender's active ticket's owner; thread destinations only for non-staff DM channels |
| Relay.RouteToOwnerIff | bot.js:346-352 | a message goes to a user exactly when it comes from staff, not a bot, in the thread of an active ticket that user owns |
| Relay.RouteToThreadIff | bot.js:346-364 | a message goes to a thread exactly when it is a non-staff, non-bot message in a DM channel whose id is that of an active ticket's thread, and the thread is that channel |
| Relay.ClosedTicketNotRelayed | bot.js:346-349 | when the first ticket bound to a thread is closed, nothing written there is relayed |
| Relay.OnMessage | bot.js:342-377 | there is at most one outbound effect, and exactly when routing finds a destination; a staff copy is offered to the routed owner under its ledger key, suppressed exactly when the key is recorded and delivered exactly when it is not and the send succeeds, recording the key only then; a DM copy goes to the routed thread and leaves the ledger alone; the copy is check-marked exactly when it was sent; the original is check-marked when the copy was sent or suppressed |
| Relay.StaffMessageRelayedOnce | bot.js:351-361 | within one handler call, a staff message in an active ticket's thread with a new copy is delivered once to the owner, carries the message's text, and both messages are check-marked |
| Interactions.OnCreate | bot.js:195-263 | channel, permission and thread-creation failures leave the state unchanged; the ticket is recorded exactly when the channel checks pass and the thread exists, and the registry is then the old one with the new id written as an open ticket for that user, thread and category; success is reported only if setup succeeded; only then is a confirmation for that category offered to the user through the ledger: suppressed exactly when its key is recorded, delivered exactly when it is not and the direct message resolves, recording the key only then and leaving the ledger as it was otherwise |
| Interactions.SecondTicketSameCategoryNotConfirmed | bot.js:256-261 | after a user was confirmed one ticket in a category, a second created ticket in that category gets its confirmation suppressed |
| Interactions.CloseTarget | bot.js:307-310 | only a thread channel yields a ticket to close; the key found is non-empty and is that of the first ticket bound to the thread; when that first ticket has a non-empty key, it is found |
| Interactions.CloseTargetAt | bot.js:308-310 | in a thread, the first ticket bound to it, under a non-empty key, is the one the close button targets |
| Interactions.CloseTickets | bot.js:305-312 | the targeted ticket ends up closed and every other ticket is unchanged; keys and every field but status are unchanged; a non-thread channel changes nothing |
| Interactions.OnClose | bot.js:305-338 | a non-thread channel or an untracked thread yields an error reply and changes nothing; otherwise the ticket becomes closed and the owner's notice for its category at the given time is offered through the ledger: suppressed exactly when its key is recorded, delivered exactly when it is not and the direct message resolves, recording the key only then; the thread is archived unless that send throws |
| Interactions.CloseIdempotent | bot.js:309-312 | closing twice leaves the registry as closing once |
| Interactions.CloseTwiceNotifiesTwice | bot.js:310-328 | with no status check, closing a closed ticket again replies as before and delivers a second notice when its time differs |
| Lifecycle.OnlyCreationOpens | bot.js:226 | a single write turns a closed ticket open only when it is a creation reusing that ticket's id |
| Lifecycle.ClosedStaysClosed | bot.js:311 | along any run of writes that never reuses its id, a closed ticket stays exactly as it is |
| Lifecycle.KeysOnlyGrow | bot.js:222 | tickets are never deleted: the old key order is a prefix of the new one |
| Lifecycle.ThreadsUniquePreserved | bot.js:222-227 | if every creation uses a thread no ticket is bound to yet, each thread stays bound to at most one ticket |

## Left out

- The chat SDK: client, embeds, buttons and thread creation. Sends, the channel fetch and thread creation are parameters saying whether they succeeded, or the id they returned.
- Failures of the platform calls that the model assumes succeed: `users.fetch` (bot.js:322, 352), `channels.fetch` (bot.js:364), `reply` (bot.js:319, 334, 337), `followUp` (bot.js:201, 208, 263, 303), the reactions (bot.js:279-280, 295-296, 329, 360-361, 372-373; the one at bot.js:248 is part of `setupOk`) and `setArchived` (bot.js:332). A throw from any of them ends the handler early; for example, a failed reaction at bot.js:329 skips archiving at bot.js:332. The `deferUpdate` acknowledgement (bot.js:193) is not modelled.
- Reading and writing `tickets.json` and the fallback to an empty registry when parsing fails (bot.js:93-104, 229, 312). This is file I/O. A failed write during creation is folded into the `setupOk` parameter.
- Process plumbing (bot.js:1-74, 106-164): console and log-file redirection, the 180-second exit timer, the environment-variable check, error handlers and slash-command registration.
- The per-ticket message collectors (bot.js:266-300). They are asynchronous, event-driven relays over SDK-filtered streams. The thread collector (bot.js:270-284) also relays every non-bot message in the thread to the owner, with the same colour and without the staff check, so a staff message reaches the owner both from it and from `messageCreate`; the two copies are built at different moments, so unless their timestamps fall in the same millisecond the ledger does not merge them. `Relay.StaffMessageRelayedOnce` is about the `messageCreate` handler alone.
- Asynchrony. Each handler runs to completion in one step. The confirmation message on creation is not awaited in the source. The model applies its ledger update before the handler returns, so interleavings with other handlers are not modelled.
- Dedup.DeliveredAtMostOnce: holds for sends that run one after another. In the source the key is recorded only after `await user.send` resolves (bot.js:386-390), so two overlapping calls with the same key both pass the check and both send.
- `Date.now()`: ticket ids and embed timestamps are parameters.
- Embed titles, descriptions and colours, except the accent that tells the two relay directions apart.
- JavaScript property order for array-index keys. Canonical decimal strings below 2^32 - 1 would be listed first, in numeric order. The model lists every key in insertion order. This matches every id `Date.now()` has produced since February 1970.
- Dedup.SuppressedIffDeliveredBefore: assumes user ids contain no colon and the serialisation is injective. The source guarantees neither (`Dedup.KeyCollision` shows the colon case).
- Status values other than `open` and `closed`, which only a hand-edited `tickets.json` could contain.
