/** `handleAttachments` (bot.js:397-406): the files attached to a relayed copy. */
module Attachments {
  import opened Wrappers

  /** The parts of a chat-platform attachment the bot reads, plus the ones it drops. */
  datatype Attachment = Attachment(id: string, url: string, name: string, size: nat)

  /** The `{ attachment: url, name }` object handed to the send call. */
  datatype FileRef = FileRef(attachment: string, name: string)

  function ToFileRef(a: Attachment): FileRef {
    FileRef(a.url, a.name)
  }

  /** `attachments.map(...)`: one reference per attachment, in the same order. */
  function ToFileRefs(atts: seq<Attachment>): (files: seq<FileRef>)
    ensures |files| == |atts|
    ensures forall i :: 0 <= i < |atts| ==> files[i].attachment == atts[i].url && files[i].name == atts[i].name
  {
    if atts == [] then [] else [ToFileRef(atts[0])] + ToFileRefs(atts[1..])
  }

  /** No attachments gives `null`; otherwise the list of (url, name) references. */
  function HandleAttachments(atts: seq<Attachment>): (r: Option<seq<FileRef>>)
    ensures r.None? <==> atts == []
    ensures r.Some? ==> |r.value| == |atts| > 0
    ensures r.Some? ==> forall i :: 0 <= i < |atts| ==> r.value[i] == FileRef(atts[i].url, atts[i].name)
  {
    if |atts| > 0 then Some(ToFileRefs(atts)) else None
  }

  function Urls(atts: seq<Attachment>): seq<string> {
    if atts == [] then [] else [atts[0].url] + Urls(atts[1..])
  }

  function FileUrls(files: seq<FileRef>): seq<string> {
    if files == [] then [] else [files[0].attachment] + FileUrls(files[1..])
  }

  /** The mapping keeps the attachment URLs, in order, so a relayed copy links the same files. */
  lemma {:induction false} UrlsPreserved(atts: seq<Attachment>)
    ensures FileUrls(ToFileRefs(atts)) == Urls(atts)
  {
    if atts != [] {
      UrlsPreserved(atts[1..]);
      assert ToFileRefs(atts)[1..] == ToFileRefs(atts[1..]);
    }
  }

  /** Mapping a concatenation maps each part: attachments are handled one by one. */
  lemma {:induction false} ToFileRefsAppend(a: seq<Attachment>, b: seq<Attachment>)
    ensures ToFileRefs(a + b) == ToFileRefs(a) + ToFileRefs(b)
  {
    if a != [] {
      assert (a + b)[1..] == a[1..] + b;
      ToFileRefsAppend(a[1..], b);
    }
  }
}
