/** Rows of the messages and threads tables, as far as the modelled code reads them. */
module Mail {
  import opened Prelude

  /** An attachment's id and the other texts of its metadata. */
  datatype Attachment = Attachment(id: string, meta: seq<string>)

  /** Timestamps are whole milliseconds: both tables declare TIMESTAMPTZ(3). `rest` is every text the INSERT
      binds that is not named here: reply-to, headers, the four bodies and the blob ids. */
  datatype Message = Message(
    inbox: string, id: string, org: string, pod: int, thread: int, labels: seq<string>, at: int,
    from: string, to: seq<string>, cc: Option<seq<string>>, bcc: Option<seq<string>>,
    subject: Option<string>, preview: Option<string>, attachments: Option<seq<Attachment>>,
    inReplyTo: Option<string>, references: Option<seq<string>>, rest: seq<string>, size: nat)

  datatype ThreadItem = ThreadItem(
    thread: int, org: string, pod: int, inbox: string, labels: seq<string>, at: int,
    receivedAt: Option<int>, sentAt: Option<int>, senders: seq<string>, recipients: seq<string>,
    subject: Option<string>, preview: Option<string>, attachments: Option<seq<Attachment>>,
    lastMessage: string, count: int, size: int)

  function Listed<T>(xs: Option<seq<T>>): seq<T> {
    if xs.Some? then xs.value else []
  }

  predicate Clean(xs: seq<string>) {
    forall x | x in xs :: !HasNul(x)
  }

  predicate CleanText(x: Option<string>) {
    x.Some? ==> !HasNul(x.value)
  }

  predicate CleanAttachments(xs: seq<Attachment>) {
    forall a | a in xs :: !HasNul(a.id) && Clean(a.meta)
  }

  /** What the columns of a messages row can hold: Postgres text and JSON both refuse a NUL. */
  predicate Storable(m: Message) {
    && !HasNul(m.inbox) && !HasNul(m.id) && !HasNul(m.org) && !HasNul(m.from)
    && Clean(m.labels) && Clean(m.to) && Clean(Listed(m.cc)) && Clean(Listed(m.bcc))
    && CleanText(m.subject) && CleanText(m.preview) && CleanAttachments(Listed(m.attachments))
    && CleanText(m.inReplyTo) && Clean(Listed(m.references)) && Clean(m.rest)
  }

  /** The same for a threads row, which binds far less of a message. */
  predicate ThreadStorable(item: ThreadItem) {
    && !HasNul(item.inbox) && !HasNul(item.org) && !HasNul(item.lastMessage)
    && Clean(item.labels) && Clean(item.senders) && Clean(item.recipients)
    && CleanText(item.subject) && CleanText(item.preview)
  }
}
