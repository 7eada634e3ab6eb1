/** Accepting a parsed delivery: duplicate check, threading, storage and thread aggregates; and runs. */
module Ingest {
  import opened Prelude
  import opened Mail
  import Labels
  import Messages
  import Threading

  /** A parsed inbound message for one inbox, with its linkage headers as header text. */
  datatype Delivery = Delivery(
    org: string, pod: int, inbox: string, rawId: Option<string>, from: string, to: seq<string>,
    inReplyToText: Option<string>, referenceTexts: seq<string>, at: int, preview: Option<string>,
    subject: Option<string>, cc: Option<seq<string>>, bcc: Option<seq<string>>, attachments: Option<seq<Attachment>>,
    rest: seq<string>, size: nat, spfHardfail: bool, authenticated: bool)

  /** Database failures the environment may inject after the duplicate check. Under `NoFault` a table refuses
      nothing but a NUL and a taken key; any other refusal, such as of an id too long to be indexed, is one of
      the other three. */
  datatype Fault = NoFault | ThreadInsertFails | MessageInsertFails | MemberUpdateFails

  datatype Reply = Accepted(thread: int) | Dropped | MissingMessageId | DuplicateMessageId | StoreFailed

  /** The messages table in insertion order, and the threads table. */
  datatype Store = Store(log: seq<Message>, threads: map<int, ThreadItem>)

  // ---- the pieces of accept --------------------------------------------------------------------

  function MessageIdOf(d: Delivery): Option<string> {
    if d.rawId.None? then None
    else
      var id := Threading.Bracketed(Threading.Trim(d.rawId.value));
      if id == "<>" then None else Some(id)
  }

  /** Each header value trimmed, bracketed, and dropped when blank. */
  function Structured(texts: seq<string>): seq<string> {
    if texts == [] then []
    else
      var link := Threading.CanonicalLink(texts[0]);
      (if link.Some? then [link.value] else []) + Structured(texts[1..])
  }

  function InReplyToOf(d: Delivery): Option<string> {
    if d.inReplyToText.Some? then Threading.CanonicalLink(d.inReplyToText.value) else None
  }

  function InboundLabels(authenticated: bool): seq<string> {
    [Labels.RECEIVED, "unread"] + (if authenticated then [] else [Labels.UNAUTHENTICATED])
  }

  function CandidateOf(d: Delivery, id: string): Threading.Candidate {
    Threading.Candidate(d.inbox, Some(id), InReplyToOf(d), Structured(d.referenceTexts))
  }

  function MessageOf(d: Delivery, id: string, thread: int): Message {
    var refs := Structured(d.referenceTexts);
    Message(Lower(d.inbox), id, d.org, d.pod, thread, InboundLabels(d.authenticated), d.at, d.from, d.to, d.cc, d.bcc,
            d.subject, d.preview, d.attachments, InReplyToOf(d),
            if refs == [] then None else Some(refs), d.rest, d.size)
  }

  function OpeningItem(d: Delivery, id: string, thread: int): ThreadItem {
    ThreadItem(thread, d.org, d.pod, Lower(d.inbox), InboundLabels(d.authenticated), d.at, Some(d.at), None,
               [d.from], d.to, d.subject, d.preview, None, id, 1, d.size)
  }

  function Saturated(n: int): int {
    if n > I64_MAX then I64_MAX else n
  }

  predicate HasFold(xs: seq<string>, x: string) {
    exists e :: e in xs && EqFold(e, x)
  }

  function AddFolded(xs: seq<string>, x: string): seq<string> {
    if HasFold(xs, x) then xs else xs + [x]
  }

  function AddAllFolded(xs: seq<string>, more: seq<string>): seq<string>
    decreases more
  {
    if more == [] then xs else AddAllFolded(AddFolded(xs, more[0]), more[1..])
  }

  function WithMember(item: ThreadItem, m: Message): ThreadItem {
    item.(lastMessage := m.id, at := m.at, count := Saturated(item.count + 1), size := Saturated(item.size + m.size),
          senders := AddFolded(item.senders, m.from), recipients := AddAllFolded(item.recipients, m.to),
          preview := if m.preview.Some? then m.preview else item.preview)
  }

  function Find(log: seq<Message>, inbox: string, id: string): Option<Message> {
    if log == [] then None
    else
      var last := log[|log| - 1];
      if last.inbox == inbox && last.id == id then Some(last) else Find(log[..|log| - 1], inbox, id)
  }

  /** The index of every stored message, as the in-memory index would hold the whole inbox. */
  function WholeIndex(log: seq<Message>): Threading.Index {
    if log == [] then map[]
    else
      var last := log[|log| - 1];
      Threading.Inserted(WholeIndex(log[..|log| - 1]), last.inbox, last.id, last.thread)
  }

  /** What one delivery does, with the assignment made over the whole store. */
  function Deliver(s: Store, d: Delivery, newId: int, fault: Fault): (Store, Reply) {
    if MessageIdOf(d).None? then (s, MissingMessageId)
    else if d.spfHardfail then (s, Dropped)
    else
      var id := MessageIdOf(d).value;
      if Find(s.log, Lower(d.inbox), id).Some? then (s, DuplicateMessageId)
      else
        match Threading.AssignmentOf(WholeIndex(s.log), CandidateOf(d, id))
        case Existing(thread, _) => Joined(s, MessageOf(d, id, thread), fault)
        case New(_) => Opened(s, d, id, newId, fault)
  }

  /** `threads::insert`: refused for a text the row cannot hold and for a thread id already there. */
  function InsertThread(threads: map<int, ThreadItem>, item: ThreadItem): Option<map<int, ThreadItem>> {
    if !ThreadStorable(item) || item.thread in threads then None else Some(threads[item.thread := item])
  }

  /** `messages::insert`, on the table in insertion order. */
  function InsertMessage(log: seq<Message>, m: Message): Result<seq<Message>, Messages.StoreError> {
    var outcome := Messages.InsertOutcome(m, Find(log, Lower(m.inbox), m.id).Some?);
    if outcome.Err? then Err(outcome.error) else Ok(log + [m.(inbox := Lower(m.inbox))])
  }

  /** Of the errors of a message insert only the primary key's is told apart. */
  function Refusal(e: Messages.StoreError): Reply {
    if e.DuplicateKey? then DuplicateMessageId else StoreFailed
  }

  function Opened(s: Store, d: Delivery, id: string, newId: int, fault: Fault): (Store, Reply) {
    var threads := InsertThread(s.threads, OpeningItem(d, id, newId));
    if threads.None? || fault.ThreadInsertFails? then (s, StoreFailed)
    else
      var withThread := s.(threads := threads.value);
      var inserted := InsertMessage(s.log, MessageOf(d, id, newId));
      if fault.MessageInsertFails? then (withThread, StoreFailed)
      else if inserted.Err? then (withThread, Refusal(inserted.error))
      else (withThread.(log := inserted.value), Accepted(newId))
  }

  function Joined(s: Store, m: Message, fault: Fault): (Store, Reply) {
    var inserted := InsertMessage(s.log, m);
    if fault.MessageInsertFails? then (s, StoreFailed)
    else if inserted.Err? then (s, Refusal(inserted.error))
    else
      var stored := s.(log := inserted.value);
      if fault.MemberUpdateFails? then (stored, StoreFailed)
      else (stored.(threads := Recorded(s.threads, m)), Accepted(m.thread))
  }

  /** `threads::record_member`: nothing for a thread without a row. */
  function Recorded(threads: map<int, ThreadItem>, m: Message): map<int, ThreadItem> {
    if m.thread in threads then threads[m.thread := WithMember(threads[m.thread], m)] else threads
  }

  // ---- what every store keeps ------------------------------------------------------------------

  predicate WellStored(m: Message) {
    Lower(m.inbox) == m.inbox && Storable(m) && Threading.CanonicalLink(m.id) == Some(m.id)
  }

  /** `m` carries a linkage header that names `id`, and `id` is not its own. */
  predicate LinksTo(m: Message, id: string) {
    id != m.id && (m.inReplyTo == Some(id) || id in Listed(m.references))
  }

  predicate IsRoot(log: seq<Message>, i: nat)
    requires i < |log|
  {
    forall j :: 0 <= j < i ==> log[j].thread != log[i].thread
  }

  /** Message j is an earlier member of i's thread and inbox that i links to. */
  predicate IsParent(log: seq<Message>, j: nat, i: nat)
    requires i < |log|
  {
    j < i && log[j].thread == log[i].thread && log[j].inbox == log[i].inbox && LinksTo(log[i], log[j].id)
  }

  ghost predicate Rooted(log: seq<Message>, i: nat)
    requires i < |log|
  {
    IsRoot(log, i) || exists j: nat :: IsParent(log, j, i)
  }

  ghost predicate UniqueIds(log: seq<Message>) {
    forall i, j :: 0 <= i < j < |log| ==> !(log[i].inbox == log[j].inbox && log[i].id == log[j].id)
  }

  ghost predicate Forest(s: Store) {
    && UniqueIds(s.log)
    && (forall i :: 0 <= i < |s.log| ==> WellStored(s.log[i]))
    && (forall i :: 0 <= i < |s.log| ==>
          s.log[i].thread in s.threads && s.threads[s.log[i].thread].inbox == s.log[i].inbox)
    && (forall i: nat :: i < |s.log| ==> Rooted(s.log, i))
    && (forall t :: t in s.threads ==> ThreadStorable(s.threads[t]))
  }

  /** The store keeps its shape, every stored message, and every thread with its inbox. */
  ghost predicate Grows(s: Store, after: Store) {
    && Forest(after) && s.log <= after.log && s.threads.Keys <= after.threads.Keys
    && (forall t :: t in s.threads ==> after.threads[t].inbox == s.threads[t].inbox)
  }

  lemma MessageIdIsALink(d: Delivery)
    ensures MessageIdOf(d) == if d.rawId.Some? then Threading.CanonicalLink(d.rawId.value) else None
  {
    if d.rawId.Some? {
      var t := Threading.Trim(d.rawId.value);
      if !Threading.Blank(t) && !Threading.IsBracketed(t) {
        assert |Threading.Bracketed(t)| > 2;
      }
    }
  }

  lemma {:induction false} StructuredAreLinks(texts: seq<string>)
    ensures forall l :: l in Structured(texts) ==> Threading.CanonicalLink(l) == Some(l)
  {
    if texts == [] {
    } else {
      StructuredAreLinks(texts[1..]);
      if Threading.CanonicalLink(texts[0]).Some? {
        Threading.LinkIsFixed(texts[0]);
      }
    }
  }

  lemma {:induction false} FindMeans(log: seq<Message>, inbox: string, id: string)
    ensures Find(log, inbox, id).Some? <==> exists i :: 0 <= i < |log| && log[i].inbox == inbox && log[i].id == id
    ensures Find(log, inbox, id).Some? ==>
      var m := Find(log, inbox, id).value; m in log && m.inbox == inbox && m.id == id
  {
    if log == [] {
    } else {
      var n := |log| - 1;
      FindMeans(log[..n], inbox, id);
      if Find(log[..n], inbox, id).Some? {
        var i :| 0 <= i < n && log[..n][i].inbox == inbox && log[..n][i].id == id;
        assert log[i].inbox == inbox && log[i].id == id;
      }
    }
  }

  /** A new id is inserted iff the row can be stored, and is never called a duplicate. */
  lemma NewIdInserts(log: seq<Message>, m: Message)
    requires Lower(m.inbox) == m.inbox && Find(log, m.inbox, m.id).None?
    ensures var r := InsertMessage(log, m);
      if Storable(m) then r == Ok(log + [m]) else r.Err? && Refusal(r.error).StoreFailed?
  {
    hide Storable, Messages.Guarded;
    assert m.(inbox := m.inbox) == m;
  }

  /** The log as the table that listings and lookups read. */
  function TableOf(log: seq<Message>): Messages.Table {
    if log == [] then map[]
    else
      var last := log[|log| - 1];
      TableOf(log[..|log| - 1])[(last.inbox, last.id) := last]
  }

  /** The log is the messages table: the same rows under the same keys, and inserting into either is
      inserting into the other. */
  lemma LogIsTheTable(log: seq<Message>, m: Message)
    ensures Find(log, m.inbox, m.id).Some? <==> (m.inbox, m.id) in TableOf(log)
    ensures Find(log, m.inbox, m.id).Some? ==> Find(log, m.inbox, m.id).value == TableOf(log)[(m.inbox, m.id)]
    ensures var r, key := InsertMessage(log, m), (Lower(m.inbox), m.id);
      r.Ok? ==> key !in TableOf(log) && TableOf(r.value) == TableOf(log)[key := m.(inbox := key.0)]
  {
    FindIsLookup(log, m.inbox, m.id);
    FindIsLookup(log, Lower(m.inbox), m.id);
    var now := m.(inbox := Lower(m.inbox));
    assert (log + [now])[..|log|] == log;
  }

  lemma {:induction false} FindIsLookup(log: seq<Message>, inbox: string, id: string)
    ensures Find(log, inbox, id).Some? <==> (inbox, id) in TableOf(log)
    ensures Find(log, inbox, id).Some? ==> Find(log, inbox, id).value == TableOf(log)[(inbox, id)]
  {
    if log == [] {
    } else {
      FindIsLookup(log[..|log| - 1], inbox, id);
    }
  }

  /** Looking a link up in the index of everything is fetching the message by primary key. */
  lemma {:induction false} IndexIsTheTable(log: seq<Message>, inbox: string, link: string)
    requires forall i :: 0 <= i < |log| ==> WellStored(log[i])
    requires Threading.CanonicalLink(link) == Some(link)
    ensures Threading.ThreadOf(WholeIndex(log), inbox, link) ==
      var m := Find(log, Lower(inbox), link); if m.Some? then Some(m.value.thread) else None
  {
    hide Storable;
    Threading.LinkIsFixed(link);
    if log == [] {
    } else {
      var n := |log| - 1;
      var last := log[n];
      assert WellStored(last);
      Threading.LinkIsFixed(last.id);
      LowerIdempotent(inbox);
      IndexIsTheTable(log[..n], inbox, link);
    }
  }

  lemma LookupIsTheIndex(s: Store, inbox: string, id: string)
    requires Forest(s) && Threading.CanonicalLink(id) == Some(id)
    ensures var m := Find(s.log, Lower(inbox), Threading.Bracketed(Threading.Trim(id)));
      && Threading.ThreadOf(WholeIndex(s.log), inbox, id) == (if m.Some? then Some(m.value.thread) else None)
      && (m.Some? ==> m.value.id == id)
  {
    Threading.LinkIsFixed(id);
    FindMeans(s.log, Lower(inbox), id);
    IndexIsTheTable(s.log, inbox, id);
  }

  lemma IndexOne(index: Threading.Index, inbox: string, id: string, thread: int, other: string)
    requires Threading.CanonicalLink(id) == Some(id) && Threading.CanonicalLink(other) == Some(other)
    ensures Threading.ThreadOf(Threading.Inserted(index, inbox, id, thread), inbox, other)
            == if other == id then Some(thread) else Threading.ThreadOf(index, inbox, other)
  {
    Threading.LinkIsFixed(id);
    Threading.LinkIsFixed(other);
  }

  lemma EmptyIndex(inbox: string)
    ensures forall id :: Threading.ThreadOf(map[], inbox, id).None?
  {
  }

  // ---- the imperative form ---------------------------------------------------------------------

  class MailStore {
    var log: seq<Message>
    var threads: map<int, ThreadItem>

    function Contents(): Store
      reads this
    {
      Store(log, threads)
    }

    ghost predicate Valid()
      reads this
    {
      Forest(Contents())
    }

    constructor ()
      ensures Valid() && Contents() == Store([], map[])
    {
      log := [];
      threads := map[];
    }

    /** Look each id up by primary key, in whatever order the lookups complete, and index what exists. */
    method FillThreadIndex(inbox: string, ids: set<string>) returns (index: Threading.Index)
      requires Valid()
      requires forall id :: id in ids ==> Threading.CanonicalLink(id) == Some(id)
      ensures forall id :: id in ids ==>
        Threading.ThreadOf(index, inbox, id) == Threading.ThreadOf(WholeIndex(log), inbox, id)
    {
      hide Threading.ThreadOf, Threading.Inserted, Threading.CanonicalLink, Threading.Trim, Threading.Bracketed,
          Forest, Find, WholeIndex;
      index := map[];
      EmptyIndex(inbox);
      var pending := ids;
      while pending != {}
        invariant pending <= ids
        invariant forall id :: id in ids - pending ==>
          Threading.ThreadOf(index, inbox, id) == Threading.ThreadOf(WholeIndex(log), inbox, id)
        invariant forall id :: id in pending ==> Threading.ThreadOf(index, inbox, id).None?
        decreases |pending|
      {
        var id :| id in pending;
        var existing := Find(log, Lower(inbox), Threading.Bracketed(Threading.Trim(id)));
        LookupIsTheIndex(Contents(), inbox, id);
        if existing.Some? {
          forall other | other in ids
            ensures Threading.ThreadOf(Threading.Inserted(index, inbox, existing.value.id, existing.value.thread),
              inbox, other)
                    == if other == id then Some(existing.value.thread) else Threading.ThreadOf(index, inbox, other)
          {
            IndexOne(index, inbox, id, existing.value.thread, other);
          }
          index := Threading.Inserted(index, inbox, existing.value.id, existing.value.thread);
        }
        pending := pending - {id};
      }
    }

    /** Absorb a new member into its thread's row: false without a row, refused when the guarded id or any
        column it would set cannot be stored. */
    method RecordMember(m: Message) returns (r: Result<bool, ()>)
      requires m.thread in threads ==> ThreadStorable(threads[m.thread])
      modifies this`threads
      ensures r.Err? <==>
        || HasNul(m.id)
        || (m.thread in old(threads) && !ThreadStorable(WithMember(old(threads)[m.thread], m)))
      ensures r.Ok? ==> r.value == (m.thread in old(threads))
      ensures threads == if r.Ok? then Recorded(old(threads), m) else old(threads)
    {
      if HasNul(m.id) {
        return Err(());
      }
      if m.thread !in threads {
        return Ok(false);
      }
      var item := threads[m.thread];
      var senders, recipients := item.senders, item.recipients;
      if !exists e | e in senders :: EqFold(e, m.from) {
        senders := senders + [m.from];
      }
      var i := 0;
      while i < |m.to|
        invariant 0 <= i <= |m.to|
        invariant AddAllFolded(recipients, m.to[i..]) == AddAllFolded(item.recipients, m.to)
      {
        if !exists e | e in recipients :: EqFold(e, m.to[i]) {
          recipients := recipients + [m.to[i]];
        }
        assert m.to[i..][1..] == m.to[i + 1..];
        i := i + 1;
      }
      var preview := if m.preview.Some? then m.preview else item.preview;
      item := item.(lastMessage := m.id, at := m.at, senders := senders, recipients := recipients, preview := preview);
      item := item.(count := Saturated(item.count + 1), size := Saturated(item.size + m.size));
      if !ThreadStorable(item) {
        return Err(());
      }
      threads := threads[m.thread := item];
      return Ok(true);
    }

    /** Thread one candidate over an index of just the ids it carries. */
    method AssignThread(d: Delivery, id: string) returns (a: Threading.Assignment)
      requires Valid()
      ensures a == Threading.AssignmentOf(WholeIndex(log), CandidateOf(d, id))
    {
      hide Forest;
      var c := CandidateOf(d, id);
      var ids := (set l | l in c.references) + (if c.inReplyTo.Some? then {c.inReplyTo.value} else {});
      LookupsAreLinks(d);
      var index := FillThreadIndex(d.inbox, ids);
      PartialIndexSuffices(log, index, c, ids);
      a := Threading.Assign(index, c);
    }

    /** The tail of `accept`. Threading consults only the linked ids, yet decides as over the whole store. */
    method Accept(d: Delivery, newId: int, fault: Fault) returns (r: Reply)
      requires Valid()
      modifies this
      ensures (Contents(), r) == Deliver(old(Contents()), d, newId, fault)
      ensures Valid()
    {
      hide Forest, WithMember, OpeningItem, CandidateOf, HasNul, Storable, ThreadStorable, Threading.AssignmentOf,
          WholeIndex, Find, MessageIdOf;
      DeliveryKeepsForest(Contents(), d, newId, fault);
      hide Grows;
      var messageId := MessageIdOf(d);
      if messageId.None? {
        return MissingMessageId;
      }
      if d.spfHardfail {
        return Dropped;
      }
      var id := messageId.value;
      if Find(log, Lower(d.inbox), id).Some? {
        return DuplicateMessageId;
      }
      var assignment := AssignThread(d, id);
      var isNew := assignment.New?;
      var thread := if isNew then newId else assignment.thread;
      if isNew {
        var inserted := InsertThread(threads, OpeningItem(d, id, newId));
        if inserted.None? || fault.ThreadInsertFails? {
          return StoreFailed;
        }
        threads := inserted.value;
      }
      var m := MessageOf(d, id, thread);
      if fault.MessageInsertFails? {
        return StoreFailed;
      }
      var stored := InsertMessage(log, m);
      if stored.Err? {
        return Refusal(stored.error);
      }
      LowerIdempotent(d.inbox);
      NewIdInserts(log, m);
      log := stored.value;
      if !isNew {
        if fault.MemberUpdateFails? {
          return StoreFailed;
        }
        RowIsStorable(old(Contents()), m);
        var recorded := RecordMember(m);
        if recorded.Err? {
          return StoreFailed;
        }
      }
      return Accepted(thread);
    }
  }

  lemma AddFoldedIsClean(xs: seq<string>, more: seq<string>)
    requires Clean(xs) && Clean(more)
    ensures Clean(AddAllFolded(xs, more))
    ensures forall x :: !HasNul(x) ==> Clean(AddFolded(xs, x))
  {
    forall x | !HasNul(x) ensures Clean(AddFolded(xs, x)) {
      AddFoldedMeans(xs, x);
    }
    AddAllFoldedMeans(xs, more);
  }

  /** A stored message's columns never make its thread's row unstorable. */
  lemma RowIsStorable(s: Store, m: Message)
    requires Forest(s) && Storable(m)
    ensures !HasNul(m.id)
    ensures m.thread in s.threads ==>
      ThreadStorable(s.threads[m.thread]) && ThreadStorable(WithMember(s.threads[m.thread], m))
  {
    if m.thread in s.threads {
      var item := s.threads[m.thread];
      AddFoldedIsClean(item.recipients, m.to);
      AddFoldedIsClean(item.senders, []);
      hide AddFolded, AddAllFolded;
    }
  }

  lemma LookupsAreLinks(d: Delivery)
    ensures forall l :: l in Structured(d.referenceTexts) ==> Threading.CanonicalLink(l) == Some(l)
    ensures InReplyToOf(d).Some? ==> Threading.CanonicalLink(InReplyToOf(d).value) == InReplyToOf(d)
  {
    StructuredAreLinks(d.referenceTexts);
    if InReplyToOf(d).Some? {
      Threading.LinkIsFixed(d.inReplyToText.value);
    }
  }

  /** An index filled from the carried ids alone assigns as the index of the whole inbox does. */
  lemma PartialIndexSuffices(log: seq<Message>, partial: Threading.Index, c: Threading.Candidate, ids: set<string>)
    requires forall l :: l in c.references ==> l in ids
    requires c.inReplyTo.Some? ==> c.inReplyTo.value in ids
    requires forall l :: l in ids ==> Threading.CanonicalLink(l) == Some(l)
    requires forall l :: l in ids ==>
      Threading.ThreadOf(partial, c.inbox, l) == Threading.ThreadOf(WholeIndex(log), c.inbox, l)
    ensures Threading.AssignmentOf(partial, c) == Threading.AssignmentOf(WholeIndex(log), c)
  {
    Threading.AssignmentIsLocal(partial, WholeIndex(log), c);
  }

  // ---- where a delivery goes, said of its header texts -----------------------------------------

  /** Every text that has a canonical link contributes it, in order, and nothing else does. */
  lemma {:induction false} StructuredIsPiecewise(texts: seq<string>, more: seq<string>, text: string)
    ensures Structured(texts + more) == Structured(texts) + Structured(more)
    ensures var link := Threading.CanonicalLink(text);
      Structured([text]) == if link.Some? then [link.value] else []
  {
    hide Threading.CanonicalLink;
    assert [text][1..] == [];
    if texts == [] {
      assert texts + more == more;
    } else {
      assert (texts + more)[0] == texts[0] && (texts + more)[1..] == texts[1..] + more;
      StructuredIsPiecewise(texts[1..], more, text);
    }
  }

  lemma {:induction false} StructuredMembers(texts: seq<string>, l: string)
    ensures l in Structured(texts) <==> exists text :: text in texts && Threading.CanonicalLink(text) == Some(l)
  {
    hide Threading.CanonicalLink;
    if texts == [] {
    } else {
      StructuredMembers(texts[1..], l);
      assert texts == [texts[0]] + texts[1..];
    }
  }

  /** The text names this stored message, in the delivery's inbox. */
  predicate Names(log: seq<Message>, d: Delivery, text: string, m: Message) {
    m in log && m.inbox == Lower(d.inbox) && Threading.CanonicalLink(text) == Some(m.id)
  }

  /** The threads of the stored messages that the References texts name. */
  function ReferredTo(log: seq<Message>, d: Delivery): set<int> {
    set text, m | text in d.referenceTexts && m in log && Names(log, d, text, m) :: m.thread
  }

  lemma FindIs(s: Store, m: Message)
    requires Forest(s) && m in s.log
    ensures Find(s.log, m.inbox, m.id) == Some(m)
  {
    FindMeans(s.log, m.inbox, m.id);
    hide WellStored, Rooted, ThreadStorable;
    var found := Find(s.log, m.inbox, m.id).value;
    var i :| 0 <= i < |s.log| && s.log[i] == m;
    var j :| 0 <= j < |s.log| && s.log[j] == found;
    assert i == j;
  }

  /** A new delivery of Message-ID `id`. */
  predicate NewHere(s: Store, d: Delivery, id: string) {
    MessageIdOf(d) == Some(id) && Find(s.log, Lower(d.inbox), id).None?
  }

  /** The index leads from a canonical link to the thread of the stored message it names. */
  lemma IndexLeadsTo(s: Store, d: Delivery, text: string, m: Message)
    requires Forest(s) && Names(s.log, d, text, m)
    ensures Threading.CanonicalLink(m.id) == Some(m.id)
    ensures Threading.ThreadOf(WholeIndex(s.log), d.inbox, m.id) == Some(m.thread)
  {
    Threading.LinkIsFixed(text);
    IndexIsTheTable(s.log, d.inbox, m.id);
    FindIs(s, m);
  }

  /** And back. */
  lemma IndexComesFrom(s: Store, d: Delivery, l: string) returns (m: Message)
    requires Forest(s) && Threading.CanonicalLink(l) == Some(l)
    requires Threading.ThreadOf(WholeIndex(s.log), d.inbox, l).Some?
    ensures m in s.log && m.inbox == Lower(d.inbox) && m.id == l
    ensures Threading.ThreadOf(WholeIndex(s.log), d.inbox, l) == Some(m.thread)
  {
    IndexIsTheTable(s.log, d.inbox, l);
    FindMeans(s.log, Lower(d.inbox), l);
    m := Find(s.log, Lower(d.inbox), l).value;
  }

  /** A link to a stored message is never the delivery's own, so the candidate may use it. */
  lemma NamedIsUsable(s: Store, d: Delivery, id: string, m: Message)
    requires NewHere(s, d, id) && m in s.log && m.inbox == Lower(d.inbox)
    requires Threading.CanonicalLink(m.id) == Some(m.id)
    ensures Threading.Usable(CandidateOf(d, id), m.id) == Some(m.id)
  {
    MessageIdIsALink(d);
    Threading.LinkIsFixed(d.rawId.value);
    FindMeans(s.log, Lower(d.inbox), id);
    var i :| 0 <= i < |s.log| && s.log[i] == m;
    hide Threading.CanonicalLink, MessageIdOf, Find;
  }

  lemma UsableIsItself(c: Threading.Candidate, l: string)
    requires Threading.CanonicalLink(l) == Some(l)
    ensures Threading.Usable(c, l).Some? ==> Threading.Usable(c, l) == Some(l)
  {
  }

  lemma ReachedIsReferredTo(s: Store, d: Delivery, id: string)
    requires Forest(s) && NewHere(s, d, id)
    ensures var c := CandidateOf(d, id);
      Threading.Reached(WholeIndex(s.log), c.inbox, Threading.Links(c, c.references)) == ReferredTo(s.log, d)
  {
    var c, index := CandidateOf(d, id), WholeIndex(s.log);
    var reached := Threading.Reached(index, c.inbox, Threading.Links(c, c.references));
    StructuredAreLinks(d.referenceTexts);
    hide Forest, Threading.CanonicalLink, Threading.ThreadOf, WholeIndex, Structured, NewHere, Threading.Usable;
    forall t | t in ReferredTo(s.log, d) ensures t in reached {
      var text, m :| text in d.referenceTexts && m in s.log && Names(s.log, d, text, m) && m.thread == t;
      IndexLeadsTo(s, d, text, m);
      NamedIsUsable(s, d, id, m);
      StructuredMembers(d.referenceTexts, m.id);
      assert m.id in Threading.Links(c, c.references);
    }
    forall t | t in reached ensures t in ReferredTo(s.log, d) {
      var l :| l in Threading.Links(c, c.references) && Threading.ThreadOf(index, c.inbox, l) == Some(t);
      var r :| r in c.references && Threading.Usable(c, r) == Some(l);
      UsableIsItself(c, r);
      var m := IndexComesFrom(s, d, r);
      StructuredMembers(d.referenceTexts, r);
      var text :| text in d.referenceTexts && Threading.CanonicalLink(text) == Some(r);
      assert Names(s.log, d, text, m);
    }
  }

  ghost predicate RepliesTo(s: Store, d: Delivery, m: Message) {
    d.inReplyToText.Some? && Names(s.log, d, d.inReplyToText.value, m)
  }

  /** The thread of the message In-Reply-To names; else the one thread the References reach, if it is one. */
  lemma AssignmentFollowsHeaders(s: Store, d: Delivery, id: string)
    requires Forest(s) && NewHere(s, d, id)
    ensures var a := Threading.AssignmentOf(WholeIndex(s.log), CandidateOf(d, id));
      && (forall m :: RepliesTo(s, d, m) ==> a.Existing? && a.thread == m.thread)
      && ((forall m :: !RepliesTo(s, d, m)) ==>
            && (forall t :: ReferredTo(s.log, d) == {t} ==> a.Existing? && a.thread == t)
            && ((forall t :: ReferredTo(s.log, d) != {t}) ==> a.New?))
  {
    var c, index := CandidateOf(d, id), WholeIndex(s.log);
    ReachedIsReferredTo(s, d, id);
    Threading.AssignmentMeans(index, c);
    LookupsAreLinks(d);
    hide Forest, Threading.CanonicalLink, Threading.ThreadOf, WholeIndex, Structured, NewHere, Threading.Usable,
        Threading.AssignmentOf, Threading.Reached, ReferredTo, Threading.Links;
    forall m | RepliesTo(s, d, m)
      ensures Threading.Parent(c) == Some(m.id) && Threading.ThreadOf(index, c.inbox, m.id) == Some(m.thread)
    {
      IndexLeadsTo(s, d, d.inReplyToText.value, m);
      NamedIsUsable(s, d, id, m);
    }
    if Threading.Parent(c).Some? && Threading.ThreadOf(index, c.inbox, Threading.Parent(c).value).Some? {
      UsableIsItself(c, c.inReplyTo.value);
      var m := IndexComesFrom(s, d, c.inReplyTo.value);
      assert RepliesTo(s, d, m);
    }
  }

  /** The stored row of a delivery. */
  ghost predicate Carries(m: Message, d: Delivery, id: string, thread: int) {
    && (m.thread, m.inbox, m.id, m.org, m.pod) == (thread, Lower(d.inbox), id, d.org, d.pod)
    && (m.at, m.from, m.to, m.size) == (d.at, d.from, d.to, d.size)
    && m.cc == d.cc && m.bcc == d.bcc && m.attachments == d.attachments && m.rest == d.rest
    && m.subject == d.subject && m.preview == d.preview
    && m.inReplyTo == (if d.inReplyToText.Some? then Threading.CanonicalLink(d.inReplyToText.value) else None)
    && Listed(m.references) == Structured(d.referenceTexts) && (m.references == Some([]) ==> false)
    && (forall l :: l in m.labels <==>
          l == "received" || l == "unread" || (l == "unauthenticated" && !d.authenticated))
  }

  /** End to end, from header texts to the stored row: a new delivery whose texts the database takes is
      accepted, into the thread of the message it replies to, else into the one thread it refers to, else
      into a new one; and it is stored as it came. */
  lemma DeliveryGoesWhereItsHeadersPoint(s: Store, d: Delivery, id: string, newId: int)
    requires Forest(s) && NewHere(s, d, id) && !d.spfHardfail && newId !in s.threads
    requires CleanForThread(d, id) && CleanForMessage(d)
    ensures var (after, r) := Deliver(s, d, newId, NoFault);
      && r.Accepted? && |after.log| == |s.log| + 1 && after.log[..|s.log|] == s.log
      && Carries(after.log[|s.log|], d, id, r.thread)
      && (forall m :: RepliesTo(s, d, m) ==> r.thread == m.thread)
      && ((forall m :: !RepliesTo(s, d, m)) ==>
            && (forall t :: ReferredTo(s.log, d) == {t} ==> r.thread == t)
            && ((forall t :: ReferredTo(s.log, d) != {t}) ==> r.thread == newId))
  {
    AssignmentFollowsHeaders(s, d, id);
    var a := Threading.AssignmentOf(WholeIndex(s.log), CandidateOf(d, id));
    var thread := if a.Existing? then a.thread else newId;
    CleanDeliveryIsStored(s, d, id, newId, thread);
    MessageCarries(d, id, thread);
    hide Forest, MessageOf, CleanForThread, CleanForMessage, Opened, Joined, Threading.AssignmentOf, CandidateOf,
        WholeIndex, ReferredTo, RepliesTo, Carries, MessageIdOf, Find;
  }

  lemma CleanDeliveryIsStored(s: Store, d: Delivery, id: string, newId: int, thread: int)
    requires Find(s.log, Lower(d.inbox), id).None? && newId !in s.threads
    requires CleanForThread(d, id) && CleanForMessage(d)
    ensures var (after, r) := Opened(s, d, id, newId, NoFault);
      after.log == s.log + [MessageOf(d, id, newId)] && r == Accepted(newId)
    ensures var (after, r) := Joined(s, MessageOf(d, id, thread), NoFault);
      after.log == s.log + [MessageOf(d, id, thread)] && r == Accepted(thread)
  {
    OpeningTexts(d, id, newId);
    StorableAnywhere(d, id, newId, thread);
    JoinedKey(d, id, thread);
    OpeningInserts(s, d, id, newId);
    NewIdInserts(s.log, MessageOf(d, id, thread));
    assert MessageOf(d, id, thread).thread == thread;
    hide MessageOf, OpeningItem, Storable, ThreadStorable, CleanForThread, CleanForMessage, InsertMessage, Recorded,
        Find;
  }

  lemma StorableAnywhere(d: Delivery, id: string, newId: int, thread: int)
    ensures Storable(MessageOf(d, id, newId)) <==> Storable(MessageOf(d, id, thread))
  {
  }

  lemma MessageCarries(d: Delivery, id: string, thread: int)
    ensures Carries(MessageOf(d, id, thread), d, id, thread)
  {
    hide Threading.CanonicalLink, Structured, Lower;
  }

  /** What stops a delivery before anything is stored. */
  lemma RefusalsStoreNothing(s: Store, d: Delivery, newId: int, fault: Fault)
    requires Forest(s)
    ensures var (after, r) := Deliver(s, d, newId, fault);
      && (r.MissingMessageId? <==> d.rawId.None? || Threading.CanonicalLink(d.rawId.value).None?)
      && (r.Dropped? <==> MessageIdOf(d).Some? && d.spfHardfail)
      && (r.DuplicateMessageId? <==>
            && MessageIdOf(d).Some? && !d.spfHardfail
            && exists m :: m in s.log && m.inbox == Lower(d.inbox) && m.id == MessageIdOf(d).value)
      && (!r.Accepted? && !r.StoreFailed? ==> after == s)
  {
    MessageIdIsALink(d);
    hide Forest, Opened, Joined, Threading.AssignmentOf, WholeIndex, CandidateOf, MessageOf, Threading.CanonicalLink;
    if MessageIdOf(d).Some? {
      var id := MessageIdOf(d).value;
      FindMeans(s.log, Lower(d.inbox), id);
      if Find(s.log, Lower(d.inbox), id).None? {
        NoDuplicateLater(s, d, id, newId, fault);
      }
    }
  }

  lemma NoDuplicateLater(s: Store, d: Delivery, id: string, newId: int, fault: Fault)
    requires Find(s.log, Lower(d.inbox), id).None?
    ensures var r := Opened(s, d, id, newId, fault).1; r.Accepted? || r.StoreFailed?
    ensures forall t :: var r := Joined(s, MessageOf(d, id, t), fault).1; r.Accepted? || r.StoreFailed?
  {
    OpeningInserts(s, d, id, newId);
    forall t ensures var r := Joined(s, MessageOf(d, id, t), fault).1; r.Accepted? || r.StoreFailed? {
      JoinedKey(d, id, t);
      NewIdInserts(s.log, MessageOf(d, id, t));
      hide InsertMessage, MessageOf, Storable;
    }
    hide InsertMessage, MessageOf, OpeningItem, Storable, ThreadStorable;
  }

  /** A stored delivery is hidden from a caller exactly when it was not authenticated and the caller may not
      see, or did not ask for, what was not. */
  lemma UnauthenticatedMailIsWithheld(d: Delivery, id: string, thread: int, access: Labels.Access)
    ensures Labels.Admits(MessageOf(d, id, thread).labels, access)
      <==> d.authenticated || !Labels.Hidden("unauthenticated", access)
  {
    MessageCarries(d, id, thread);
    Labels.AdmitMeans(MessageOf(d, id, thread).labels, access);
    hide MessageOf, Labels.Admits;
    assert "unauthenticated" in MessageOf(d, id, thread).labels <==> !d.authenticated;
  }

  // ---- one delivery keeps the forest -----------------------------------------------------------

  lemma DeliveryKeepsForest(s: Store, d: Delivery, newId: int, fault: Fault)
    requires Forest(s)
    ensures Grows(s, Deliver(s, d, newId, fault).0)
  {
    hide Forest;
    if MessageIdOf(d).Some? && !d.spfHardfail {
      var id := MessageIdOf(d).value;
      FindMeans(s.log, Lower(d.inbox), id);
      if Find(s.log, Lower(d.inbox), id).None? {
        MessageIdIsALink(d);
        Threading.LinkIsFixed(d.rawId.value);
        LowerIdempotent(d.inbox);
        var a := Threading.AssignmentOf(WholeIndex(s.log), CandidateOf(d, id));
        if a.Existing? {
          var j := JoinHasAParent(s, d, id);
          JoinKeepsForest(s, MessageOf(d, id, a.thread), j, fault);
        } else {
          OpeningKeepsForest(s, d, id, newId, fault);
        }
      }
    }
  }

  lemma JoinKeepsForest(s: Store, m: Message, j: nat, fault: Fault)
    requires Forest(s) && Lower(m.inbox) == m.inbox && Threading.CanonicalLink(m.id) == Some(m.id)
    requires Find(s.log, m.inbox, m.id).None?
    requires j < |s.log| && s.log[j].thread == m.thread && s.log[j].inbox == m.inbox && LinksTo(m, s.log[j].id)
    ensures Grows(s, Joined(s, m, fault).0)
  {
    MemberHasARow(s, j);
    hide Forest, Grows, WithMember, LinksTo, Storable, InsertMessage, Find, Lower, Threading.CanonicalLink;
    FindMeans(s.log, m.inbox, m.id);
    NewIdInserts(s.log, m);
    GrowsAtLeast(s);
    if Storable(m) {
      var stored := s.(log := s.log + [m]);
      AppendGrows(s, m, j);
      RecordingGrows(stored, m);
      GrowsOn(s, stored, stored.(threads := Recorded(s.threads, m)));
    }
  }

  lemma OpeningKeepsForest(s: Store, d: Delivery, id: string, newId: int, fault: Fault)
    requires Forest(s) && Threading.CanonicalLink(id) == Some(id) && Find(s.log, Lower(d.inbox), id).None?
    ensures Grows(s, Opened(s, d, id, newId, fault).0)
  {
    var item, m := OpeningItem(d, id, newId), MessageOf(d, id, newId);
    OpeningInserts(s, d, id, newId);
    FindMeans(s.log, m.inbox, m.id);
    LowerIdempotent(d.inbox);
    assert m.thread == item.thread == newId && m.inbox == item.inbox == Lower(d.inbox) && m.id == id;
    hide MessageOf, OpeningItem, InsertMessage, Find, Threading.CanonicalLink, Lower, Forest, Storable, ThreadStorable,
        Grows, LinksTo;
    GrowsAtLeast(s);
    if ThreadStorable(item) && newId !in s.threads {
      var withThread := s.(threads := s.threads[newId := item]);
      OpeningGrows(s, newId, item);
      if Storable(m) {
        AppendGrows(withThread, m, 0);
        GrowsOn(s, withThread, withThread.(log := s.log + [m]));
      }
    }
  }

  lemma MemberHasARow(s: Store, j: nat)
    requires Forest(s) && j < |s.log|
    ensures s.log[j].thread in s.threads && s.threads[s.log[j].thread].inbox == s.log[j].inbox
  {
  }

  lemma GrowsAtLeast(s: Store)
    requires Forest(s)
    ensures Grows(s, s)
  {
    hide Forest;
  }

  lemma GrowsOn(a: Store, b: Store, c: Store)
    requires Grows(a, b) && Grows(b, c)
    ensures Grows(a, c)
  {
    hide Forest;
  }

  lemma AppendGrows(s: Store, m: Message, j: nat)
    requires Forest(s) && Lower(m.inbox) == m.inbox && Storable(m) && Threading.CanonicalLink(m.id) == Some(m.id)
    requires m.thread in s.threads && s.threads[m.thread].inbox == m.inbox
    requires forall i :: 0 <= i < |s.log| ==> !(s.log[i].inbox == m.inbox && s.log[i].id == m.id)
    requires (forall i :: 0 <= i < |s.log| ==> s.log[i].thread != m.thread)
      || (j < |s.log| && s.log[j].thread == m.thread && s.log[j].inbox == m.inbox && LinksTo(m, s.log[j].id))
    ensures var after := s.(log := s.log + [m]);
      Forest(after) && Grows(s, after)
  {
    AppendKeepsForest(s, m, j);
    hide Forest, Storable, LinksTo;
  }

  lemma RecordingGrows(s: Store, m: Message)
    requires Forest(s) && Storable(m)
    ensures Grows(s, s.(threads := Recorded(s.threads, m)))
  {
    if m.thread in s.threads { MembersKeepForest(s, m); }
    assert m.thread in s.threads ==> WithMember(s.threads[m.thread], m).inbox == s.threads[m.thread].inbox;
    hide Forest, Storable, WithMember;
  }

  lemma OpeningGrows(s: Store, newId: int, item: ThreadItem)
    requires Forest(s) && newId !in s.threads && ThreadStorable(item)
    ensures var after := s.(threads := s.threads[newId := item]);
      Forest(after) && Grows(s, after) && forall i :: 0 <= i < |s.log| ==> s.log[i].thread != newId
  {
    ThreadsKeepForest(s, newId, item);
    hide Forest, ThreadStorable;
  }

  /** A join names a stored message of the thread it joins. */
  lemma JoinHasAParent(s: Store, d: Delivery, id: string) returns (j: nat)
    requires Forest(s) && MessageIdOf(d) == Some(id)
    requires Threading.AssignmentOf(WholeIndex(s.log), CandidateOf(d, id)).Existing?
    ensures var thread := Threading.AssignmentOf(WholeIndex(s.log), CandidateOf(d, id)).thread;
      var m := MessageOf(d, id, thread);
      j < |s.log| && s.log[j].thread == thread && s.log[j].inbox == m.inbox && LinksTo(m, s.log[j].id)
  {
    hide Storable, ThreadStorable, Rooted, UniqueIds, Threading.AssignmentOf;
    var c := CandidateOf(d, id);
    var a := Threading.AssignmentOf(WholeIndex(s.log), c);
    JoiningLink(WholeIndex(s.log), d, id);
    hide Threading.ThreadOf, WholeIndex, Threading.CanonicalLink;
    IndexIsTheTable(s.log, d.inbox, a.linkedBy);
    FindMeans(s.log, Lower(d.inbox), a.linkedBy);
    var found := Find(s.log, Lower(d.inbox), a.linkedBy).value;
    j :| j < |s.log| && s.log[j] == found;
  }

  lemma JoiningLink(index: Threading.Index, d: Delivery, id: string)
    requires MessageIdOf(d) == Some(id) && Threading.AssignmentOf(index, CandidateOf(d, id)).Existing?
    ensures var a, c := Threading.AssignmentOf(index, CandidateOf(d, id)), CandidateOf(d, id);
      && Threading.ThreadOf(index, d.inbox, a.linkedBy) == Some(a.thread)
      && Threading.CanonicalLink(a.linkedBy) == Some(a.linkedBy) && a.linkedBy != id
      && (c.inReplyTo == Some(a.linkedBy) || a.linkedBy in c.references)
  {
    var c := CandidateOf(d, id);
    Threading.AssignmentMeans(index, c);
    MessageIdIsALink(d);
    Threading.LinkIsFixed(d.rawId.value);
    LookupsAreLinks(d);
    hide Threading.AssignmentOf, Threading.ThreadOf, Threading.Reached, Structured, InReplyToOf, MessageIdOf;
    forall raw | Threading.Usable(c, raw).Some? && Threading.CanonicalLink(raw) == Some(raw)
      ensures Threading.Usable(c, raw) == Some(raw) && raw != id
    {
    }
  }

  lemma AppendKeepsForest(s: Store, m: Message, j: nat)
    requires Forest(s) && WellStored(m) && m.thread in s.threads && s.threads[m.thread].inbox == m.inbox
    requires forall i :: 0 <= i < |s.log| ==> !(s.log[i].inbox == m.inbox && s.log[i].id == m.id)
    requires (forall i :: 0 <= i < |s.log| ==> s.log[i].thread != m.thread)
      || (j < |s.log| && s.log[j].thread == m.thread && s.log[j].inbox == m.inbox && LinksTo(m, s.log[j].id))
    ensures Forest(s.(log := s.log + [m]))
  {
    hide LinksTo, WellStored, Rooted;
    var log := s.log + [m];
    forall i: nat | i < |log| ensures Rooted(log, i) {
      if i < |s.log| {
        assert Rooted(s.log, i);
        RootedStill(s.log, m, i);
      } else {
        RootedNow(s.log, m, j);
      }
    }
  }

  lemma RootedStill(log: seq<Message>, m: Message, i: nat)
    requires i < |log| && Rooted(log, i)
    ensures Rooted(log + [m], i)
  {
    hide LinksTo;
    if IsRoot(log, i) {
      assert IsRoot(log + [m], i);
    } else {
      var p: nat :| IsParent(log, p, i);
      assert IsParent(log + [m], p, i);
    }
  }

  lemma RootedNow(log: seq<Message>, m: Message, j: nat)
    requires (forall i :: 0 <= i < |log| ==> log[i].thread != m.thread)
      || (j < |log| && log[j].thread == m.thread && log[j].inbox == m.inbox && LinksTo(m, log[j].id))
    ensures Rooted(log + [m], |log|)
  {
    hide LinksTo;
    if exists i :: 0 <= i < |log| && log[i].thread == m.thread {
      assert IsParent(log + [m], j, |log|);
    } else {
      assert IsRoot(log + [m], |log|);
    }
  }

  lemma ThreadsKeepForest(s: Store, newId: int, item: ThreadItem)
    requires Forest(s) && newId !in s.threads && ThreadStorable(item)
    ensures Forest(s.(threads := s.threads[newId := item]))
    ensures forall i :: 0 <= i < |s.log| ==> s.log[i].thread != newId
  {
  }

  lemma MembersKeepForest(s: Store, m: Message)
    requires Forest(s) && m.thread in s.threads && Storable(m)
    ensures Forest(s.(threads := s.threads[m.thread := WithMember(s.threads[m.thread], m)]))
  {
    RowIsStorable(s, m);
  }

  // ---- runs ------------------------------------------------------------------------------------

  datatype Event = Event(d: Delivery, newId: int, fault: Fault)

  function RunTo(events: seq<Event>, i: nat): Store
    requires i <= |events|
  {
    if i == 0 then Store([], map[])
    else Deliver(RunTo(events, i - 1), events[i - 1].d, events[i - 1].newId, events[i - 1].fault).0
  }

  lemma {:induction false} RunsKeepForest(events: seq<Event>, i: nat)
    requires i <= |events|
    ensures Forest(RunTo(events, i))
  {
    if i > 0 {
      hide Forest;
      RunsKeepForest(events, i - 1);
      DeliveryKeepsForest(RunTo(events, i - 1), events[i - 1].d, events[i - 1].newId, events[i - 1].fault);
    } else {
      assert Forest(Store([], map[]));
    }
  }

  /** A stored message stays where it is: its thread never changes, and its thread never changes inbox. */
  lemma {:induction false} StoredThreadsArePermanent(events: seq<Event>, i: nat, j: nat)
    requires i <= j <= |events|
    ensures RunTo(events, i).log <= RunTo(events, j).log
    ensures forall t :: t in RunTo(events, i).threads ==>
      t in RunTo(events, j).threads && RunTo(events, j).threads[t].inbox == RunTo(events, i).threads[t].inbox
  {
    if i == j {
    } else {
      hide Forest, Deliver;
      StoredThreadsArePermanent(events, i, j - 1);
      RunsKeepForest(events, j - 1);
      DeliveryKeepsForest(RunTo(events, j - 1), events[j - 1].d, events[j - 1].newId, events[j - 1].fault);
    }
  }

  /** Two messages are in one thread at the end iff they were when the later of them was stored: threads
      never merge and never split; and messages of one thread share one inbox. */
  lemma ThreadsNeverMergeOrSpan(events: seq<Event>, i: nat, j: nat, a: nat, b: nat)
    requires i <= j <= |events| && a < |RunTo(events, i).log| && b < |RunTo(events, i).log|
    ensures var early, late := RunTo(events, i).log, RunTo(events, j).log;
      && a < |late| && b < |late| && late[a] == early[a] && late[b] == early[b]
      && (late[a].thread == late[b].thread ==> late[a].inbox == late[b].inbox)
  {
    StoredThreadsArePermanent(events, i, j);
    RunsKeepForest(events, i);
  }

  /** A message that was stored is refused for ever after, whatever its spelling of the inbox's case, and
      the refusal changes nothing. */
  lemma RedeliveryChangesNothing(events: seq<Event>, i: nat, a: nat, j: nat, d: Delivery, newId: int, fault: Fault)
    requires i <= j <= |events| && a < |RunTo(events, i).log|
    requires EqFold(d.inbox, RunTo(events, i).log[a].inbox) && MessageIdOf(d) == Some(RunTo(events, i).log[a].id)
    ensures Deliver(RunTo(events, j), d, newId, fault)
      == (RunTo(events, j), if d.spfHardfail then Dropped else DuplicateMessageId)
  {
    hide RunTo, Forest;
    StoredThreadsArePermanent(events, i, j);
    RunsKeepForest(events, i);
    var s := RunTo(events, j);
    StoredInboxIsFolded(RunTo(events, i), a);
    assert s.log[a] == RunTo(events, i).log[a];
    FindMeans(s.log, Lower(d.inbox), MessageIdOf(d).value);
  }

  lemma StoredInboxIsFolded(s: Store, a: nat)
    requires Forest(s) && a < |s.log|
    ensures Lower(s.log[a].inbox) == s.log[a].inbox
  {
    assert WellStored(s.log[a]);
  }

  /** From any member, parent links lead through earlier members of its thread and inbox to a root. */
  ghost predicate PathToRoot(log: seq<Message>, path: seq<nat>) {
    && path != [] && (forall k :: 0 <= k < |path| ==> path[k] < |log|)
    && (forall k :: 0 <= k < |path| - 1 ==> IsParent(log, path[k + 1], path[k]))
    && IsRoot(log, path[|path| - 1])
  }

  lemma RootsAreUnique(log: seq<Message>, i: nat, j: nat)
    requires i < |log| && j < |log| && IsRoot(log, i) && IsRoot(log, j) && log[i].thread == log[j].thread
    ensures i == j
  {
  }

  /** Each thread is a tree: from every member such a path leads to the one root the thread has. */
  lemma {:induction false} EveryMemberReachesTheRoot(s: Store, i: nat) returns (path: seq<nat>)
    requires Forest(s) && i < |s.log|
    ensures PathToRoot(s.log, path) && path[0] == i
    ensures forall k :: 0 <= k < |path| ==> s.log[path[k]].thread == s.log[i].thread
    ensures forall r: nat :: r < |s.log| && s.log[r].thread == s.log[i].thread && IsRoot(s.log, r) ==>
      r == path[|path| - 1]
    decreases i
  {
    hide LinksTo, WellStored;
    assert Rooted(s.log, i);
    if IsRoot(s.log, i) {
      path := [i];
      forall r: nat | r < |s.log| && s.log[r].thread == s.log[i].thread && IsRoot(s.log, r) ensures r == i {
        RootsAreUnique(s.log, r, i);
      }
    } else {
      hide UniqueIds, Forest, PathToRoot, IsRoot;
      var j: nat :| IsParent(s.log, j, i);
      var rest := EveryMemberReachesTheRoot(s, j);
      PathFrom(s.log, i, j, rest);
      path := [i] + rest;
    }
  }

  lemma PathFrom(log: seq<Message>, i: nat, j: nat, rest: seq<nat>)
    requires i < |log| && IsParent(log, j, i) && PathToRoot(log, rest) && rest[0] == j
    ensures PathToRoot(log, [i] + rest)
  {
    hide IsParent, IsRoot;
    var path := [i] + rest;
    forall k | 0 <= k < |path| - 1 ensures IsParent(log, path[k + 1], path[k]) {
      if k > 0 { assert path[k + 1] == rest[k] && path[k] == rest[k - 1]; }
    }
  }

  // ---- aggregates ------------------------------------------------------------------------------

  function Members(log: seq<Message>, thread: int): seq<Message> {
    Filter((m: Message) => m.thread == thread, log)
  }

  ghost predicate FoldDistinct(xs: seq<string>) {
    forall i, j :: 0 <= i < j < |xs| ==> !EqFold(xs[i], xs[j])
  }

  /** The preview of the last message that has one. */
  function LastPreview(ms: seq<Message>): Option<string> {
    if ms == [] then None
    else if ms[|ms| - 1].preview.Some? then ms[|ms| - 1].preview
    else LastPreview(ms[..|ms| - 1])
  }

  /** What a row keeps from the message that opened the thread. */
  predicate Opens(item: ThreadItem, m: Message) {
    && (item.thread, item.org, item.pod, item.inbox) == (m.thread, m.org, m.pod, m.inbox)
    && item.subject == m.subject && item.labels == m.labels && item.receivedAt == Some(m.at) && item.sentAt == None
  }

  /** The row agrees with the thread's members. */
  ghost predicate Tallies(item: ThreadItem, ms: seq<Message>)
    requires ms != []
  {
    && item.count == Saturated(|ms|) && item.size == Saturated(Labels.TotalSize(ms))
    && item.lastMessage == ms[|ms| - 1].id && item.at == ms[|ms| - 1].at
    && item.preview == LastPreview(ms) && Opens(item, ms[0])
    && SendersTally(item.senders, ms) && RecipientsTally(item.recipients, ms)
  }

  ghost predicate SendersTally(senders: seq<string>, ms: seq<Message>) {
    && FoldDistinct(senders)
    && (forall m :: m in ms ==> HasFold(senders, m.from))
    && (forall x :: x in senders ==> exists m :: m in ms && m.from == x)
  }

  /** The opening To list is taken as it came, so duplicates in it, and only those, survive. */
  ghost predicate RecipientsTally(recipients: seq<string>, ms: seq<Message>)
    requires ms != []
  {
    && (forall m, x :: m in ms && x in m.to ==> HasFold(recipients, x))
    && (forall x :: x in recipients ==> exists m :: m in ms && x in m.to)
    && (FoldDistinct(recipients) <==> FoldDistinct(ms[0].to))
  }

  /** The row of a damaged thread: an orphan without members, or a count that lags behind. */
  predicate Lags(item: ThreadItem, ms: seq<Message>) {
    if ms == [] then item.count == 1 else item.count < |ms|
  }

  /** The thread, if any, whose row a delivery will leave at odds with its messages, read off the store and
      the delivery beforehand: opened and its message then refused, or joined and its row not updated. */
  function Damage(s: Store, e: Event): set<int> {
    var id := MessageIdOf(e.d);
    if id.None? || e.d.spfHardfail || Find(s.log, Lower(e.d.inbox), id.value).Some? then {}
    else
      match Threading.AssignmentOf(WholeIndex(s.log), CandidateOf(e.d, id.value))
      case Existing(thread, _) => JoinDamage(MessageOf(e.d, id.value, thread), e.fault)
      case New(_) => OpeningDamage(s, e.d, id.value, e.newId, e.fault)
  }

  function JoinDamage(m: Message, fault: Fault): set<int> {
    if Storable(m) && fault.MemberUpdateFails? then {m.thread} else {}
  }

  function OpeningDamage(s: Store, d: Delivery, id: string, newId: int, fault: Fault): set<int> {
    if InsertThread(s.threads, OpeningItem(d, id, newId)).None? || fault.ThreadInsertFails? then {}
    else if !Storable(MessageOf(d, id, newId)) || fault.MessageInsertFails? then {newId}
    else {}
  }

  function DamagedTo(events: seq<Event>, i: nat): set<int>
    requires i <= |events|
  {
    if i == 0 then {} else DamagedTo(events, i - 1) + Damage(RunTo(events, i - 1), events[i - 1])
  }

  ghost predicate Accounts(s: Store, damaged: set<int>) {
    && damaged <= s.threads.Keys
    && (forall t :: t in s.threads ==> AccountedFor(s.threads[t], Members(s.log, t), t in damaged))
  }

  ghost predicate AccountedFor(item: ThreadItem, ms: seq<Message>, damaged: bool) {
    if damaged then Lags(item, ms) else ms != [] && Tallies(item, ms)
  }

  lemma {:induction false} MembersSnoc(log: seq<Message>, m: Message, t: int)
    ensures Members(log + [m], t) == Members(log, t) + (if m.thread == t then [m] else [])
  {
    if log == [] {
      assert log + [m] == [m];
    } else {
      assert (log + [m])[0] == log[0] && (log + [m])[1..] == log[1..] + [m];
      MembersSnoc(log[1..], m, t);
    }
  }

  lemma {:induction false} TotalSizeSnoc(ms: seq<Message>, m: Message)
    ensures Labels.TotalSize(ms + [m]) == Labels.TotalSize(ms) + m.size
  {
    if ms == [] {
      assert ms + [m] == [m];
    } else {
      assert (ms + [m])[0] == ms[0] && (ms + [m])[1..] == ms[1..] + [m];
      TotalSizeSnoc(ms[1..], m);
    }
  }

  lemma AddFoldedMeans(xs: seq<string>, x: string)
    ensures xs <= AddFolded(xs, x) && HasFold(AddFolded(xs, x), x)
    ensures forall y :: y in AddFolded(xs, x) ==> y in xs || y == x
    ensures FoldDistinct(AddFolded(xs, x)) <==> FoldDistinct(xs)
  {
    var r := AddFolded(xs, x);
    if r != xs {
      assert r[|xs|] == x && EqFold(x, x);
      if FoldDistinct(xs) {
        forall i, j | 0 <= i < j < |r| ensures !EqFold(r[i], r[j]) {
          assert xs[i] in xs;
        }
      }
      if FoldDistinct(r) {
        forall i, j | 0 <= i < j < |xs| ensures !EqFold(xs[i], xs[j]) {
          assert r[i] == xs[i] && r[j] == xs[j];
        }
      }
    }
  }

  lemma {:induction false} AddAllFoldedMeans(xs: seq<string>, more: seq<string>)
    ensures var r := AddAllFolded(xs, more);
      && xs <= r && (forall y :: y in more ==> HasFold(r, y))
      && (forall y :: y in r ==> y in xs || y in more)
      && (FoldDistinct(r) <==> FoldDistinct(xs))
    decreases more
  {
    if more == [] {
    } else {
      var next := AddFolded(xs, more[0]);
      AddFoldedMeans(xs, more[0]);
      AddAllFoldedMeans(next, more[1..]);
      var r := AddAllFolded(next, more[1..]);
      hide AddAllFolded, AddFolded, FoldDistinct;
      forall y | y in more ensures HasFold(r, y) {
        if y == more[0] { FoldGrows(next, r, y); }
      }
    }
  }

  lemma FoldGrows(xs: seq<string>, ys: seq<string>, x: string)
    requires xs <= ys && HasFold(xs, x)
    ensures HasFold(ys, x)
  {
    var e :| e in xs && EqFold(e, x);
    assert e in ys;
  }

  lemma OpeningTallies(d: Delivery, id: string, thread: int)
    requires d.size <= I64_MAX
    ensures var m := MessageOf(d, id, thread);
      Tallies(OpeningItem(d, id, thread), [m])
  {
    hide EqFold, Threading.CanonicalLink, Lower, InboundLabels, Structured, FoldDistinct;
    var m := MessageOf(d, id, thread);
    assert Labels.TotalSize([m]) == m.size;
    assert [m][..0] == [] && LastPreview([m]) == m.preview;
    hide Labels.TotalSize, HasFold, AddFolded;
    OneIsDistinct(d.from);
    FoldsItself(d.from);
    forall x | x in d.to ensures HasFold(d.to, x) {
      FoldsItself(x);
    }
    assert m in [m];
  }

  lemma FoldsItself(x: string)
    ensures EqFold(x, x)
    ensures forall xs: seq<string> :: x in xs ==> HasFold(xs, x)
  {
  }

  lemma OneIsDistinct(x: string)
    ensures FoldDistinct([x])
  {
  }

  lemma JoiningTallies(item: ThreadItem, ms: seq<Message>, m: Message)
    requires ms != [] && Tallies(item, ms)
    ensures Tallies(WithMember(item, m), ms + [m])
  {
    hide SendersTally, RecipientsTally, AddFolded, AddAllFolded, Labels.TotalSize;
    TotalSizeSnoc(ms, m);
    SendersJoin(item.senders, ms, m);
    RecipientsJoin(item.recipients, ms, m);
    assert (ms + [m])[|ms + [m]| - 1] == m && (ms + [m])[..|ms|] == ms && (ms + [m])[0] == ms[0];
  }

  /** A member moves only what a member may: counters by one and by its size, up to the column's maximum; the
      last id, time and preview; and the lists. */
  lemma MemberMovesOnly(item: ThreadItem, m: Message)
    requires item.count <= 0x7FFF_FFFF_FFFF_FFFF && item.size <= 0x7FFF_FFFF_FFFF_FFFF
    ensures var r := WithMember(item, m);
      && r.count == (if item.count == 0x7FFF_FFFF_FFFF_FFFF then item.count else item.count + 1)
      && r.size == (if item.size + m.size > 0x7FFF_FFFF_FFFF_FFFF then 0x7FFF_FFFF_FFFF_FFFF else item.size + m.size)
      && r.lastMessage == m.id && r.at == m.at
      && r.preview == (if m.preview.Some? then m.preview else item.preview)
      && (r.thread, r.org, r.pod, r.inbox, r.labels) == (item.thread, item.org, item.pod, item.inbox, item.labels)
      && (r.subject, r.receivedAt, r.sentAt, r.attachments)
         == (item.subject, item.receivedAt, item.sentAt, item.attachments)
  {
  }

  lemma SendersJoin(senders: seq<string>, ms: seq<Message>, m: Message)
    requires SendersTally(senders, ms)
    ensures SendersTally(AddFolded(senders, m.from), ms + [m])
  {
    AddFoldedMeans(senders, m.from);
    var r := AddFolded(senders, m.from);
    hide AddFolded, FoldDistinct, HasFold;
    forall o | o in ms + [m] ensures HasFold(r, o.from) {
      if o in ms { FoldGrows(senders, r, o.from); }
    }
    forall x | x in r ensures exists o :: o in ms + [m] && o.from == x {
      if x in senders {
        var o :| o in ms && o.from == x;
        assert o in ms + [m];
      } else {
        assert m in ms + [m];
      }
    }
  }

  lemma RecipientsJoin(recipients: seq<string>, ms: seq<Message>, m: Message)
    requires ms != [] && RecipientsTally(recipients, ms)
    ensures RecipientsTally(AddAllFolded(recipients, m.to), ms + [m])
  {
    AddAllFoldedMeans(recipients, m.to);
    var r := AddAllFolded(recipients, m.to);
    hide AddAllFolded, FoldDistinct;
    forall o, x | o in ms + [m] && x in o.to ensures HasFold(r, x) {
      if o in ms { FoldGrows(recipients, r, x); }
    }
    forall x | x in r ensures exists o :: o in ms + [m] && x in o.to {
      if x in recipients {
        var o :| o in ms && x in o.to;
        assert o in ms + [m];
      } else {
        assert m in ms + [m];
      }
    }
    assert (ms + [m])[0] == ms[0];
  }

  lemma AccountsAfterOpening(s: Store, damaged: set<int>, d: Delivery, id: string, newId: int, fault: Fault)
    requires Forest(s) && Accounts(s, damaged) && Find(s.log, Lower(d.inbox), id).None? && d.size <= I64_MAX
    ensures Accounts(Opened(s, d, id, newId, fault).0, damaged + OpeningDamage(s, d, id, newId, fault))
  {
    hide Forest, Accounts, AccountedFor, OpeningItem, Storable, ThreadStorable, Members, HasNul, MessageOf;
    var after := Opened(s, d, id, newId, fault);
    var m := MessageOf(d, id, newId);
    OpeningInserts(s, d, id, newId);
    if newId !in s.threads { OpenedThread(s, d, id, newId); }
    assert damaged <= s.threads.Keys by { DamagedAreThreads(s, damaged); }
    if newId !in s.threads && newId in after.0.threads {
      OneThreadChanges(s, damaged, after.0, damaged + OpeningDamage(s, d, id, newId, fault), newId);
    } else {
      assert after.0 == s && damaged + OpeningDamage(s, d, id, newId, fault) == damaged;
    }
  }

  lemma OpeningInserts(s: Store, d: Delivery, id: string, newId: int)
    requires Find(s.log, Lower(d.inbox), id).None?
    ensures var r := InsertMessage(s.log, MessageOf(d, id, newId));
      if Storable(MessageOf(d, id, newId)) then r == Ok(s.log + [MessageOf(d, id, newId)])
      else r.Err? && Refusal(r.error).StoreFailed?
    ensures OpeningItem(d, id, newId).thread == newId
  {
    hide Storable, InsertMessage;
    LowerIdempotent(d.inbox);
    NewIdInserts(s.log, MessageOf(d, id, newId));
  }

  lemma DamagedAreThreads(s: Store, damaged: set<int>)
    requires Accounts(s, damaged)
    ensures damaged <= s.threads.Keys
  {
  }

  lemma OpenedThread(s: Store, d: Delivery, id: string, newId: int)
    requires Forest(s) && newId !in s.threads && d.size <= I64_MAX
    ensures var m := MessageOf(d, id, newId);
      && m.thread == newId
      && (forall t :: t != newId ==> Members(s.log + [m], t) == Members(s.log, t))
      && AccountedFor(OpeningItem(d, id, newId), Members(s.log, newId), true)
      && AccountedFor(OpeningItem(d, id, newId), Members(s.log + [m], newId), false)
  {
    var m := MessageOf(d, id, newId);
    forall i | 0 <= i < |s.log| ensures s.log[i].thread != newId {
    }
    NoMembers(s.log, newId);
    OpeningTallies(d, id, newId);
    hide Forest, Tallies, Members;
    forall t ensures Members(s.log + [m], t) == Members(s.log, t) + (if m.thread == t then [m] else []) {
      MembersSnoc(s.log, m, t);
    }
    assert Members(s.log, newId) + [m] == [m];
  }

  lemma OneThreadChanges(s: Store, damaged: set<int>, after: Store, now: set<int>, changed: int)
    requires Accounts(s, damaged) && changed in after.threads
    requires after.threads.Keys == s.threads.Keys + {changed} && damaged <= now <= damaged + {changed}
    requires forall t :: t in s.threads && t != changed ==> after.threads[t] == s.threads[t]
    requires forall t :: t != changed ==> Members(after.log, t) == Members(s.log, t)
    requires AccountedFor(after.threads[changed], Members(after.log, changed), changed in now)
    ensures Accounts(after, now)
  {
    hide Members, AccountedFor;
    forall t | t in after.threads ensures AccountedFor(after.threads[t], Members(after.log, t), t in now) {
    }
  }

  lemma {:induction false} NoMembers(log: seq<Message>, thread: int)
    requires forall i :: 0 <= i < |log| ==> log[i].thread != thread
    ensures Members(log, thread) == []
  {
    if log == [] {
    } else {
      NoMembers(log[1..], thread);
    }
  }

  lemma AccountsAfterJoin(s: Store, damaged: set<int>, m: Message, fault: Fault)
    requires Accounts(s, damaged) && m.thread in s.threads && Members(s.log, m.thread) != []
    requires Lower(m.inbox) == m.inbox && Find(s.log, m.inbox, m.id).None?
    ensures Accounts(Joined(s, m, fault).0, damaged + JoinDamage(m, fault))
  {
    hide Members, Tallies, Lags, WithMember, Storable;
    var after := Joined(s, m, fault);
    var ms := Members(s.log, m.thread);
    NewIdInserts(s.log, m);
    hide InsertMessage;
    assert AccountedFor(s.threads[m.thread], ms, m.thread in damaged);
    JoinIsAccountedFor(s.threads[m.thread], ms, m, m.thread in damaged);
    hide Accounts, AccountedFor;
    forall t ensures Members(s.log + [m], t) == Members(s.log, t) + (if m.thread == t then [m] else []) {
      MembersSnoc(s.log, m, t);
    }
    if |after.0.log| == |s.log| {
      assert damaged + JoinDamage(m, fault) == damaged;
    } else {
      OneThreadChanges(s, damaged, after.0, damaged + JoinDamage(m, fault), m.thread);
    }
  }

  lemma JoinIsAccountedFor(item: ThreadItem, ms: seq<Message>, m: Message, damaged: bool)
    requires ms != [] && AccountedFor(item, ms, damaged)
    ensures AccountedFor(WithMember(item, m), ms + [m], damaged)
    ensures AccountedFor(item, ms + [m], true)
  {
    if !damaged {
      JoiningTallies(item, ms, m);
    }
    hide SendersTally, RecipientsTally;
  }

  lemma {:induction false} RunsKeepAccounts(events: seq<Event>, i: nat)
    requires i <= |events|
    requires forall k :: 0 <= k < |events| ==> events[k].d.size <= I64_MAX
    ensures Accounts(RunTo(events, i), DamagedTo(events, i))
  {
    hide Accounts, Forest, Deliver, Damage;
    if i == 0 {
      EmptyAccounts();
    } else {
      RunsKeepAccounts(events, i - 1);
      RunsKeepForest(events, i - 1);
      DeliveryKeepsAccounts(RunTo(events, i - 1), DamagedTo(events, i - 1), events[i - 1]);
    }
  }

  lemma EmptyAccounts()
    ensures Accounts(Store([], map[]), {})
  {
  }

  lemma JoinedThreadHasMembers(s: Store, d: Delivery, id: string)
    requires Forest(s) && MessageIdOf(d) == Some(id)
    requires Threading.AssignmentOf(WholeIndex(s.log), CandidateOf(d, id)).Existing?
    ensures var thread := Threading.AssignmentOf(WholeIndex(s.log), CandidateOf(d, id)).thread;
      MessageOf(d, id, thread).thread == thread && thread in s.threads && Members(s.log, thread) != []
  {
    var j := JoinHasAParent(s, d, id);
    assert s.log[j] in s.log;
    assert s.log[j] in Members(s.log, s.log[j].thread);
  }

  lemma JoinedKey(d: Delivery, id: string, thread: int)
    ensures var m := MessageOf(d, id, thread);
      Lower(m.inbox) == m.inbox == Lower(d.inbox) && m.id == id
  {
    LowerIdempotent(d.inbox);
  }

  lemma DeliveryKeepsAccounts(s: Store, damaged: set<int>, e: Event)
    requires Forest(s) && Accounts(s, damaged) && e.d.size <= I64_MAX
    ensures Accounts(Deliver(s, e.d, e.newId, e.fault).0, damaged + Damage(s, e))
  {
    hide Accounts, Opened, Joined, MessageOf, OpeningDamage, JoinDamage, CandidateOf, Threading.AssignmentOf,
        WholeIndex, Find, MessageIdOf;
    var after := Deliver(s, e.d, e.newId, e.fault);
    var id := MessageIdOf(e.d);
    if id.Some? && !e.d.spfHardfail && Find(s.log, Lower(e.d.inbox), id.value).None? {
      var a := Threading.AssignmentOf(WholeIndex(s.log), CandidateOf(e.d, id.value));
      if a.Existing? {
        JoinedThreadHasMembers(s, e.d, id.value);
        JoinedKey(e.d, id.value, a.thread);
        AccountsAfterJoin(s, damaged, MessageOf(e.d, id.value, a.thread), e.fault);
      } else {
        AccountsAfterOpening(s, damaged, e.d, id.value, e.newId, e.fault);
      }
    } else {
      assert after.0 == s && Damage(s, e) == {};
      assert damaged + {} == damaged;
    }
  }

  /** In every run, failures included: a thread's row agrees with its members iff no delivery was bound to
      damage that very thread; otherwise its count is wrong for good. */
  lemma AggregatesAreConserved(events: seq<Event>, i: nat, t: int)
    requires i <= |events| && t in RunTo(events, i).threads
    requires forall k :: 0 <= k < |events| ==> events[k].d.size <= I64_MAX
    requires |RunTo(events, i).log| <= I64_MAX
    ensures var s := RunTo(events, i);
      var ms := Members(s.log, t);
      && (t !in DamagedTo(events, i) <==> s.threads[t].count == |ms|)
      && (t !in DamagedTo(events, i) ==> ms != [] && Tallies(s.threads[t], ms))
  {
    RunsKeepAccounts(events, i);
  }

  /** Texts the threads row binds. */
  predicate CleanForThread(d: Delivery, id: string) {
    && !HasNul(d.inbox) && !HasNul(d.org) && !HasNul(id) && !HasNul(d.from)
    && Clean(d.to) && CleanText(d.subject) && CleanText(d.preview)
  }

  /** Texts only the messages row binds: linkage, carbon copies, attachment metadata, headers and bodies. */
  predicate CleanForMessage(d: Delivery) {
    && CleanText(InReplyToOf(d)) && Clean(Structured(d.referenceTexts))
    && Clean(Listed(d.cc)) && Clean(Listed(d.bcc)) && CleanAttachments(Listed(d.attachments)) && Clean(d.rest)
  }

  /** What a NUL does to a delivery that opens a thread. In a text of the thread row it stops the delivery
      before anything is stored; in any other text it is refused only after the thread row is written,
      which leaves a thread that counts one message and has none; and only then is anything left behind. */
  lemma OrphanOpenedIff(s: Store, d: Delivery, newId: int)
    requires Forest(s) && newId !in s.threads && MessageIdOf(d).Some? && !d.spfHardfail
    requires Find(s.log, Lower(d.inbox), MessageIdOf(d).value).None?
    requires Threading.AssignmentOf(WholeIndex(s.log), CandidateOf(d, MessageIdOf(d).value)).New?
    ensures var (after, r) := Deliver(s, d, newId, NoFault);
      var forThread, forMessage := CleanForThread(d, MessageIdOf(d).value), CleanForMessage(d);
      && ((after, r) == (s, StoreFailed) <==> !forThread)
      && (r == Accepted(newId) <==> forThread && forMessage)
      && (newId in after.threads && Members(after.log, newId) == [] <==> forThread && !forMessage)
      && (forThread && !forMessage ==> r.StoreFailed? && after.threads[newId].count == 1 && after.log == s.log)
  {
    var id := MessageIdOf(d).value;
    NobodyIn(s, newId);
    OpeningInserts(s, d, id, newId);
    OpeningTexts(d, id, newId);
    assert OpeningItem(d, id, newId).count == 1 && MessageOf(d, id, newId).thread == newId;
    hide Forest, Storable, ThreadStorable, CleanForThread, CleanForMessage, Members, InsertMessage, MessageOf,
        OpeningItem, MessageIdOf, Find, Threading.AssignmentOf, WholeIndex, CandidateOf;
    MembersSnoc(s.log, MessageOf(d, id, newId), newId);
    assert newId !in s.threads;
  }

  lemma NobodyIn(s: Store, newId: int)
    requires Forest(s) && newId !in s.threads
    ensures Members(s.log, newId) == []
  {
    forall i | 0 <= i < |s.log| ensures s.log[i].thread != newId {
    }
    NoMembers(s.log, newId);
  }

  lemma OpeningTexts(d: Delivery, id: string, newId: int)
    ensures ThreadStorable(OpeningItem(d, id, newId)) <==> CleanForThread(d, id)
    ensures Storable(MessageOf(d, id, newId)) <==> CleanForThread(d, id) && CleanForMessage(d)
  {
    LowerKeepsNul(d.inbox);
    LabelsAreClean(d.authenticated);
    hide HasNul, InboundLabels, Structured, Lower;
    assert d.from in [d.from];
  }

  lemma LabelsAreClean(authenticated: bool)
    ensures Clean(InboundLabels(authenticated))
  {
  }
}
