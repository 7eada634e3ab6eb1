/** Restricted-label admission, thread redaction and label mutation. */
module Labels {
  import opened Prelude
  import opened Mail

  const SPAM := "spam"
  const BLOCKED := "blocked"
  const UNAUTHENTICATED := "unauthenticated"
  const TRASH := "trash"
  const RECEIVED := "received"
  const SENT := "sent"
  const RESTRICTED: seq<string> := [SPAM, BLOCKED, UNAUTHENTICATED, TRASH]

  datatype Grants = Unrestricted | Restricted(flags: set<string>)

  /** Which request path asks: only a list can fail to ask for a label. */
  datatype Mode = List(requested: set<string>) | Search | ById

  datatype Access = Access(grants: Grants, mode: Mode)

  function ReadFlag(name: string): string {
    "label_" + name + "_read"
  }

  predicate Permitted(access: Access, name: string) {
    name in RESTRICTED && access.grants.Restricted? ==> ReadFlag(name) in access.grants.flags
  }

  predicate Requested(access: Access, name: string) {
    access.mode.List? ==> name in access.mode.requested
  }

  datatype DenialKind = NotPermitted | NotRequested

  datatype Denial = Denial(kind: DenialKind, name: string)

  function FirstRefused(labels: seq<string>, refuses: string -> bool): Option<string> {
    if labels == [] then None
    else if labels[0] in RESTRICTED && refuses(labels[0]) then Some(labels[0])
    else FirstRefused(labels[1..], refuses)
  }

  /** Permission is examined for every label before any label's include flag is. */
  function Admit(labels: seq<string>, access: Access): Result<(), Denial> {
    match FirstRefused(labels, l => !Permitted(access, l))
    case Some(l) => Err(Denial(NotPermitted, l))
    case None =>
      match FirstRefused(labels, l => !Requested(access, l))
      case Some(l) => Err(Denial(NotRequested, l))
      case None => Ok(())
  }

  predicate Admits(labels: seq<string>, access: Access) {
    Admit(labels, access).Ok?
  }

  /** The labels a query must exclude: the verdict of `Admit`, one restricted label at a time. */
  function ExcludedLabels(access: Access): seq<string> {
    Filter(l => !Admits([l], access), RESTRICTED)
  }

  /** The reference rule: one of the four restricted labels, without its read permission or, on a list,
      without a request for it. */
  predicate Hidden(name: string, access: Access) {
    && name in ["spam", "blocked", "unauthenticated", "trash"]
    && (Withholds(access, name) || (access.mode.List? && name !in access.mode.requested))
  }

  predicate Withholds(access: Access, name: string) {
    access.grants.Restricted? && "label_" + name + "_read" !in access.grants.flags
  }

  lemma {:induction false} FirstRefusedFinds(labels: seq<string>, refuses: string -> bool)
    ensures FirstRefused(labels, refuses).None? <==> forall l :: l in labels && l in RESTRICTED ==> !refuses(l)
    ensures FirstRefused(labels, refuses).Some? ==>
      exists i :: FirstAt(labels, i, l => l in RESTRICTED && refuses(l))
        && labels[i] == FirstRefused(labels, refuses).value
  {
    if labels == [] {
    } else {
      FirstRefusedFinds(labels[1..], refuses);
      var r, chosen := FirstRefused(labels, refuses), (l: string) => l in RESTRICTED && refuses(l);
      if labels[0] in RESTRICTED && refuses(labels[0]) {
        assert FirstAt(labels, 0, chosen);
      } else if r.Some? {
        var i :| FirstAt(labels[1..], i, chosen) && labels[1..][i] == r.value;
        assert FirstAt(labels, i + 1, chosen);
      }
    }
  }

  /** Label i is the first that `chosen` holds of. */
  predicate FirstAt(labels: seq<string>, i: int, chosen: string -> bool) {
    0 <= i < |labels| && chosen(labels[i]) && forall j :: 0 <= j < i ==> !chosen(labels[j])
  }

  /** The verdict is the reference rule. A refusal names the first label refused for its reason, and a
      missing permission, wherever it stands, goes before a missing request. */
  lemma AdmitMeans(labels: seq<string>, access: Access)
    ensures Admits(labels, access) <==> forall l :: l in labels ==> !Hidden(l, access)
    ensures Admit(labels, access).Err? ==>
      var e := Admit(labels, access).error;
      && (e.kind.NotPermitted? <==> exists l :: l in labels && Hidden(l, access) && Withholds(access, l))
      && exists i :: FirstAt(labels, i, l => Hidden(l, access) && (e.kind.NotPermitted? ==> Withholds(access, l)))
           && labels[i] == e.name
  {
    FirstRefusedFinds(labels, l => !Permitted(access, l));
    FirstRefusedFinds(labels, l => !Requested(access, l));
    var unpermitted := (l: string) => l in RESTRICTED && !Permitted(access, l);
    var unrequested := (l: string) => l in RESTRICTED && !Requested(access, l);
    forall l
      ensures unpermitted(l) <==> Hidden(l, access) && Withholds(access, l)
      ensures Hidden(l, access) <==> unpermitted(l) || unrequested(l)
    {
    }
    hide Hidden, Withholds, Permitted, Requested;
    if Admit(labels, access).Err? {
      var e := Admit(labels, access).error;
      var named := (l: string) => Hidden(l, access) && (e.kind.NotPermitted? ==> Withholds(access, l));
      if e.kind.NotPermitted? {
        var i :| FirstAt(labels, i, unpermitted) && labels[i] == e.name;
        FirstAtAlike(labels, i, unpermitted, named);
      } else {
        assert forall l :: l in labels ==> !unpermitted(l);
        var i :| FirstAt(labels, i, unrequested) && labels[i] == e.name;
        FirstAtAlike(labels, i, unrequested, named);
      }
    }
  }

  lemma FirstAtAlike(labels: seq<string>, i: int, p: string -> bool, q: string -> bool)
    requires FirstAt(labels, i, p) && forall l :: l in labels ==> (p(l) <==> q(l))
    ensures FirstAt(labels, i, q)
  {
  }

  /** Pushed-down exclusion is the in-memory verdict. */
  lemma ExclusionIsAdmission(labels: seq<string>, access: Access)
    ensures Admits(labels, access) <==> forall l :: l in labels ==> l !in ExcludedLabels(access)
  {
    AdmitMeans(labels, access);
    forall l | l in labels ensures l in ExcludedLabels(access) <==> Hidden(l, access) {
      AdmitMeans([l], access);
      assert l in [l];
    }
  }

  // ---- mutation -------------------------------------------------------------------------------

  function Appended(out: seq<string>, add: seq<string>, remove: seq<string>): seq<string>
    decreases add
  {
    if add == [] then out
    else if add[0] !in remove && add[0] !in out then Appended(out + [add[0]], add[1..], remove)
    else Appended(out, add[1..], remove)
  }

  function Mutated(current: seq<string>, add: seq<string>, remove: seq<string>): seq<string> {
    Appended(Filter(l => l !in remove, current), add, remove)
  }

  method ApplyMutation(current: seq<string>, add: seq<string>, remove: seq<string>) returns (out: seq<string>)
    ensures out == Mutated(current, add, remove)
  {
    out := Filter(l => l !in remove, current);
    var i := 0;
    while i < |add|
      invariant 0 <= i <= |add|
      invariant Appended(out, add[i..], remove) == Mutated(current, add, remove)
    {
      if add[i] !in remove && add[i] !in out {
        out := out + [add[i]];
      }
      assert add[i..][1..] == add[i + 1..];
      i := i + 1;
    }
  }

  predicate Distinct(xs: seq<string>) {
    forall i, j :: 0 <= i < j < |xs| ==> xs[i] != xs[j]
  }

  lemma {:induction false} AppendedMeans(out: seq<string>, add: seq<string>, remove: seq<string>)
    ensures var r := Appended(out, add, remove);
      && out <= r
      && (forall l :: l in r <==> l in out || (l in add && l !in remove))
      && Distinct(r[|out|..])
      && (forall l :: l in r[|out|..] ==> l !in out)
    decreases add
  {
    if add == [] {
    } else {
      if add[0] !in remove && add[0] !in out {
        var more := out + [add[0]];
        AppendedMeans(more, add[1..], remove);
        var r := Appended(more, add[1..], remove);
        assert add[0] == more[|out|] && add[0] in more;
        assert r[|out|..] == [add[0]] + r[|more|..];
        forall k | 0 <= k < |r[|more|..]| ensures r[|more|..][k] != add[0] {
          assert r[|more|..][k] in r[|more|..];
        }
      } else {
        AppendedMeans(out, add[1..], remove);
      }
    }
  }

  /** The result is (current + add) - remove; survivors keep their order and duplicates in front,
      and each new label is appended once. */
  lemma MutationMeans(current: seq<string>, add: seq<string>, remove: seq<string>)
    ensures var r := Mutated(current, add, remove);
      var kept := Filter(l => l !in remove, current);
      && (forall l :: l in r <==> (l in current || l in add) && l !in remove)
      && kept <= r && Distinct(r[|kept|..]) && (forall l :: l in r[|kept|..] ==> l !in current)
  {
    AppendedMeans(Filter(l => l !in remove, current), add, remove);
  }

  lemma {:induction false} AppendedSnoc(out: seq<string>, add: seq<string>, remove: seq<string>, l: string)
    ensures var r := Appended(out, add, remove);
      Appended(out, add + [l], remove) == if l in remove || l in r then r else r + [l]
    decreases add
  {
    if add == [] {
      assert add + [l] == [l];
    } else {
      assert (add + [l])[0] == add[0] && (add + [l])[1..] == add[1..] + [l];
      AppendedSnoc(if add[0] !in remove && add[0] !in out then out + [add[0]] else out, add[1..], remove, l);
    }
  }

  /** New labels come in the order they are given: one more, last, is appended if it is new and stays. */
  lemma MutationAppends(current: seq<string>, add: seq<string>, remove: seq<string>, l: string)
    ensures Mutated(current, [], remove) == Filter(x => x !in remove, current)
    ensures var r := Mutated(current, add, remove);
      Mutated(current, add + [l], remove) == if l in remove || l in r then r else r + [l]
  {
    AppendedSnoc(Filter(x => x !in remove, current), add, remove, l);
  }

  lemma {:induction false} FilterAll(keep: string -> bool, xs: seq<string>)
    requires forall x :: x in xs ==> keep(x)
    ensures Filter(keep, xs) == xs
  {
    if xs == [] {
    } else {
      FilterAll(keep, xs[1..]);
    }
  }

  lemma {:induction false} AppendedNothing(out: seq<string>, add: seq<string>, remove: seq<string>)
    requires forall l :: l in add && l !in remove ==> l in out
    ensures Appended(out, add, remove) == out
    decreases add
  {
    if add == [] {
    } else {
      AppendedNothing(out, add[1..], remove);
    }
  }

  lemma MutationIsIdempotent(current: seq<string>, add: seq<string>, remove: seq<string>)
    ensures var r := Mutated(current, add, remove); Mutated(r, add, remove) == r
  {
    var r := Mutated(current, add, remove);
    MutationMeans(current, add, remove);
    FilterAll(l => l !in remove, r);
    AppendedNothing(r, add, remove);
  }

  // ---- redaction ------------------------------------------------------------------------------

  datatype Redaction = Unchanged | Redacted | Withheld

  function TotalSize(messages: seq<Message>): nat {
    if messages == [] then 0 else messages[0].size + TotalSize(messages[1..])
  }

  /** The latest timestamp among the messages carrying `name`. */
  function LatestLabelled(messages: seq<Message>, name: string): Option<int> {
    if messages == [] then None
    else
      var rest := LatestLabelled(messages[1..], name);
      if name !in messages[0].labels then rest
      else if rest.None? || messages[0].at >= rest.value then Some(messages[0].at)
      else rest
  }

  predicate SentBy(messages: seq<Message>, sender: string) {
    exists m :: m in messages && m.from == sender
  }

  predicate AddressedTo(messages: seq<Message>, r: string) {
    exists m :: m in messages && (r in m.to || r in Listed(m.cc) || r in Listed(m.bcc))
  }

  /** Attachments are matched by id, whatever else their metadata says. */
  predicate Attached(messages: seq<Message>, a: Attachment) {
    exists m, kept :: m in messages && kept in Listed(m.attachments) && kept.id == a.id
  }

  function Visible(messages: seq<Message>, access: Access): seq<Message> {
    Filter((m: Message) => Admits(m.labels, access), messages)
  }

  /** Every aggregate of a thread, recomputed or filtered from the messages that remain. */
  function Recomputed(item: ThreadItem, kept: seq<Message>): ThreadItem
    requires kept != []
  {
    var last := kept[|kept| - 1];
    item.(lastMessage := last.id, at := last.at, preview := last.preview,
          count := |kept|, size := TotalSize(kept),
          receivedAt := LatestLabelled(kept, RECEIVED), sentAt := LatestLabelled(kept, SENT),
          senders := Filter(s => SentBy(kept, s), item.senders),
          recipients := Filter(r => AddressedTo(kept, r), item.recipients),
          attachments := if item.attachments.Some? then Some(Filter(a => Attached(kept, a), item.attachments.value))
              else None)
  }

  class Thread {
    var item: ThreadItem
    var messages: seq<Message>

    constructor (item: ThreadItem, messages: seq<Message>)
      ensures this.item == item && this.messages == messages
    {
      this.item := item;
      this.messages := messages;
    }

    /** Drop what the caller may not see and re-derive the aggregates, in place. */
    method Redact(access: Access) returns (r: Redaction)
      modifies this
      ensures r.Unchanged? <==> Admits(old(item).labels, access) && Visible(old(messages), access) == old(messages)
      ensures r.Unchanged? ==> item == old(item) && messages == old(messages)
      ensures r.Withheld? <==> old(messages) != [] && Visible(old(messages), access) == []
      ensures !r.Withheld? ==> messages == Visible(old(messages), access) && Admits(item.labels, access)
      ensures r.Redacted? ==> item == Stripped(old(item), old(messages), access)
    {
      hide Admits, SentBy, AddressedTo, Attached, TotalSize, LatestLabelled;
      LabelwiseAdmission(item.labels, access);
      VisibleIsAll(messages, access);
      var leaksALabel := exists l | l in item.labels :: !Admits([l], access);
      var hidesAMember := exists m | m in messages :: !Admits(m.labels, access);
      if !leaksALabel && !hidesAMember {
        return Unchanged;
      }
      item := item.(labels := Filter(l => Admits([l], access), item.labels));
      LabelwiseAdmission(item.labels, access);
      if !hidesAMember {
        return Redacted;
      }
      messages := Filter((m: Message) => Admits(m.labels, access), messages);
      if messages == [] {
        return Withheld;
      }
      Reaggregate();
      return Redacted;
    }

    method Reaggregate()
      requires messages != []
      modifies this`item
      ensures item == Recomputed(old(item), messages)
    {
      hide SentBy, AddressedTo, Attached, TotalSize, LatestLabelled;
      var last := messages[|messages| - 1];
      item := item.(lastMessage := last.id, at := last.at, preview := last.preview);
      item := item.(count := |messages|, size := TotalSize(messages));
      item := item.(receivedAt := LatestLabelled(messages, RECEIVED), sentAt := LatestLabelled(messages, SENT));
      var kept := messages;
      item := item.(senders := Filter(s => SentBy(kept, s), item.senders));
      item := item.(recipients := Filter(a => AddressedTo(kept, a), item.recipients));
      if item.attachments.Some? {
        item := item.(attachments := Some(Filter(a => Attached(kept, a), item.attachments.value)));
      }
    }
  }

  /** The item a redaction leaves when at least one member survives. */
  function Stripped(item: ThreadItem, messages: seq<Message>, access: Access): ThreadItem {
    var labelled := item.(labels := Filter(l => Admits([l], access), item.labels));
    var kept := Visible(messages, access);
    if kept == messages || kept == [] then labelled else Recomputed(labelled, kept)
  }

  lemma LabelwiseAdmission(labels: seq<string>, access: Access)
    ensures Admits(labels, access) <==> forall l :: l in labels ==> Admits([l], access)
  {
    AdmitMeans(labels, access);
    forall l | l in labels ensures Admits([l], access) <==> !Hidden(l, access) {
      AdmitMeans([l], access);
      assert l in [l];
    }
  }

  lemma {:induction false} VisibleIsAll(messages: seq<Message>, access: Access)
    ensures Visible(messages, access) == messages <==> forall m :: m in messages ==> Admits(m.labels, access)
    ensures Visible(messages, access) != messages ==> |Visible(messages, access)| < |messages|
  {
    if messages == [] {
    } else {
      VisibleIsAll(messages[1..], access);
      if Admits(messages[0].labels, access) {
        assert Visible(messages, access)[1..] == Visible(messages[1..], access);
      }
    }
  }

  lemma {:induction false} VisibleAgain(messages: seq<Message>, access: Access)
    ensures Visible(Visible(messages, access), access) == Visible(messages, access)
  {
    VisibleIsAll(Visible(messages, access), access);
  }

  /** What is served discloses nothing further: redacting it again changes nothing. */
  method RedactTwice(item: ThreadItem, messages: seq<Message>, access: Access) returns (first: Redaction,
      second: Redaction)
    ensures !first.Withheld? ==> second.Unchanged?
  {
    var thread := new Thread(item, messages);
    first := thread.Redact(access);
    VisibleAgain(messages, access);
    second := thread.Redact(access);
  }

  predicate HidesAMember(messages: seq<Message>, access: Access) {
    Visible(messages, access) != messages
  }

  /** Count, size, last id, times and preview. */
  function Aggregates(item: ThreadItem): (int, int, string, int, Option<int>, Option<int>, Option<string>) {
    (item.count, item.size, item.lastMessage, item.at, item.receivedAt, item.sentAt, item.preview)
  }

  /** What a caller learns of what it may not see, put as two threads redacted side by side. When both hide a
      member and show the same ones, the messages and all seven aggregates come out equal, whatever the
      aggregates said before, and equal items come out equal. When nothing is hidden, nothing but the
      labels moves. */
  method RedactBoth(t: Thread, u: Thread, access: Access) returns (r: Redaction, q: Redaction)
    requires t != u
    modifies t, u
    ensures var seen := Visible(old(t.messages), access);
      HidesAMember(old(t.messages), access) && HidesAMember(old(u.messages), access)
      && seen == Visible(old(u.messages), access) != [] ==>
        && r == q == Redacted && t.messages == u.messages == seen && Aggregates(t.item) == Aggregates(u.item)
        && (old(t.item) == old(u.item) ==> t.item == u.item)
    ensures !HidesAMember(old(t.messages), access) ==>
      t.messages == old(t.messages) && t.item.(labels := old(t.item).labels) == old(t.item)
    ensures !HidesAMember(old(u.messages), access) ==>
      u.messages == old(u.messages) && u.item.(labels := old(u.item).labels) == old(u.item)
  {
    hide Admits, SentBy, AddressedTo, Attached, TotalSize, LatestLabelled, Visible;
    r := t.Redact(access);
    q := u.Redact(access);
  }

  /** The caller may see this member. */
  predicate Sees(access: Access, messages: seq<Message>, m: Message) {
    m in messages && forall l :: l in m.labels ==> !Hidden(l, access)
  }

  /** Every surviving sender, recipient, attachment and label is accounted for by members the caller may see,
      none is invented and none that is accounted for is dropped; and nothing else of the row is lost. */
  lemma SurvivorsAreAccountedFor(item: ThreadItem, messages: seq<Message>, access: Access)
    requires Visible(messages, access) != [] && Visible(messages, access) != messages
    ensures var s := Stripped(item, messages, access);
      && (forall x :: x in s.senders <==> x in item.senders && exists m :: Sees(access, messages, m) && m.from == x)
      && (forall x :: x in s.recipients <==>
            x in item.recipients
            && exists m :: Sees(access, messages, m) && (x in m.to || x in Listed(m.cc) || x in Listed(m.bcc)))
      && (forall x :: x in Listed(s.attachments) <==>
            x in Listed(item.attachments)
            && exists m, a :: Sees(access, messages, m) && a in Listed(m.attachments) && a.id == x.id)
      && (forall x :: x in s.labels <==> x in item.labels && !Hidden(x, access))
      && s.subject == item.subject && (s.thread, s.org, s.pod, s.inbox) == (item.thread, item.org, item.pod, item.inbox)
  {
    VisibleMeans(messages, access);
    forall x | x in item.labels ensures Admits([x], access) <==> !Hidden(x, access) {
      AdmitMeans([x], access);
      assert x in [x];
    }
    var kept, s := Visible(messages, access), Stripped(item, messages, access);
    hide Admits, Hidden, TotalSize, LatestLabelled, Sees, Visible;
    forall x ensures SentBy(kept, x) <==> exists m :: Sees(access, messages, m) && m.from == x {
    }
    forall x ensures AddressedTo(kept, x) <==>
        exists m :: Sees(access, messages, m) && (x in m.to || x in Listed(m.cc) || x in Listed(m.bcc)) {
    }
    forall x ensures Attached(kept, x) <==>
        exists m, a :: Sees(access, messages, m) && a in Listed(m.attachments) && a.id == x.id {
    }
  }

  lemma VisibleMeans(messages: seq<Message>, access: Access)
    ensures forall m :: m in Visible(messages, access) <==> Sees(access, messages, m)
  {
    forall m: Message ensures Admits(m.labels, access) <==> forall l :: l in m.labels ==> !Hidden(l, access) {
      AdmitMeans(m.labels, access);
    }
  }

  predicate Unseen(messages: seq<Message>, access: Access, i: nat)
    requires i < |messages|
  {
    !Sees(access, messages, messages[i])
  }

  /** The members that are left out. */
  function Invisible(messages: seq<Message>, access: Access): seq<Message> {
    Filter((m: Message) => !Admits(m.labels, access), messages)
  }

  lemma {:induction false} VisibleAndNot(messages: seq<Message>, access: Access)
    ensures |Visible(messages, access)| + |Invisible(messages, access)| == |messages|
    ensures TotalSize(Visible(messages, access)) + TotalSize(Invisible(messages, access)) == TotalSize(messages)
  {
    if messages == [] {
    } else {
      hide Admits;
      VisibleAndNot(messages[1..], access);
    }
  }

  lemma {:induction false} VisibleEnds(messages: seq<Message>, access: Access) returns (k: nat)
    requires Visible(messages, access) != []
    ensures k < |messages| && Admits(messages[k].labels, access)
    ensures forall j :: k < j < |messages| ==> !Admits(messages[j].labels, access)
    ensures var kept := Visible(messages, access); kept[|kept| - 1] == messages[k]
  {
    var n := |messages| - 1;
    assert messages == messages[..n] + [messages[n]];
    FilterIsPiecewise((m: Message) => Admits(m.labels, access), messages[..n], [messages[n]]);
    FilterIsPiecewise((m: Message) => Admits(m.labels, access), [messages[n]], []);
    hide Admits;
    if Admits(messages[n].labels, access) {
      k := n;
    } else {
      k := VisibleEnds(messages[..n], access);
    }
  }

  /** When a member is hidden and one is left: the last member the caller may see gives last id, time and
      preview; hidden and counted members make up all, and so do their sizes; and the received and sent times
      are the latest among those it may see. */
  lemma AggregatesAreOfWhatIsSeen(item: ThreadItem, messages: seq<Message>, access: Access) returns (k: nat)
    requires Visible(messages, access) != [] && Visible(messages, access) != messages
    ensures var s := Stripped(item, messages, access);
      && k < |messages| && !Unseen(messages, access, k)
      && (forall j :: k < j < |messages| ==> Unseen(messages, access, j))
      && s.lastMessage == messages[k].id && s.at == messages[k].at && s.preview == messages[k].preview
      && s.count + |Invisible(messages, access)| == |messages|
      && s.size + TotalSize(Invisible(messages, access)) == TotalSize(messages)
      && IsLatest(s.receivedAt, messages, access, "received") && IsLatest(s.sentAt, messages, access, "sent")
  {
    k := VisibleEnds(messages, access);
    VisibleAndNot(messages, access);
    VisibleMeans(messages, access);
    forall i | 0 <= i < |messages| ensures Unseen(messages, access, i) <==> !Admits(messages[i].labels, access) {
      AdmitMeans(messages[i].labels, access);
    }
    LatestIsTheMaximum(Visible(messages, access), RECEIVED);
    LatestIsTheMaximum(Visible(messages, access), SENT);
    hide Admits, Sees, Visible, LatestLabelled, TotalSize, SentBy, AddressedTo, Attached, Unseen, Invisible;
  }

  /** The latest time of a member with the label that the caller may see, absent when there is none. */
  ghost predicate IsLatest(at: Option<int>, messages: seq<Message>, access: Access, name: string) {
    && (at.None? <==> forall m :: Sees(access, messages, m) ==> name !in m.labels)
    && (at.Some? ==> exists m :: Sees(access, messages, m) && name in m.labels && m.at == at.value)
    && (at.Some? ==> forall m :: Sees(access, messages, m) && name in m.labels ==> m.at <= at.value)
  }

  lemma {:induction false} LatestIsTheMaximum(messages: seq<Message>, name: string)
    ensures LatestLabelled(messages, name).None? <==> forall m :: m in messages ==> name !in m.labels
    ensures forall t :: LatestLabelled(messages, name) == Some(t) ==>
      (exists m :: m in messages && name in m.labels && m.at == t)
    ensures forall m :: m in messages && name in m.labels ==>
      LatestLabelled(messages, name).Some? && m.at <= LatestLabelled(messages, name).value
  {
    if messages == [] {
    } else {
      LatestIsTheMaximum(messages[1..], name);
      assert messages == [messages[0]] + messages[1..];
      var l := LatestLabelled(messages, name);
      if l.Some? {
        if name in messages[0].labels && l.value == messages[0].at {
          assert messages[0] in messages;
        } else {
          var m :| m in messages[1..] && name in m.labels && m.at == l.value;
          assert m in messages;
        }
      }
    }
  }
}
