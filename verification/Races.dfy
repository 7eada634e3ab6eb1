/** Deliveries accepted at the same time: others may run between any two database calls of `accept`. */
module Races {
  import opened Prelude
  import opened Mail
  import opened Ingest
  import Messages
  import Threading

  // ---- one call, database call by database call ------------------------------------------------

  /** A call of `accept`, and the thread id it draws should it open a thread. */
  datatype Call = Call(d: Delivery, newId: int)

  /** How far a call is. The last three are ends: `Stranded` has opened a thread and failed to put its message
      there, `Unrecorded` has put its message into a thread and failed to update the row. */
  datatype Progress =
    | Arrived
    | Linking(index: Threading.Index, pending: multiset<string>)
    | ThreadStored
    | MessageStored(thread: int)
    | Finished(reply: Reply)
    | Stranded(reply: Reply)
    | Unrecorded(thread: int)

  datatype State = State(store: Store, progress: map<int, Progress>)

  /** The next database call of one call completes or fails; `link` says which of its pending lookups it is. */
  datatype Action = Action(call: int, link: string, fails: bool)

  function At(s: State, c: int): Progress {
    if c in s.progress then s.progress[c] else Arrived
  }

  function IdOf(call: Call): string {
    if MessageIdOf(call.d).Some? then MessageIdOf(call.d).value else ""
  }

  function MessageFor(call: Call, thread: int): Message {
    MessageOf(call.d, IdOf(call), thread)
  }

  function LookupIds(d: Delivery): seq<string> {
    (if InReplyToOf(d).Some? then [InReplyToOf(d).value] else []) + Structured(d.referenceTexts)
  }

  function Checked(store: Store, d: Delivery, fails: bool): Progress {
    if MessageIdOf(d).None? then Finished(MissingMessageId)
    else if d.spfHardfail then Finished(Dropped)
    else if fails then Finished(StoreFailed)
    else if Find(store.log, Lower(d.inbox), MessageIdOf(d).value).Some? then Finished(DuplicateMessageId)
    else Linking(map[], multiset(LookupIds(d)))
  }

  function Looked(log: seq<Message>, inbox: string, index: Threading.Index, link: string): Threading.Index {
    var existing := Find(log, Lower(inbox), Threading.Bracketed(Threading.Trim(link)));
    if existing.Some? then Threading.Inserted(index, inbox, existing.value.id, existing.value.thread) else index
  }

  function AssignmentFor(call: Call, index: Threading.Index): Threading.Assignment {
    Threading.AssignmentOf(index, CandidateOf(call.d, IdOf(call)))
  }

  /** All lookups are back: open a thread, or put the message into the one they determine. */
  function Assigned(call: Call, store: Store, index: Threading.Index, fails: bool): (Store, Progress) {
    match AssignmentFor(call, index)
    case New(_) =>
      var threads := InsertThread(store.threads, OpeningItem(call.d, IdOf(call), call.newId));
      if fails || threads.None? then (store, Finished(StoreFailed))
      else (store.(threads := threads.value), ThreadStored)
    case Existing(thread, _) =>
      var log := InsertMessage(store.log, MessageFor(call, thread));
      if fails then (store, Finished(StoreFailed))
      else if log.Err? then (store, Finished(Refusal(log.error)))
      else (store.(log := log.value), MessageStored(thread))
  }

  function Populated(call: Call, store: Store, fails: bool): (Store, Progress) {
    var log := InsertMessage(store.log, MessageFor(call, call.newId));
    if fails then (store, Stranded(StoreFailed))
    else if log.Err? then (store, Stranded(Refusal(log.error)))
    else (store.(log := log.value), Finished(Accepted(call.newId)))
  }

  function Next(call: Call, store: Store, p: Progress, link: string, fails: bool): (Store, Progress) {
    match p
    case Arrived => (store, Checked(store, call.d, fails))
    case Linking(index, pending) =>
      if pending == multiset{} then Assigned(call, store, index, fails)
      else if link !in pending then (store, p)
      else if fails then (store, Finished(StoreFailed))
      else (store, Linking(Looked(store.log, call.d.inbox, index, link), pending - multiset{link}))
    case ThreadStored => Populated(call, store, fails)
    case MessageStored(thread) =>
      if fails then (store, Unrecorded(thread))
      else (store.(threads := Recorded(store.threads, MessageFor(call, thread))), Finished(Accepted(thread)))
    case _ => (store, p)
  }

  function Step(calls: int -> Call, s: State, a: Action): State {
    var (store, p) := Next(calls(a.call), s.store, At(s, a.call), a.link, a.fails);
    State(store, s.progress[a.call := p])
  }

  function Run(calls: int -> Call, s: State, actions: seq<Action>): State {
    if actions == [] then s else Step(calls, Run(calls, s, actions[..|actions| - 1]), actions[|actions| - 1])
  }

  /** Any interleaving of any number of calls, from an empty mail store. */
  function After(calls: int -> Call, actions: seq<Action>): State {
    Run(calls, State(Store([], map[]), map[]), actions)
  }

  // ---- what every interleaving keeps -----------------------------------------------------------

  predicate Vacant(log: seq<Message>, t: int) {
    forall i :: 0 <= i < |log| ==> log[i].thread != t
  }

  predicate Holds(p: Progress) {
    p.ThreadStored? || p.Stranded?
  }

  /** The call's message is stored. */
  predicate Wins(p: Progress) {
    p.MessageStored? || p.Unrecorded? || (p.Finished? && p.reply.Accepted?)
  }

  function ThreadWon(p: Progress): int
    requires Wins(p)
  {
    if p.Finished? then p.reply.thread else p.thread
  }

  predicate SameKey(a: Call, b: Call) {
    EqFold(a.d.inbox, b.d.inbox) && IdOf(a) == IdOf(b)
  }

  function Found(log: seq<Message>, call: Call): Option<Message> {
    Find(log, Lower(call.d.inbox), IdOf(call))
  }

  predicate Answers(p: Progress, reply: Reply) {
    (p.Finished? || p.Stranded?) && p.reply == reply
  }

  ghost predicate Backs(log: seq<Message>, inbox: string, link: string, thread: int) {
    exists j: nat :: j < |log| && log[j].inbox == Lower(inbox) && log[j].id == link && log[j].thread == thread
  }

  ghost predicate Backed(log: seq<Message>, inbox: string, index: Threading.Index) {
    forall l :: Threading.CanonicalLink(l) == Some(l) && Threading.ThreadOf(index, inbox, l).Some? ==>
      Backs(log, inbox, l, Threading.ThreadOf(index, inbox, l).value)
  }

  ghost predicate OnTrack(call: Call, p: Progress, s: Store) {
    && (!p.Arrived? && !p.Finished? ==> MessageIdOf(call.d).Some?)
    && (p.Linking? ==> Backed(s.log, call.d.inbox, p.index)
                       && forall l :: l in p.pending ==> Threading.CanonicalLink(l) == Some(l))
    && (Holds(p) ==>
          call.newId in s.threads && s.threads[call.newId].inbox == Lower(call.d.inbox) && Vacant(s.log, call.newId))
    && (p.MessageStored? ==> p.thread in s.threads && Storable(MessageFor(call, p.thread)))
    && (p.Stranded? ==> p.reply.DuplicateMessageId? || p.reply.StoreFailed?)
    && (Wins(p) ==> Found(s.log, call) == Some(MessageFor(call, ThreadWon(p))))
    && (Answers(p, DuplicateMessageId) ==> Found(s.log, call).Some?)
  }

  ghost predicate AllOnTrack(calls: int -> Call, s: State) {
    forall c :: OnTrack(calls(c), At(s, c), s.store)
  }

  /** No two calls hold one thread, and no two have stored one message. */
  ghost predicate Apart(calls: int -> Call, s: State) {
    && (forall c, e :: c != e && Holds(At(s, c)) && Holds(At(s, e)) ==> calls(c).newId != calls(e).newId)
    && (forall c, e :: c != e && Wins(At(s, c)) && Wins(At(s, e)) ==> !SameKey(calls(c), calls(e)))
  }

  ghost predicate VacantAreHeld(calls: int -> Call, s: State) {
    forall t :: t in s.store.threads && Vacant(s.store.log, t) ==> exists c :: Holds(At(s, c)) && calls(c).newId == t
  }

  ghost predicate Sound(calls: int -> Call, s: State) {
    Forest(s.store) && AllOnTrack(calls, s) && Apart(calls, s) && VacantAreHeld(calls, s)
  }

  /** One step's store: at most one message under a new key, and no thread goes or changes inbox. */
  predicate Grown(s: Store, after: Store) {
    && (after.log == s.log
        || (|after.log| == |s.log| + 1 && after.log[..|s.log|] == s.log
            && Find(s.log, after.log[|s.log|].inbox, after.log[|s.log|].id).None?))
    && (forall t :: t in s.threads ==> t in after.threads && after.threads[t].inbox == s.threads[t].inbox)
  }

  lemma FoundStays(s: Store, after: Store, inbox: string, id: string)
    requires Grown(s, after) && Find(s.log, inbox, id).Some?
    ensures Find(after.log, inbox, id) == Find(s.log, inbox, id)
  {
  }

  lemma BackedStays(s: Store, after: Store, inbox: string, index: Threading.Index)
    requires Grown(s, after) && Backed(s.log, inbox, index)
    ensures Backed(after.log, inbox, index)
  {
    hide Threading.CanonicalLink, Threading.ThreadOf;
    forall l | Threading.CanonicalLink(l) == Some(l) && Threading.ThreadOf(index, inbox, l).Some?
      ensures Backs(after.log, inbox, l, Threading.ThreadOf(index, inbox, l).value)
    {
      var t := Threading.ThreadOf(index, inbox, l).value;
      assert Backs(s.log, inbox, l, t);
      var j: nat :| j < |s.log| && s.log[j].inbox == Lower(inbox) && s.log[j].id == l && s.log[j].thread == t;
      assert after.log[j] == s.log[j];
    }
  }

  /** A call that does not move stays on track unless its thread is filled. */
  lemma OthersStay(call: Call, p: Progress, s: Store, after: Store)
    requires OnTrack(call, p, s) && Grown(s, after) && (Holds(p) ==> Vacant(after.log, call.newId))
    ensures OnTrack(call, p, after)
  {
    if p.Linking? { BackedStays(s, after, call.d.inbox, p.index); }
    if Found(s.log, call).Some? { FoundStays(s, after, Lower(call.d.inbox), IdOf(call)); }
    hide Backed, Find, MessageIdOf, Lower, MessageFor, Storable, Threading.CanonicalLink;
  }

  /** What a step of call c owes the others. */
  ghost predicate Fits(calls: int -> Call, s: State, c: int, after: Store, p: Progress) {
    var was := At(s, c);
    && Grown(s.store, after) && OnTrack(calls(c), p, after)
    && (forall e :: e != c && Holds(At(s, e)) ==> Vacant(after.log, calls(e).newId))
    && (Holds(p) && !Holds(was) ==> forall e :: e != c && Holds(At(s, e)) ==> calls(e).newId != calls(c).newId)
    && (Wins(p) && !Wins(was) ==> forall e :: e != c && Wins(At(s, e)) ==> !SameKey(calls(c), calls(e)))
    && (forall t :: t in after.threads && Vacant(after.log, t) ==>
          (Holds(p) && calls(c).newId == t) || (t in s.store.threads && Vacant(s.store.log, t)
                                              && (Holds(was) ==> calls(c).newId != t)))
  }

  lemma MoveIsSound(calls: int -> Call, s: State, c: int, after: Store, p: Progress)
    requires Sound(calls, s) && Forest(after) && Fits(calls, s, c, after, p)
    ensures Sound(calls, State(after, s.progress[c := p]))
  {
    hide Forest, OnTrack, Grown, Vacant, Holds, Wins, SameKey, VacantAreHeld, Apart;
    MoveKeepsOthers(calls, s, c, after, p);
    MoveKeepsApart(calls, s, c, after, p);
    MoveKeepsHeld(calls, s, c, after, p);
    hide AllOnTrack, Fits;
  }

  lemma MoveKeepsOthers(calls: int -> Call, s: State, c: int, after: Store, p: Progress)
    requires AllOnTrack(calls, s) && Fits(calls, s, c, after, p)
    ensures AllOnTrack(calls, State(after, s.progress[c := p]))
  {
    hide OnTrack, Grown, Vacant, Holds, Wins, SameKey;
    var now := State(after, s.progress[c := p]);
    forall e ensures OnTrack(calls(e), At(now, e), now.store) {
      if e != c { OthersStay(calls(e), At(s, e), s.store, after); }
    }
  }

  lemma MoveKeepsApart(calls: int -> Call, s: State, c: int, after: Store, p: Progress)
    requires Apart(calls, s) && Fits(calls, s, c, after, p)
    ensures Apart(calls, State(after, s.progress[c := p]))
  {
    assert forall x, y :: SameKey(x, y) ==> SameKey(y, x);
    hide OnTrack, Grown, Vacant, Holds, Wins, SameKey;
    var now := State(after, s.progress[c := p]);
    assert forall e :: At(now, e) == if e == c then p else At(s, e);
  }

  lemma MoveKeepsHeld(calls: int -> Call, s: State, c: int, after: Store, p: Progress)
    requires VacantAreHeld(calls, s) && Fits(calls, s, c, after, p)
    ensures VacantAreHeld(calls, State(after, s.progress[c := p]))
  {
    hide OnTrack, Grown, Vacant, Holds, Wins, SameKey;
    var now := State(after, s.progress[c := p]);
    forall t | t in after.threads && Vacant(after.log, t) ensures exists e :: Holds(At(now, e)) && calls(e).newId == t {
      if Holds(p) && calls(c).newId == t {
        assert Holds(At(now, c));
      } else {
        var e :| Holds(At(s, e)) && calls(e).newId == t;
        assert e != c && Holds(At(now, e));
      }
    }
  }

  /** A step that writes nothing. */
  lemma QuietStepIsSound(calls: int -> Call, s: State, c: int, p: Progress)
    requires Sound(calls, s) && OnTrack(calls(c), p, s.store)
    requires Holds(p) == Holds(At(s, c)) && (Wins(p) ==> Wins(At(s, c)))
    ensures Sound(calls, State(s.store, s.progress[c := p]))
  {
    hide Forest, Wins, SameKey, Backed, Found, MessageFor, MessageIdOf, Storable;
    forall t | t in s.store.threads && Vacant(s.store.log, t)
      ensures (Holds(p) && calls(c).newId == t) || (Holds(At(s, c)) ==> calls(c).newId != t)
    {
    }
    MoveIsSound(calls, s, c, s.store, p);
  }

  lemma ArrivalIsSound(calls: int -> Call, s: State, c: int, fails: bool)
    requires Sound(calls, s) && At(s, c).Arrived?
    ensures Sound(calls, State(s.store, s.progress[c := Checked(s.store, calls(c).d, fails)]))
  {
    var d := calls(c).d;
    LookupsAreLinks(d);
    EmptyIndex(d.inbox);
    hide Sound, Threading.ThreadOf, Threading.CanonicalLink, Structured, MessageIdOf, Find, InReplyToOf;
    assert forall l :: l in LookupIds(d) ==> Threading.CanonicalLink(l) == Some(l);
    assert OnTrack(calls(c), Checked(s.store, d, fails), s.store);
    QuietStepIsSound(calls, s, c, Checked(s.store, d, fails));
  }

  lemma LookedIsBacked(s: Store, inbox: string, index: Threading.Index, link: string)
    requires Forest(s) && Backed(s.log, inbox, index) && Threading.CanonicalLink(link) == Some(link)
    ensures Backed(s.log, inbox, Looked(s.log, inbox, index, link))
  {
    Threading.LinkIsFixed(link);
    FindMeans(s.log, Lower(inbox), link);
    var existing := Find(s.log, Lower(inbox), link);
    hide Threading.ThreadOf, Threading.Inserted, Threading.CanonicalLink, Forest, Find, Lower;
    if existing.Some? {
      assert Backs(s.log, inbox, link, existing.value.thread);
      forall l | Threading.CanonicalLink(l) == Some(l)
        ensures Threading.ThreadOf(Looked(s.log, inbox, index, link), inbox, l)
                == if l == link then Some(existing.value.thread) else Threading.ThreadOf(index, inbox, l)
      {
        IndexOne(index, inbox, link, existing.value.thread, l);
      }
    }
  }

  lemma LookupIsSound(calls: int -> Call, s: State, c: int, link: string)
    requires Sound(calls, s) && At(s, c).Linking? && link in At(s, c).pending
    ensures var p := At(s, c);
      Sound(calls, State(s.store, s.progress[c := Linking(Looked(s.store.log, calls(c).d.inbox, p.index, link),
                                                          p.pending - multiset{link})]))
  {
    var p := At(s, c);
    var next := Linking(Looked(s.store.log, calls(c).d.inbox, p.index, link), p.pending - multiset{link});
    assert OnTrack(calls(c), p, s.store);
    LookedIsBacked(s.store, calls(c).d.inbox, p.index, link);
    hide Sound, Looked, Backed, Threading.CanonicalLink, MessageIdOf;
    assert OnTrack(calls(c), next, s.store);
    QuietStepIsSound(calls, s, c, next);
  }

  lemma NoMembersBefore(s: Store, t: int)
    requires Forest(s) && t !in s.threads
    ensures Vacant(s.log, t)
  {
  }

  lemma HoldersAreVacant(calls: int -> Call, s: State)
    requires Sound(calls, s)
    ensures forall e :: Holds(At(s, e)) ==> calls(e).newId in s.store.threads && Vacant(s.store.log, calls(e).newId)
  {
    hide Forest, Vacant, Holds, Find, MessageIdOf, Backed, Storable;
    forall e | Holds(At(s, e)) ensures calls(e).newId in s.store.threads && Vacant(s.store.log, calls(e).newId) {
      assert OnTrack(calls(e), At(s, e), s.store);
    }
  }

  lemma OpeningIsSound(calls: int -> Call, s: State, c: int)
    requires Sound(calls, s) && At(s, c).Linking?
    requires InsertThread(s.store.threads, OpeningItem(calls(c).d, IdOf(calls(c)), calls(c).newId)).Some?
    ensures var item := OpeningItem(calls(c).d, IdOf(calls(c)), calls(c).newId);
      Sound(calls, State(s.store.(threads := InsertThread(s.store.threads, item).value), s.progress[c := ThreadStored]))
  {
    var call := calls(c);
    var item := OpeningItem(call.d, IdOf(call), call.newId);
    var after := s.store.(threads := s.store.threads[call.newId := item]);
    assert item.thread == call.newId && item.inbox == Lower(call.d.inbox);
    HoldersAreVacant(calls, s);
    hide OpeningItem, ThreadStorable, OnTrack;
    assert OnTrack(call, At(s, c), s.store);
    OpeningFits(call, At(s, c), s.store, item);
    hide Forest, Lower, Vacant, Holds, Wins, Grown, IdOf;
    assert Holds(ThreadStored) && !Wins(ThreadStored) && !Holds(At(s, c)) by { HoldingIs(At(s, c)); }
    MoveIsSound(calls, s, c, after, ThreadStored);
  }

  lemma HoldingIs(p: Progress)
    ensures Holds(ThreadStored) && !Wins(ThreadStored) && (p.Linking? ==> !Holds(p))
  {
  }

  lemma OpeningFits(call: Call, p: Progress, s: Store, item: ThreadItem)
    requires Forest(s) && OnTrack(call, p, s) && p.Linking? && call.newId !in s.threads
    requires ThreadStorable(item) && item.inbox == Lower(call.d.inbox)
    ensures var after := s.(threads := s.threads[call.newId := item]);
      Forest(after) && Grown(s, after) && OnTrack(call, ThreadStored, after)
  {
    ThreadsKeepForest(s, call.newId, item);
    NoMembersBefore(s, call.newId);
    hide Forest, ThreadStorable, Lower, Find, MessageIdOf, Backed;
  }

  /** A message that goes where its call was bound for wins its key alone. */
  lemma InsertionWins(calls: int -> Call, s: State, c: int, thread: int)
    requires Sound(calls, s) && InsertMessage(s.store.log, MessageFor(calls(c), thread)).Ok?
    ensures var m, log := MessageFor(calls(c), thread), s.store.log;
      && InsertMessage(log, m) == Ok(log + [m]) && Storable(m) && m.thread == thread
      && Lower(m.inbox) == m.inbox == Lower(calls(c).d.inbox) && m.id == IdOf(calls(c))
      && Found(log, calls(c)).None? && Found(log + [m], calls(c)) == Some(m)
    ensures forall e :: Wins(At(s, e)) ==> !SameKey(calls(c), calls(e))
  {
    var m := MessageFor(calls(c), thread);
    LowerIdempotent(calls(c).d.inbox);
    assert m.(inbox := m.inbox) == m;
    hide Forest, Storable, MessageIdOf, Lower, InReplyToOf, Structured;
    forall e | Wins(At(s, e)) ensures !SameKey(calls(c), calls(e)) {
      assert OnTrack(calls(e), At(s, e), s.store);
    }
  }

  /** However old the lookups are by now, the thread they determine has a member the message links to. */
  lemma StaleIndexJoinsAMember(call: Call, p: Progress, s: Store) returns (j: nat)
    requires OnTrack(call, p, s) && p.Linking? && AssignmentFor(call, p.index).Existing?
    ensures var t := AssignmentFor(call, p.index).thread;
      var m := MessageFor(call, t);
      j < |s.log| && s.log[j].thread == t && s.log[j].inbox == m.inbox && LinksTo(m, s.log[j].id)
  {
    var a := AssignmentFor(call, p.index);
    JoiningLink(p.index, call.d, IdOf(call));
    hide Threading.ThreadOf, Threading.AssignmentOf, Threading.CanonicalLink, MessageIdOf, Structured, InReplyToOf,
        Find;
    assert Backs(s.log, call.d.inbox, a.linkedBy, a.thread);
    j :| j < |s.log| && s.log[j].inbox == Lower(call.d.inbox) && s.log[j].id == a.linkedBy
      && s.log[j].thread == a.thread;
  }

  lemma AppendedLog(log: seq<Message>, m: Message)
    ensures (log + [m])[..|log|] == log
    ensures forall t :: Vacant(log + [m], t) <==> Vacant(log, t) && t != m.thread
  {
    forall t ensures Vacant(log + [m], t) <==> Vacant(log, t) && t != m.thread {
      if Vacant(log + [m], t) {
        assert forall i :: 0 <= i < |log| ==> (log + [m])[i] == log[i];
        assert (log + [m])[|log|] == m;
      }
    }
  }

  /** The message goes into a thread with members it links to, or into the vacant one. */
  lemma AppendFits(s: Store, m: Message, j: nat)
    requires Forest(s) && Lower(m.inbox) == m.inbox && Find(s.log, m.inbox, m.id).None? && Storable(m)
    requires m.thread in s.threads && s.threads[m.thread].inbox == m.inbox
    requires Threading.CanonicalLink(m.id) == Some(m.id)
    requires Vacant(s.log, m.thread)
      || (j < |s.log| && s.log[j].thread == m.thread && s.log[j].inbox == m.inbox && LinksTo(m, s.log[j].id))
    ensures var after := s.(log := s.log + [m]);
      Forest(after) && Grown(s, after)
  {
    FindMeans(s.log, m.inbox, m.id);
    AppendedLog(s.log, m);
    hide Storable, ThreadStorable, LinksTo, Threading.CanonicalLink, Find, Lower;
    AppendKeepsForest(s, m, j);
    hide Forest;
  }

  lemma AppendIsSound(calls: int -> Call, s: State, c: int, thread: int, j: nat, p: Progress)
    requires Sound(calls, s) && InsertMessage(s.store.log, MessageFor(calls(c), thread)).Ok?
    requires thread in s.store.threads && s.store.threads[thread].inbox == Lower(calls(c).d.inbox)
    requires MessageIdOf(calls(c).d).Some? && Threading.CanonicalLink(IdOf(calls(c))) == Some(IdOf(calls(c)))
    requires var log, m := s.store.log, MessageFor(calls(c), thread);
      || (Vacant(log, thread) && Holds(At(s, c)) && thread == calls(c).newId)
      || (j < |log| && log[j].thread == thread && log[j].inbox == m.inbox && LinksTo(m, log[j].id)
          && !Holds(At(s, c)))
    requires p == MessageStored(thread) || p == Finished(Accepted(thread))
    ensures Sound(calls, State(s.store.(log := InsertMessage(s.store.log, MessageFor(calls(c), thread)).value),
                               s.progress[c := p]))
  {
    var m := MessageFor(calls(c), thread);
    var after := s.store.(log := s.store.log + [m]);
    InsertionWins(calls, s, c, thread);
    HoldersAreVacant(calls, s);
    OthersAreApart(calls, s, c);
    AppendedLog(s.store.log, m);
    hide Storable, MessageOf, MessageFor, LinksTo, MessageIdOf, Threading.CanonicalLink, SameKey, IdOf, InsertMessage,
        Find, Lower, Grown, Forest, Sound;
    assert Forest(after) && Grown(s.store, after) by { SoundIsForest(calls, s); AppendFits(s.store, m, j); }
    AppendedIsOnTrack(calls(c), after, thread, p);
    assert Vacant(s.store.log, thread) <==> Holds(At(s, c));
    hide Vacant, OnTrack, Found, Holds, Wins;
    FillingFits(calls, s, c, after, thread, p);
    hide Fits;
    MoveIsSound(calls, s, c, after, p);
  }

  lemma FillingFits(calls: int -> Call, s: State, c: int, after: Store, thread: int, p: Progress)
    requires Grown(s.store, after) && after.threads == s.store.threads && OnTrack(calls(c), p, after)
    requires Wins(p) && !Holds(p)
    requires forall e :: Wins(At(s, e)) ==> !SameKey(calls(c), calls(e))
    requires forall e :: Holds(At(s, e)) ==> Vacant(s.store.log, calls(e).newId)
    requires forall e :: e != c && Holds(At(s, c)) && Holds(At(s, e)) ==> calls(c).newId != calls(e).newId
    requires forall t :: Vacant(after.log, t) <==> Vacant(s.store.log, t) && t != thread
    requires Vacant(s.store.log, thread) <==> Holds(At(s, c))
    requires Holds(At(s, c)) ==> thread == calls(c).newId
    ensures Fits(calls, s, c, after, p)
  {
    hide Grown, OnTrack, Wins, Holds, SameKey, Vacant;
  }

  lemma AppendedIsOnTrack(call: Call, after: Store, thread: int, p: Progress)
    requires MessageIdOf(call.d).Some? && thread in after.threads && Storable(MessageFor(call, thread))
    requires Found(after.log, call) == Some(MessageFor(call, thread))
    requires p == MessageStored(thread) || p == Finished(Accepted(thread))
    ensures OnTrack(call, p, after) && Wins(p) && !Holds(p)
  {
    hide Storable, MessageFor, Found, MessageIdOf;
  }

  lemma SoundIsForest(calls: int -> Call, s: State)
    requires Sound(calls, s)
    ensures Forest(s.store)
  {
  }

  lemma OthersAreApart(calls: int -> Call, s: State, c: int)
    requires Sound(calls, s)
    ensures forall e :: e != c && Holds(At(s, c)) && Holds(At(s, e)) ==> calls(c).newId != calls(e).newId
  {
    hide Forest, AllOnTrack, VacantAreHeld, Holds, Wins, SameKey;
  }

  lemma IdIsALink(call: Call)
    requires MessageIdOf(call.d).Some?
    ensures Threading.CanonicalLink(IdOf(call)) == Some(IdOf(call))
  {
    MessageIdIsALink(call.d);
    Threading.LinkIsFixed(call.d.rawId.value);
  }

  lemma MemberIsNoVacancy(log: seq<Message>, j: nat)
    requires j < |log|
    ensures !Vacant(log, log[j].thread)
  {
  }

  lemma AssignedIsSound(calls: int -> Call, s: State, c: int, fails: bool)
    requires Sound(calls, s) && At(s, c).Linking?
    ensures var (store, p) := Assigned(calls(c), s.store, At(s, c).index, fails);
      Sound(calls, State(store, s.progress[c := p]))
  {
    var call := calls(c);
    var (store, p) := Assigned(call, s.store, At(s, c).index, fails);
    assert OnTrack(call, At(s, c), s.store);
    if p.ThreadStored? {
      OpeningIsSound(calls, s, c);
    } else if p.MessageStored? {
      IdIsALink(call);
      var j := StaleIndexJoinsAMember(call, At(s, c), s.store);
      MemberHasARow(s.store, j);
      MemberIsNoVacancy(s.store.log, j);
      hide Sound, InsertMessage, OnTrack, Vacant, Lower, AssignmentFor, MessageIdOf, Threading.CanonicalLink, LinksTo;
      assert MessageFor(call, p.thread).inbox == Lower(call.d.inbox);
      AppendIsSound(calls, s, c, p.thread, j, p);
    } else {
      var a := AssignmentFor(call, At(s, c).index);
      RefusalIsOnTrack(call, At(s, c), s.store, if a.Existing? then a.thread else call.newId, p);
      hide Sound, OnTrack, InsertMessage, InsertThread, AssignmentFor;
      QuietStepIsSound(calls, s, c, p);
    }
  }

  /** A refused or failed insert: nothing is written, and a duplicate is answered only for a stored key. */
  lemma RefusalIsOnTrack(call: Call, was: Progress, s: Store, t: int, p: Progress)
    requires OnTrack(call, was, s) && (was.Linking? || was.ThreadStored?)
    requires p.Finished? || p.Stranded?
    requires p.Stranded? <==> was.ThreadStored?
    requires var r := InsertMessage(s.log, MessageFor(call, t));
      p.reply == StoreFailed || (r.Err? && p.reply == Refusal(r.error))
    ensures OnTrack(call, p, s)
  {
    LowerIdempotent(call.d.inbox);
    hide Storable, Find, MessageIdOf, Vacant, Backed, Lower, Structured, InReplyToOf;
  }

  lemma PopulatedIsSound(calls: int -> Call, s: State, c: int, fails: bool)
    requires Sound(calls, s) && At(s, c).ThreadStored?
    ensures var (store, p) := Populated(calls(c), s.store, fails);
      Sound(calls, State(store, s.progress[c := p]))
  {
    var call := calls(c);
    var (store, p) := Populated(call, s.store, fails);
    assert OnTrack(call, At(s, c), s.store);
    if p.Finished? {
      IdIsALink(call);
      hide Sound, InsertMessage, OnTrack, Vacant, Lower, MessageIdOf, Threading.CanonicalLink, LinksTo;
      AppendIsSound(calls, s, c, call.newId, 0, p);
    } else {
      RefusalIsOnTrack(call, At(s, c), s.store, call.newId, p);
      hide Sound, OnTrack, InsertMessage;
      QuietStepIsSound(calls, s, c, p);
    }
  }

  lemma RecordingIsSound(calls: int -> Call, s: State, c: int)
    requires Sound(calls, s) && At(s, c).MessageStored?
    ensures var t := At(s, c).thread;
      Sound(calls, State(s.store.(threads := Recorded(s.store.threads, MessageFor(calls(c), t))),
                         s.progress[c := Finished(Accepted(t))]))
  {
    var call, t := calls(c), At(s, c).thread;
    var m := MessageFor(call, t);
    var after := s.store.(threads := Recorded(s.store.threads, m));
    assert OnTrack(call, At(s, c), s.store);
    assert m.thread == t && WithMember(s.store.threads[t], m).inbox == s.store.threads[t].inbox;
    SoundIsForest(calls, s);
    MembersKeepForest(s.store, m);
    HoldersAreVacant(calls, s);
    hide Forest, Storable, WithMember, MessageFor, Found, MessageIdOf, Vacant, Backed, Lower, Sound;
    assert Grown(s.store, after);
    AppendedIsOnTrack(call, after, t, Finished(Accepted(t)));
    hide OnTrack, Grown;
    MoveIsSound(calls, s, c, after, Finished(Accepted(t)));
  }

  /** Failures before the first insert and after the message's, and actions of a call that is over. */
  lemma FailureIsOnTrack(call: Call, p: Progress, s: Store, link: string, fails: bool)
    requires OnTrack(call, p, s) && !p.Arrived? && !p.ThreadStored?
    requires p.Linking? ==> p.pending != multiset{} && (link !in p.pending || fails)
    requires p.MessageStored? ==> fails
    ensures var (after, next) := Next(call, s, p, link, fails);
      after == s && OnTrack(call, next, s) && Holds(next) == Holds(p) && (Wins(next) ==> Wins(p))
  {
    hide MessageFor, Found, Backed, Vacant, MessageIdOf, Threading.CanonicalLink, Storable;
  }

  lemma StepIsSound(calls: int -> Call, s: State, a: Action)
    requires Sound(calls, s)
    ensures Sound(calls, Step(calls, s, a))
  {
    var call, p := calls(a.call), At(s, a.call);
    assert OnTrack(call, p, s.store);
    hide Sound, OnTrack, Assigned, Populated, Checked, Recorded, Looked, MessageFor, Holds, Wins;
    if p.Arrived? {
      ArrivalIsSound(calls, s, a.call, a.fails);
    } else if p.Linking? && p.pending == multiset{} {
      AssignedIsSound(calls, s, a.call, a.fails);
    } else if p.Linking? && a.link in p.pending && !a.fails {
      LookupIsSound(calls, s, a.call, a.link);
    } else if p.ThreadStored? {
      PopulatedIsSound(calls, s, a.call, a.fails);
    } else if p.MessageStored? && !a.fails {
      RecordingIsSound(calls, s, a.call);
    } else {
      FailureIsOnTrack(call, p, s.store, a.link, a.fails);
      QuietStepIsSound(calls, s, a.call, Next(call, s.store, p, a.link, a.fails).1);
    }
  }

  /** In every interleaving of any number of calls, each of whose database calls may fail: ids stay unique per
      inbox, every message is the root of its thread or links to an earlier member, and no thread spans inboxes. */
  lemma {:induction false} InterleavingsKeepForest(calls: int -> Call, actions: seq<Action>)
    ensures Sound(calls, After(calls, actions)) && Forest(After(calls, actions).store)
  {
    hide OnTrack;
    if actions == [] {
      assert forall c :: OnTrack(calls(c), Arrived, Store([], map[])) by { NothingIsOnTrack(); }
      assert Forest(Store([], map[]));
    } else {
      hide Forest, Sound, Step;
      InterleavingsKeepForest(calls, actions[..|actions| - 1]);
      StepIsSound(calls, After(calls, actions[..|actions| - 1]), actions[|actions| - 1]);
      SoundIsForest(calls, After(calls, actions));
    }
  }

  lemma NothingIsOnTrack()
    ensures forall call :: OnTrack(call, Arrived, Store([], map[]))
  {
  }

  // ---- who wins, who is told what --------------------------------------------------------------

  predicate Owns(call: Call, m: Message) {
    m.inbox == Lower(call.d.inbox) && m.id == IdOf(call)
  }

  ghost predicate Owned(calls: int -> Call, s: State) {
    forall i :: 0 <= i < |s.store.log| ==> exists e :: Wins(At(s, e)) && Owns(calls(e), s.store.log[i])
  }

  lemma InsertedRow(call: Call, log: seq<Message>, t: int)
    ensures var r := InsertMessage(log, MessageFor(call, t));
      r.Ok? ==> r.value == log + [MessageFor(call, t)]
    ensures Owns(call, MessageFor(call, t)) && MessageFor(call, t).thread == t
  {
    LowerIdempotent(call.d.inbox);
    assert MessageFor(call, t).(inbox := Lower(call.d.inbox)) == MessageFor(call, t);
    hide MessageIdOf, Structured, InReplyToOf, Lower, Find, Messages.InsertOutcome;
  }

  /** A step stores at most the message of its own call, which has won from then on. */
  lemma StepWrites(call: Call, s: Store, p: Progress, link: string, fails: bool)
    ensures var (after, next) := Next(call, s, p, link, fails);
      && (Wins(p) ==> Wins(next))
      && (after.log == s.log || (Wins(next) && after.log == s.log + [MessageFor(call, ThreadWon(next))]))
  {
    hide MessageFor, InsertMessage, Looked, Recorded, InsertThread, AssignmentFor, Checked;
    if p.Linking? && AssignmentFor(call, p.index).Existing? {
      InsertedRow(call, s.log, AssignmentFor(call, p.index).thread);
    } else if p.ThreadStored? {
      InsertedRow(call, s.log, call.newId);
    }
  }

  lemma StepKeepsOwners(calls: int -> Call, s: State, a: Action)
    requires Owned(calls, s)
    ensures Owned(calls, Step(calls, s, a))
  {
    var now := Step(calls, s, a);
    StepWrites(calls(a.call), s.store, At(s, a.call), a.link, a.fails);
    var p := At(now, a.call);
    if Wins(p) { InsertedRow(calls(a.call), s.store.log, ThreadWon(p)); }
    hide Next, Wins, MessageFor, InsertMessage, Owns;
    assert forall e :: Wins(At(s, e)) ==> Wins(At(now, e));
    assert Wins(p) || now.store.log == s.store.log;
    assert forall i :: 0 <= i < |s.store.log| ==> now.store.log[i] == s.store.log[i];
    hide Step;
    forall i | 0 <= i < |now.store.log| ensures exists e :: Wins(At(now, e)) && Owns(calls(e), now.store.log[i]) {
      if i < |s.store.log| {
        var m := s.store.log[i];
        var e :| Wins(At(s, e)) && Owns(calls(e), m);
        assert Wins(At(now, e)) && Owns(calls(e), now.store.log[i]);
      } else {
        assert Wins(At(now, a.call));
      }
    }
  }

  lemma {:induction false} InterleavingsKeepOwners(calls: int -> Call, actions: seq<Action>)
    ensures Owned(calls, After(calls, actions))
  {
    if actions == [] {
    } else {
      hide Owned, Step;
      InterleavingsKeepOwners(calls, actions[..|actions| - 1]);
      StepKeepsOwners(calls, After(calls, actions[..|actions| - 1]), actions[|actions| - 1]);
    }
  }

  /** Of the calls that carry one Message-ID to one inbox at most one stores it, and a call is told the id is a
      duplicate only when another one has. Whoever is told its message is accepted finds it in the thread named. */
  lemma OneCallWinsTheId(calls: int -> Call, actions: seq<Action>, c: int)
    ensures var s := After(calls, actions);
      && (Wins(At(s, c)) ==>
            && Found(s.store.log, calls(c)) == Some(MessageFor(calls(c), ThreadWon(At(s, c))))
            && forall e :: e != c && SameKey(calls(c), calls(e)) ==> !Wins(At(s, e)))
      && (Answers(At(s, c), DuplicateMessageId) ==> exists e :: e != c && SameKey(calls(c), calls(e)) && Wins(At(s, e)))
  {
    var s := After(calls, actions);
    InterleavingsKeepForest(calls, actions);
    InterleavingsKeepOwners(calls, actions);
    hide After, MessageFor, Forest, Backed, Lower, IdOf;
    assert OnTrack(calls(c), At(s, c), s.store);
    if Answers(At(s, c), DuplicateMessageId) {
      FindMeans(s.store.log, Lower(calls(c).d.inbox), IdOf(calls(c)));
      var i :| 0 <= i < |s.store.log| && s.store.log[i].inbox == Lower(calls(c).d.inbox)
        && s.store.log[i].id == IdOf(calls(c));
      var e :| Wins(At(s, e)) && Owns(calls(e), s.store.log[i]);
      assert e != c && SameKey(calls(c), calls(e));
    }
  }

  // ---- what is left behind ---------------------------------------------------------------------

  lemma VacantMeans(log: seq<Message>, t: int)
    ensures Members(log, t) == [] <==> Vacant(log, t)
  {
    if Vacant(log, t) {
      NoMembers(log, t);
    } else {
      var i :| 0 <= i < |log| && log[i].thread == t;
      assert log[i] in log && log[i] in Members(log, t);
    }
  }

  /** A thread is without messages exactly while the call that opened it has not stored its own, or for good
      when that call failed to. */
  lemma OrphansAreStranded(calls: int -> Call, actions: seq<Action>, t: int)
    ensures var s := After(calls, actions);
      t in s.store.threads && Members(s.store.log, t) == [] <==> exists c :: Holds(At(s, c)) && calls(c).newId == t
  {
    var s := After(calls, actions);
    InterleavingsKeepForest(calls, actions);
    HoldersAreVacant(calls, s);
    VacantMeans(s.store.log, t);
    hide After, Members, Vacant, OnTrack, Forest;
  }

  /** No database call failed but for a taken key, and no text carries what the database refuses. */
  predicate Smooth(calls: int -> Call, actions: seq<Action>) {
    forall a | a in actions :: !a.fails
  }

  ghost predicate CleanCalls(calls: int -> Call) {
    forall c :: MessageIdOf(calls(c).d).Some? ==>
      CleanForThread(calls(c).d, IdOf(calls(c))) && CleanForMessage(calls(c).d)
  }

  predicate Undamaged(p: Progress) {
    !p.Unrecorded? && (p.Stranded? ==> p.reply.DuplicateMessageId?)
  }

  lemma SmoothStep(call: Call, s: Store, p: Progress, link: string)
    requires Undamaged(p) && (p.ThreadStored? ==> Storable(MessageFor(call, call.newId)))
    ensures Undamaged(Next(call, s, p, link, false).1)
  {
    hide Storable, MessageFor, Find, AssignmentFor, Looked, Recorded, InsertThread, MessageIdOf;
  }

  lemma {:induction false} SmoothRunsStrandDuplicatesOnly(calls: int -> Call, actions: seq<Action>, c: int)
    requires Smooth(calls, actions) && CleanCalls(calls)
    ensures Undamaged(At(After(calls, actions), c))
  {
    if actions == [] {
    } else {
      var earlier, a := actions[..|actions| - 1], actions[|actions| - 1];
      SmoothRunsStrandDuplicatesOnly(calls, earlier, c);
      var s := After(calls, earlier);
      assert a in actions;
      InterleavingsKeepForest(calls, earlier);
      assert OnTrack(calls(a.call), At(s, a.call), s.store);
      if a.call == c && At(s, c).ThreadStored? { CleanIsStorable(calls, c); }
      hide Sound, OnTrack, Next, MessageFor, Undamaged, CleanCalls;
      if a.call == c { SmoothStep(calls(c), s.store, At(s, c), a.link); }
    }
  }

  lemma CleanIsStorable(calls: int -> Call, c: int)
    requires CleanCalls(calls) && MessageIdOf(calls(c).d).Some?
    ensures Storable(MessageFor(calls(c), calls(c).newId))
  {
    OpeningTexts(calls(c).d, IdOf(calls(c)), calls(c).newId);
  }

  /** No call stands between its two inserts. */
  ghost predicate AtRest(s: State) {
    forall c :: !At(s, c).ThreadStored?
  }

  /** Without failures the one thing a race leaves behind is the thread of a call that opened one and then
      lost its primary key: the message stands in another thread, put there by the winner. */
  lemma LostRaceLeavesAnOrphanIff(calls: int -> Call, actions: seq<Action>, t: int)
    requires Smooth(calls, actions) && CleanCalls(calls) && AtRest(After(calls, actions))
    ensures var s := After(calls, actions);
      && (t in s.store.threads && Members(s.store.log, t) == [] <==>
            exists c :: calls(c).newId == t && At(s, c) == Stranded(DuplicateMessageId))
      && (forall c :: calls(c).newId == t && At(s, c) == Stranded(DuplicateMessageId) ==>
            Found(s.store.log, calls(c)).Some? && Found(s.store.log, calls(c)).value.thread != t)
  {
    var s := After(calls, actions);
    OrphansAreStranded(calls, actions, t);
    InterleavingsKeepForest(calls, actions);
    VacantMeans(s.store.log, t);
    hide After, Members, Forest, Backed, MessageFor;
    forall c | Holds(At(s, c)) && calls(c).newId == t ensures At(s, c) == Stranded(DuplicateMessageId) {
      SmoothRunsStrandDuplicatesOnly(calls, actions, c);
    }
    forall c | calls(c).newId == t && At(s, c) == Stranded(DuplicateMessageId)
      ensures Holds(At(s, c)) && Found(s.store.log, calls(c)).Some? && Found(s.store.log, calls(c)).value.thread != t
    {
      assert OnTrack(calls(c), At(s, c), s.store);
      FindMeans(s.store.log, Lower(calls(c).d.inbox), IdOf(calls(c)));
    }
  }

  // ---- counts ----------------------------------------------------------------------------------

  predicate Lagging(p: Progress, t: int) {
    (p.MessageStored? || p.Unrecorded?) && p.thread == t
  }

  /** The calls whose message thread t has and whose update of its row is still to come, or has failed. */
  function Behind(s: State, t: int): set<int> {
    set c | c in s.progress && Lagging(s.progress[c], t)
  }

  predicate Counted(count: int, members: nat, behind: nat) {
    if members == 0 then count == 1 && behind == 0 else behind < members && count == Saturated(members - behind)
  }

  ghost predicate Counts(s: State) {
    forall t :: t in s.store.threads ==> Counted(s.store.threads[t].count, |Members(s.store.log, t)|, |Behind(s, t)|)
  }

  lemma OneElementChanges(a: set<int>, b: set<int>, c: int)
    requires a - {c} == b - {c}
    ensures |b| == |a| + (if c in b then 1 else 0) - (if c in a then 1 else 0)
  {
    var others := a - {c};
    assert a == if c in a then others + {c} else others;
    assert b == if c in b then others + {c} else others;
  }

  lemma BehindMoves(s: State, c: int, store: Store, p: Progress, t: int)
    ensures var before, now := Behind(s, t), Behind(State(store, s.progress[c := p]), t);
      |now| == |before| + (if Lagging(p, t) then 1 else 0) - (if Lagging(At(s, c), t) then 1 else 0)
  {
    assert !Lagging(Arrived, t);
    hide Lagging;
    var before, now := Behind(s, t), Behind(State(store, s.progress[c := p]), t);
    assert c in now <==> Lagging(p, t);
    assert c in before <==> Lagging(At(s, c), t);
    assert now - {c} == before - {c};
    hide Behind;
    OneElementChanges(before, now, c);
  }

  /** A thread nobody's message is in has nobody lagging. */
  lemma VacantHasNoneBehind(calls: int -> Call, s: State, t: int)
    requires Sound(calls, s) && Vacant(s.store.log, t)
    ensures Behind(s, t) == {}
  {
    hide Forest, Backed, MessageFor, Storable;
    forall c | c in s.progress ensures !Lagging(s.progress[c], t) {
      assert OnTrack(calls(c), At(s, c), s.store);
      if Lagging(At(s, c), t) {
        FindMeans(s.store.log, Lower(calls(c).d.inbox), IdOf(calls(c)));
        assert Found(s.store.log, calls(c)) == Some(MessageFor(calls(c), t));
        InsertedRow(calls(c), s.store.log, t);
      }
    }
  }

  /** The five things a step can do to the store. */
  lemma StepEffects(call: Call, s: Store, p: Progress, link: string, fails: bool)
    ensures var (after, next) := Next(call, s, p, link, fails);
      || (after == s && forall t :: Lagging(next, t) == Lagging(p, t))
      || (p.Linking? && next.ThreadStored? && call.newId !in s.threads
          && after == s.(threads := s.threads[call.newId := OpeningItem(call.d, IdOf(call), call.newId)]))
      || (p.Linking? && next.MessageStored? && next.thread == AssignmentFor(call, p.index).thread
          && AssignmentFor(call, p.index).Existing? && after == s.(log := s.log + [MessageFor(call, next.thread)]))
      || (p.ThreadStored? && next == Finished(Accepted(call.newId))
          && after == s.(log := s.log + [MessageFor(call, call.newId)]))
      || (p.MessageStored? && next == Finished(Accepted(p.thread))
          && after == s.(threads := Recorded(s.threads, MessageFor(call, p.thread))))
  {
    assert OpeningItem(call.d, IdOf(call), call.newId).thread == call.newId;
    hide OpeningItem, ThreadStorable, MessageFor, InsertMessage, AssignmentFor, Looked, Recorded, Find, MessageIdOf;
    if p.Linking? && AssignmentFor(call, p.index).Existing? {
      InsertedRow(call, s.log, AssignmentFor(call, p.index).thread);
    } else if p.ThreadStored? {
      InsertedRow(call, s.log, call.newId);
    }
  }

  lemma OpeningKeepsCounts(calls: int -> Call, s: State, c: int, item: ThreadItem)
    requires Sound(calls, s) && Counts(s) && item.count == 1
    requires At(s, c).Linking? && calls(c).newId !in s.store.threads
    ensures Counts(State(s.store.(threads := s.store.threads[calls(c).newId := item]), s.progress[c := ThreadStored]))
  {
    var newId := calls(c).newId;
    var now := State(s.store.(threads := s.store.threads[newId := item]), s.progress[c := ThreadStored]);
    SoundIsForest(calls, s);
    NoMembersBefore(s.store, newId);
    VacantHasNoneBehind(calls, s, newId);
    VacantMeans(s.store.log, newId);
    hide Sound, Forest, Vacant, Members, Behind, Counted;
    assert Counted(1, 0, 0) by { NoneAreCounted(); }
    forall t ensures |Behind(now, t)| == |Behind(s, t)| {
      BehindMoves(s, c, now.store, ThreadStored, t);
    }
  }

  lemma NoneAreCounted()
    ensures Counted(1, 0, 0)
  {
  }

  lemma JoiningKeepsCounts(s: State, c: int, m: Message)
    requires Counts(s) && At(s, c).Linking? && !Vacant(s.store.log, m.thread)
    ensures Counts(State(s.store.(log := s.store.log + [m]), s.progress[c := MessageStored(m.thread)]))
  {
    var p := MessageStored(m.thread);
    var now := State(s.store.(log := s.store.log + [m]), s.progress[c := p]);
    VacantMeans(s.store.log, m.thread);
    hide Vacant, Members, Behind;
    forall t | t in s.store.threads
      ensures Counted(s.store.threads[t].count, |Members(now.store.log, t)|, |Behind(now, t)|)
    {
      MembersSnoc(s.store.log, m, t);
      BehindMoves(s, c, now.store, p, t);
    }
  }

  lemma PopulatingKeepsCounts(s: State, c: int, m: Message)
    requires Counts(s) && At(s, c).ThreadStored? && Vacant(s.store.log, m.thread)
    ensures Counts(State(s.store.(log := s.store.log + [m]), s.progress[c := Finished(Accepted(m.thread))]))
  {
    var p := Finished(Accepted(m.thread));
    var now := State(s.store.(log := s.store.log + [m]), s.progress[c := p]);
    VacantMeans(s.store.log, m.thread);
    hide Vacant, Members, Behind;
    forall t | t in s.store.threads
      ensures Counted(s.store.threads[t].count, |Members(now.store.log, t)|, |Behind(now, t)|)
    {
      MembersSnoc(s.store.log, m, t);
      BehindMoves(s, c, now.store, p, t);
    }
  }

  lemma RecordingKeepsCounts(s: State, c: int, m: Message)
    requires Counts(s) && At(s, c) == MessageStored(m.thread)
    ensures Counts(State(s.store.(threads := Recorded(s.store.threads, m)),
                         s.progress[c := Finished(Accepted(m.thread))]))
  {
    var p := Finished(Accepted(m.thread));
    var now := State(s.store.(threads := Recorded(s.store.threads, m)), s.progress[c := p]);
    hide Members, Behind, AddFolded, AddAllFolded;
    forall t | t in now.store.threads
      ensures Counted(now.store.threads[t].count, |Members(s.store.log, t)|, |Behind(now, t)|)
    {
      BehindMoves(s, c, now.store, p, t);
    }
  }

  lemma IdleKeepsCounts(s: State, c: int, p: Progress)
    requires Counts(s) && forall t :: Lagging(p, t) == Lagging(At(s, c), t)
    ensures Counts(State(s.store, s.progress[c := p]))
  {
    hide Members, Behind, Counted, Lagging;
    forall t ensures |Behind(State(s.store, s.progress[c := p]), t)| == |Behind(s, t)| {
      BehindMoves(s, c, s.store, p, t);
    }
  }

  lemma StepKeepsCounts(calls: int -> Call, s: State, a: Action)
    requires Sound(calls, s) && Counts(s)
    ensures Counts(Step(calls, s, a))
  {
    var call, p := calls(a.call), At(s, a.call);
    var (after, next) := Next(call, s.store, p, a.link, a.fails);
    StepEffects(call, s.store, p, a.link, a.fails);
    assert OnTrack(call, p, s.store);
    hide Sound, Counts, Next, MessageFor, Recorded, AssignmentFor, OnTrack;
    if after == s.store && forall t :: Lagging(next, t) == Lagging(p, t) {
      IdleKeepsCounts(s, a.call, next);
    } else if next.ThreadStored? {
      OpeningKeepsCounts(calls, s, a.call, OpeningItem(call.d, IdOf(call), call.newId));
    } else if next.MessageStored? {
      var j := StaleIndexJoinsAMember(call, p, s.store);
      InsertedRow(call, s.store.log, next.thread);
      JoiningKeepsCounts(s, a.call, MessageFor(call, next.thread));
    } else if p.ThreadStored? {
      HoldersAreVacant(calls, s);
      InsertedRow(call, s.store.log, call.newId);
      PopulatingKeepsCounts(s, a.call, MessageFor(call, call.newId));
    } else {
      InsertedRow(call, s.store.log, p.thread);
      RecordingKeepsCounts(s, a.call, MessageFor(call, p.thread));
    }
  }

  /** In every interleaving a thread's row counts the members whose delivery has updated it, and the opener's
      from the start: the calls between their insert and their update, or stopped there, are what is missing. */
  lemma {:induction false} CountsAreConserved(calls: int -> Call, actions: seq<Action>)
    ensures Counts(After(calls, actions))
  {
    if actions == [] {
    } else {
      hide Counts, Step;
      var earlier := actions[..|actions| - 1];
      CountsAreConserved(calls, earlier);
      InterleavingsKeepForest(calls, earlier);
      StepKeepsCounts(calls, After(calls, earlier), actions[|actions| - 1]);
    }
  }

  /** A row's count is that of its members iff no call is, or stopped, between putting its message into the
      thread and updating the row. */
  lemma CountsAgreeIff(calls: int -> Call, actions: seq<Action>, t: int)
    requires t in After(calls, actions).store.threads
    requires 0 < |Members(After(calls, actions).store.log, t)| <= I64_MAX
    ensures var s := After(calls, actions);
      s.store.threads[t].count == |Members(s.store.log, t)| <==> forall c :: !Lagging(At(s, c), t)
  {
    var s := After(calls, actions);
    CountsAreConserved(calls, actions);
    hide After, Members;
    assert forall c :: c in Behind(s, t) <==> Lagging(At(s, c), t);
    hide Behind, Lagging;
    if Behind(s, t) != {} {
      var c := Threading.Pick(Behind(s, t));
      assert Lagging(At(s, c), t);
    }
  }

  // ---- two calls of one message ----------------------------------------------------------------

  /** Each of the two does each of its steps right before the other. */
  function Tied(c: int, e: int): seq<Action> {
    [Action(c, "", false), Action(e, "", false), Action(c, "", false), Action(e, "", false),
     Action(c, "", false), Action(e, "", false)]
  }

  predicate NewAndUnlinked(call: Call, s: Store) {
    && MessageIdOf(call.d).Some? && !call.d.spfHardfail && LookupIds(call.d) == []
    && CleanForThread(call.d, IdOf(call)) && CleanForMessage(call.d) && Found(s.log, call).None?
  }

  lemma UnlinkedCallOpens(call: Call, s: Store)
    requires NewAndUnlinked(call, s)
    ensures Next(call, s, Arrived, "", false) == (s, Linking(map[], multiset{}))
    ensures var after := s.(threads := s.threads[call.newId := OpeningItem(call.d, IdOf(call), call.newId)]);
      call.newId !in s.threads ==> Next(call, s, Linking(map[], multiset{}), "", false) == (after, ThreadStored)
  {
    var c := CandidateOf(call.d, IdOf(call));
    assert c.references == [] && c.inReplyTo.None? by { assert LookupIds(call.d) == []; }
    OpeningTexts(call.d, IdOf(call), call.newId);
    hide CleanForThread, CleanForMessage, ThreadStorable, Find, MessageIdOf, Structured, InReplyToOf;
    assert AssignmentFor(call, map[]).New?;
  }

  lemma FirstOneStores(call: Call, s: Store)
    requires NewAndUnlinked(call, s)
    ensures Next(call, s, ThreadStored, "", false)
      == (s.(log := s.log + [MessageFor(call, call.newId)]), Finished(Accepted(call.newId)))
  {
    CleanTextsInsert(call, s.log);
    InsertedRow(call, s.log, call.newId);
    hide InsertMessage, MessageFor, NewAndUnlinked;
  }

  lemma CleanTextsInsert(call: Call, log: seq<Message>)
    requires CleanForThread(call.d, IdOf(call)) && CleanForMessage(call.d)
    ensures var r := InsertMessage(log, MessageFor(call, call.newId));
      r.Err? <==> Found(log, call).Some?
    ensures var r := InsertMessage(log, MessageFor(call, call.newId));
      r.Err? ==> r.error.DuplicateKey?
  {
    OpeningTexts(call.d, IdOf(call), call.newId);
    LowerIdempotent(call.d.inbox);
    hide Storable, CleanForThread, CleanForMessage, Find, MessageIdOf, Lower, Structured, InReplyToOf;
  }

  lemma SecondOneIsStranded(first: Call, second: Call, s: Store)
    requires first.d == second.d && NewAndUnlinked(first, s)
    ensures var after := s.(log := s.log + [MessageFor(first, first.newId)]);
      Next(second, after, ThreadStored, "", false) == (after, Stranded(DuplicateMessageId))
  {
    InsertedRow(first, s.log, first.newId);
    CleanTextsInsert(second, s.log + [MessageFor(first, first.newId)]);
    hide InsertMessage, MessageFor, CleanForThread, CleanForMessage, MessageIdOf;
  }

  /** The race is real: from any state, two calls that carry one new message without linkage headers can both
      pass the duplicate check and both open a thread; one is then told of a duplicate and its thread stays. */
  lemma TwinsLeaveAnOrphan(calls: int -> Call, s: State, c: int, e: int)
    requires c != e && calls(c).d == calls(e).d && At(s, c).Arrived? && At(s, e).Arrived? && Forest(s.store)
    requires NewAndUnlinked(calls(c), s.store) && calls(c).newId != calls(e).newId
    requires calls(c).newId !in s.store.threads && calls(e).newId !in s.store.threads
    ensures var end := Run(calls, s, Tied(c, e));
      && At(end, c) == Finished(Accepted(calls(c).newId)) && At(end, e) == Stranded(DuplicateMessageId)
      && calls(e).newId in end.store.threads && Members(end.store.log, calls(e).newId) == []
  {
    var one, two := calls(c), calls(e);
    var store := s.store;
    NoMembersBefore(store, two.newId);
    InsertedRow(one, store.log, one.newId);
    AppendedLog(store.log, MessageFor(one, one.newId));
    VacantMeans(store.log + [MessageFor(one, one.newId)], two.newId);
    assert NewAndUnlinked(two, store);
    hide Forest, MessageFor, Vacant, Members, Find, MessageIdOf, OpeningItem;
    var s1 := store.(threads := store.threads[one.newId := OpeningItem(one.d, IdOf(one), one.newId)]);
    var s2 := s1.(threads := s1.threads[two.newId := OpeningItem(two.d, IdOf(two), two.newId)]);
    assert NewAndUnlinked(two, s1) && NewAndUnlinked(one, s2);
    hide NewAndUnlinked, Next;
    UnlinkedCallOpens(one, store);
    UnlinkedCallOpens(two, store);
    UnlinkedCallOpens(two, s1);
    FirstOneStores(one, s2);
    SecondOneIsStranded(one, two, s2);
    TiedRun(calls, s, c, e);
  }

  /** The six steps, one state after the other. */
  lemma TiedRun(calls: int -> Call, s: State, c: int, e: int)
    ensures var a, b := Action(c, "", false), Action(e, "", false);
      Run(calls, s, Tied(c, e))
      == Step(calls, Step(calls, Step(calls, Step(calls, Step(calls, Step(calls, s, a), b), a), b), a), b)
  {
    var a, b := Action(c, "", false), Action(e, "", false);
    RunSnoc(calls, s, [], a);
    RunSnoc(calls, s, [a], b);
    RunSnoc(calls, s, [a, b], a);
    RunSnoc(calls, s, [a, b, a], b);
    RunSnoc(calls, s, [a, b, a, b], a);
    RunSnoc(calls, s, [a, b, a, b, a], b);
    hide Run, Step;
    assert [] + [a] == [a] && [a] + [b] == [a, b] && [a, b] + [a] == [a, b, a];
    assert [a, b, a] + [b] == [a, b, a, b] && [a, b, a, b] + [a] == [a, b, a, b, a];
    assert [a, b, a, b, a] + [b] == Tied(c, e);
    assert Run(calls, s, []) == s by { RunNothing(calls, s); }
  }

  lemma RunNothing(calls: int -> Call, s: State)
    ensures Run(calls, s, []) == s
  {
  }

  lemma RunSnoc(calls: int -> Call, s: State, actions: seq<Action>, a: Action)
    ensures Run(calls, s, actions + [a]) == Step(calls, Run(calls, s, actions), a)
  {
    assert (actions + [a])[..|actions|] == actions;
  }

  // ---- one call by itself ----------------------------------------------------------------------

  function ReplyOf(p: Progress): Reply {
    if p.Finished? || p.Stranded? then p.reply else StoreFailed
  }

  function IndexAfter(log: seq<Message>, inbox: string, order: seq<string>): Threading.Index {
    if order == [] then map[] else Looked(log, inbox, IndexAfter(log, inbox, order[..|order| - 1]), order[|order| - 1])
  }

  function Looks(c: int, order: seq<string>): seq<Action> {
    seq(|order|, i requires 0 <= i < |order| => Action(c, order[i], false))
  }

  /** The two database calls behind the lookups, with the injected failure where it falls. */
  function Inserts(c: int, joins: bool, fault: Fault): seq<Action> {
    [Action(c, "", if joins then fault.MessageInsertFails? else fault.ThreadInsertFails?),
     Action(c, "", if joins then fault.MemberUpdateFails? else fault.MessageInsertFails?)]
  }

  lemma {:induction false} IndexAfterMeans(s: Store, inbox: string, order: seq<string>)
    requires Forest(s) && forall l :: l in order ==> Threading.CanonicalLink(l) == Some(l)
    ensures forall l :: Threading.CanonicalLink(l) == Some(l) ==>
      Threading.ThreadOf(IndexAfter(s.log, inbox, order), inbox, l)
      == if l in order then Threading.ThreadOf(WholeIndex(s.log), inbox, l) else None
  {
    if order == [] {
      EmptyIndex(inbox);
    } else {
      var earlier, link := order[..|order| - 1], order[|order| - 1];
      assert order == earlier + [link];
      IndexAfterMeans(s, inbox, earlier);
      hide Forest, Looked, Threading.ThreadOf, Threading.CanonicalLink, WholeIndex;
      LookedMeans(s, inbox, IndexAfter(s.log, inbox, earlier), link);
    }
  }

  lemma LookedMeans(s: Store, inbox: string, index: Threading.Index, link: string)
    requires Forest(s) && Threading.CanonicalLink(link) == Some(link)
    ensures var whole := Threading.ThreadOf(WholeIndex(s.log), inbox, link);
      forall l :: Threading.CanonicalLink(l) == Some(l) ==>
        Threading.ThreadOf(Looked(s.log, inbox, index, link), inbox, l)
        == if l == link && whole.Some? then whole else Threading.ThreadOf(index, inbox, l)
  {
    LookupIsTheIndex(s, inbox, link);
    hide Threading.ThreadOf, Threading.Inserted, Threading.CanonicalLink, Threading.Trim, Threading.Bracketed, Find,
        WholeIndex, Forest, Lower;
    forall l, t | Threading.CanonicalLink(l) == Some(l)
      ensures Threading.ThreadOf(Threading.Inserted(index, inbox, link, t), inbox, l)
              == if l == link then Some(t) else Threading.ThreadOf(index, inbox, l)
    {
      IndexOne(index, inbox, link, t, l);
    }
  }

  lemma LookStep(calls: int -> Call, s: State, c: int, link: string)
    requires At(s, c).Linking? && link in At(s, c).pending
    ensures var p := At(s, c);
      var next := Linking(Looked(s.store.log, calls(c).d.inbox, p.index, link), p.pending - multiset{link});
      Step(calls, s, Action(c, link, false)) == State(s.store, s.progress[c := next])
  {
    hide Looked, Checked, Assigned, Populated;
  }

  lemma LastLook(c: int, order: seq<string>, pending: multiset<string>)
    requires order != [] && multiset(order) <= pending
    ensures var earlier, link := order[..|order| - 1], order[|order| - 1];
      && Looks(c, order) == Looks(c, earlier) + [Action(c, link, false)]
      && multiset(earlier) <= pending && link in pending - multiset(earlier)
      && pending - multiset(order) == pending - multiset(earlier) - multiset{link}
  {
    var earlier, link := order[..|order| - 1], order[|order| - 1];
    assert order == earlier + [link];
    assert multiset(order) == multiset(earlier) + multiset{link};
  }

  lemma {:induction false} LooksRun(calls: int -> Call, s: State, c: int, order: seq<string>)
    requires At(s, c).Linking? && At(s, c).index == map[] && multiset(order) <= At(s, c).pending
    ensures var index := IndexAfter(s.store.log, calls(c).d.inbox, order);
      Run(calls, s, Looks(c, order))
      == State(s.store, s.progress[c := Linking(index, At(s, c).pending - multiset(order))])
  {
    hide Looked, Step;
    var pending := At(s, c).pending;
    if order == [] {
      assert pending - multiset(order) == pending && Linking(map[], pending) == At(s, c);
      assert s.progress[c := At(s, c)] == s.progress;
    } else {
      var earlier, link := order[..|order| - 1], order[|order| - 1];
      LastLook(c, order, pending);
      RunSnoc(calls, s, Looks(c, earlier), Action(c, link, false));
      hide Run, Looks;
      LooksRun(calls, s, c, earlier);
      LookStep(calls, Run(calls, s, Looks(c, earlier)), c, link);
    }
  }

  lemma {:induction false} RunConcat(calls: int -> Call, s: State, a: seq<Action>, b: seq<Action>)
    ensures Run(calls, s, a + b) == Run(calls, Run(calls, s, a), b)
    decreases b
  {
    if b == [] {
      assert a + b == a;
    } else {
      assert (a + b)[..|a + b| - 1] == a + b[..|b| - 1];
      RunConcat(calls, s, a, b[..|b| - 1]);
    }
  }

  /** Lookups in whatever order they come back decide as the index of the whole inbox does. */
  lemma LooksDecide(call: Call, s: Store, order: seq<string>)
    requires Forest(s) && MessageIdOf(call.d).Some? && multiset(order) == multiset(LookupIds(call.d))
    ensures AssignmentFor(call, IndexAfter(s.log, call.d.inbox, order))
      == Threading.AssignmentOf(WholeIndex(s.log), CandidateOf(call.d, MessageIdOf(call.d).value))
  {
    LookupsAreLinks(call.d);
    assert forall l :: l in order <==> l in LookupIds(call.d) by {
      assert forall l :: l in order <==> l in multiset(order);
      assert forall l :: l in LookupIds(call.d) <==> l in multiset(LookupIds(call.d));
    }
    hide Threading.AssignmentOf, Threading.CanonicalLink, Threading.ThreadOf, IndexAfter, WholeIndex, MessageIdOf,
        Structured, InReplyToOf, Forest;
    IndexAfterMeans(s, call.d.inbox, order);
    PartialIndexSuffices(s.log, IndexAfter(s.log, call.d.inbox, order), CandidateOf(call.d, IdOf(call)),
      set l | l in order);
  }

  /** The last two steps are the two inserts of a delivery. */
  lemma InsertsOpen(call: Call, s: Store, index: Threading.Index, fault: Fault)
    requires AssignmentFor(call, index).New?
    ensures var steps := Inserts(0, false, fault);
      var (s1, p1) := Next(call, s, Linking(index, multiset{}), "", steps[0].fails);
      var (s2, p2) := Next(call, s1, p1, "", steps[1].fails);
      (s2, ReplyOf(p2)) == Opened(s, call.d, IdOf(call), call.newId, fault)
  {
    hide IdOf, MessageOf, OpeningItem, InsertThread, InsertMessage, Recorded, AssignmentFor;
  }

  /** Or the insert and the update of the thread's row. */
  lemma InsertsJoin(call: Call, s: Store, index: Threading.Index, fault: Fault)
    requires AssignmentFor(call, index).Existing?
    ensures var steps := Inserts(0, true, fault);
      var (s1, p1) := Next(call, s, Linking(index, multiset{}), "", steps[0].fails);
      var (s2, p2) := Next(call, s1, p1, "", steps[1].fails);
      (s2, ReplyOf(p2)) == Joined(s, MessageFor(call, AssignmentFor(call, index).thread), fault)
  {
    InsertedRow(call, s.log, AssignmentFor(call, index).thread);
    hide MessageFor, OpeningItem, InsertThread, InsertMessage, Recorded, AssignmentFor;
  }

  lemma InsertsDeliver(call: Call, s: Store, index: Threading.Index, fault: Fault)
    requires MessageIdOf(call.d).Some? && !call.d.spfHardfail && Found(s.log, call).None?
    requires AssignmentFor(call, index)
      == Threading.AssignmentOf(WholeIndex(s.log), CandidateOf(call.d, MessageIdOf(call.d).value))
    ensures var steps := Inserts(0, AssignmentFor(call, index).Existing?, fault);
      var (s1, p1) := Next(call, s, Linking(index, multiset{}), "", steps[0].fails);
      var (s2, p2) := Next(call, s1, p1, "", steps[1].fails);
      (s2, ReplyOf(p2)) == Deliver(s, call.d, call.newId, fault)
  {
    hide AssignmentFor, Next, Opened, Joined, MessageOf, Threading.AssignmentOf, WholeIndex, MessageIdOf, Find;
    if AssignmentFor(call, index).Existing? {
      InsertsJoin(call, s, index, fault);
    } else {
      InsertsOpen(call, s, index, fault);
    }
  }

  /** A call that the sequential model refuses for its Message-ID, its SPF verdict or as a duplicate is refused
      alike in its first step. */
  lemma EarlyRefusalIsDeliver(call: Call, s: Store, fault: Fault)
    requires MessageIdOf(call.d).None? || call.d.spfHardfail || Found(s.log, call).Some?
    ensures Deliver(s, call.d, call.newId, fault).0 == s
    ensures Checked(s, call.d, false) == Finished(Deliver(s, call.d, call.newId, fault).1)
  {
  }

  lemma SoloRun(calls: int -> Call, s: State, check: Action, looks: seq<Action>, last: seq<Action>)
    requires |last| == 2
    ensures var looked := Run(calls, Step(calls, s, check), looks);
      Run(calls, s, [check] + looks + last) == Step(calls, Step(calls, looked, last[0]), last[1])
  {
    var s1 := Step(calls, s, check);
    var looked := Run(calls, s1, looks);
    RunNothing(calls, s);
    RunNothing(calls, looked);
    RunSnoc(calls, s, [], check);
    RunConcat(calls, s, [check], looks);
    RunConcat(calls, s, [check] + looks, last);
    RunSnoc(calls, looked, [], last[0]);
    RunSnoc(calls, looked, [last[0]], last[1]);
    hide Run, Step;
    assert [] + [check] == [check] && [] + [last[0]] == [last[0]] && [last[0]] + [last[1]] == last;
  }

  /** A delivery whose steps nobody interrupts is the one atomic delivery of the sequential model, whatever
      order its lookups come back in and whichever of its writes fails. */
  lemma AloneIsDeliver(calls: int -> Call, s: State, c: int, order: seq<string>, fault: Fault)
    requires Forest(s.store) && At(s, c).Arrived? && MessageIdOf(calls(c).d).Some?
    requires !calls(c).d.spfHardfail && Found(s.store.log, calls(c)).None?
    requires multiset(order) == multiset(LookupIds(calls(c).d))
    ensures var d := calls(c).d;
      var joins := Threading.AssignmentOf(WholeIndex(s.store.log), CandidateOf(d, MessageIdOf(d).value)).Existing?;
      var end := Run(calls, s, [Action(c, "", false)] + Looks(c, order) + Inserts(c, joins, fault));
      (end.store, ReplyOf(At(end, c))) == Deliver(s.store, d, calls(c).newId, fault)
  {
    var call := calls(c);
    var candidate := CandidateOf(call.d, MessageIdOf(call.d).value);
    var joins := Threading.AssignmentOf(WholeIndex(s.store.log), candidate).Existing?;
    var check, last := Action(c, "", false), Inserts(c, joins, fault);
    var index := IndexAfter(s.store.log, call.d.inbox, order);
    var s1 := Step(calls, s, check);
    LooksDecide(call, s.store, order);
    InsertsDeliver(call, s.store, index, fault);
    assert At(s1, c) == Linking(map[], multiset(LookupIds(call.d)));
    assert At(s1, c).pending - multiset(order) == multiset{};
    LooksRun(calls, s1, c, order);
    SoloRun(calls, s, check, Looks(c, order), last);
    hide Forest, Find, MessageIdOf, Deliver, AssignmentFor, Next, WholeIndex, Threading.AssignmentOf, LookupIds, Looks,
        Run, IndexAfter;
  }
}
