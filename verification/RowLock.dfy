/** Concurrent transactions on one row: SELECT ... FOR UPDATE, apply, UPDATE, COMMIT. */
module RowLock {
  import opened Prelude
  import opened Mail
  import Ingest
  import Labels

  // ---- the protocol, for any row ---------------------------------------------------------------

  /** A transaction: whether its WHERE clause finds the row, and the row it writes given what it read and
      the row as the UPDATE finds it; no row for a DELETE. */
  datatype Txn<!R> = Txn(finds: R -> bool, writes: (R, R) -> Option<R>)

  datatype Phase<R> = Waiting | Read(row: R) | Wrote(row: R, next: Option<R>) | Committed | Missed | RolledBack

  /** The committed row, who holds its lock, each transaction's phase, and who committed, in order. */
  datatype State<R> = State(row: Option<R>, holder: Option<int>, phases: map<int, Phase<R>>, order: seq<int>)

  /** `Select` blocks while another transaction holds the lock; `Fail` is a rollback or a lost connection. */
  datatype Action = Select(t: int) | Update(t: int) | Commit(t: int) | Fail(t: int)

  function At<R>(s: State<R>, t: int): Phase<R> {
    if t in s.phases then s.phases[t] else Waiting
  }

  function Moved<R>(s: State<R>, t: int, phase: Phase<R>): State<R> {
    s.(phases := s.phases[t := phase])
  }

  /** One action. With `locking` off, the read is a plain SELECT: the lost update this code avoids. */
  function Step<R>(txns: int -> Txn<R>, locking: bool, s: State<R>, a: Action): State<R> {
    match a
    case Select(t) =>
      if !At(s, t).Waiting? || (locking && s.holder.Some?) then s
      else if s.row.None? || !txns(t).finds(s.row.value) then Moved(s, t, Missed)
      else Moved(if locking then s.(holder := Some(t)) else s, t, Read(s.row.value))
    case Update(t) =>
      if !At(s, t).Read? then s
      else if s.row.None? then Moved(s, t, Wrote(At(s, t).row, None))
      else Moved(s, t, Wrote(At(s, t).row, txns(t).writes(At(s, t).row, s.row.value)))
    case Commit(t) =>
      if !At(s, t).Wrote? then s
      else Moved(s.(row := At(s, t).next, holder := None, order := s.order + [t]), t, Committed)
    case Fail(t) =>
      if !At(s, t).Read? && !At(s, t).Wrote? then s
      else Moved(s.(holder := None), t, RolledBack)
  }

  function RunTo<R>(txns: int -> Txn<R>, locking: bool, initial: Option<R>, actions: seq<Action>, i: nat): State<R>
    requires i <= |actions|
  {
    if i == 0 then State(initial, None, map[], [])
    else Step(txns, locking, RunTo(txns, locking, initial, actions, i - 1), actions[i - 1])
  }

  /** What one transaction does to a row all by itself. */
  function Alone<R>(txn: Txn<R>, row: Option<R>): Option<R> {
    if row.None? || !txn.finds(row.value) then row else txn.writes(row.value, row.value)
  }

  /** Transactions one after the other. */
  function Serial<R>(txns: int -> Txn<R>, initial: Option<R>, order: seq<int>): Option<R> {
    if order == [] then initial else Alone(txns(order[|order| - 1]), Serial(txns, initial, order[..|order| - 1]))
  }

  ghost predicate InTurn<R(!new)>(txns: int -> Txn<R>, initial: Option<R>, s: State<R>) {
    && s.row == Serial(txns, initial, s.order)
    && (forall t :: At(s, t).Read? || At(s, t).Wrote? ==> s.holder == Some(t))
    && (forall t :: At(s, t).Read? ==> s.row == Some(At(s, t).row) && txns(t).finds(At(s, t).row))
    && (forall t :: At(s, t).Wrote? ==>
          s.row == Some(At(s, t).row) && txns(t).finds(At(s, t).row)
              && At(s, t).next == txns(t).writes(At(s, t).row, At(s, t).row))
    && (forall t :: t in s.order <==> At(s, t).Committed?)
    && (forall i, j :: 0 <= i < j < |s.order| ==> s.order[i] != s.order[j])
    && (forall k :: 0 <= k < |s.order| ==> Found(txns, initial, s.order, k))
  }

  /** The k-th transaction to commit found the row its predecessors left. */
  ghost predicate Found<R>(txns: int -> Txn<R>, initial: Option<R>, order: seq<int>, k: nat)
    requires k < |order|
  {
    var row := Serial(txns, initial, order[..k]);
    row.Some? && txns(order[k]).finds(row.value)
  }

  lemma FoundEarlier<R>(txns: int -> Txn<R>, initial: Option<R>, order: seq<int>, n: nat, k: nat)
    requires k < n <= |order| && Found(txns, initial, order, k)
    ensures Found(txns, initial, order[..n], k)
  {
    assert order[..n][..k] == order[..k];
  }

  lemma FoundNow<R>(txns: int -> Txn<R>, initial: Option<R>, order: seq<int>)
    requires order != [] && Found(txns, initial, order, |order| - 1)
    ensures var earlier, last := Serial(txns, initial, order[..|order| - 1]), txns(order[|order| - 1]);
      earlier.Some? && last.finds(earlier.value)
          && Serial(txns, initial, order) == last.writes(earlier.value, earlier.value)
  {
  }

  lemma SerialSnoc<R>(txns: int -> Txn<R>, initial: Option<R>, order: seq<int>, t: int)
    ensures Serial(txns, initial, order + [t]) == Alone(txns(t), Serial(txns, initial, order))
  {
    assert (order + [t])[..|order|] == order;
  }

  lemma StepInTurn<R(!new)>(txns: int -> Txn<R>, initial: Option<R>, s: State<R>, a: Action)
    requires InTurn(txns, initial, s)
    ensures InTurn(txns, initial, Step(txns, true, s, a))
    ensures s.order <= Step(txns, true, s, a).order
  {
    hide Serial, Found, Alone;
    var after := Step(txns, true, s, a);
    assert forall t :: t != a.t ==> At(after, t) == At(s, t);
    if a.Commit? && At(s, a.t).Wrote? {
      CommitInTurn(txns, initial, s, a.t);
    }
  }

  lemma CommitInTurn<R(!new)>(txns: int -> Txn<R>, initial: Option<R>, s: State<R>, t: int)
    requires InTurn(txns, initial, s) && At(s, t).Wrote?
    ensures var after := s.order + [t];
      && At(s, t).next == Serial(txns, initial, after)
      && (forall k :: 0 <= k < |after| ==> Found(txns, initial, after, k))
      && (forall i, j :: 0 <= i < j < |after| ==> after[i] != after[j])
  {
    var after := s.order + [t];
    SerialSnoc(txns, initial, s.order, t);
    hide Serial;
    forall k | 0 <= k < |after| ensures Found(txns, initial, after, k) {
      if k < |s.order| {
        assert Found(txns, initial, s.order, k);
        assert after[..k] == s.order[..k];
      } else {
        assert after[..k] == s.order;
      }
    }
    assert t !in s.order;
  }

  /** Under the lock every interleaving, failures included, leaves the row as the committed transactions
      would have one after the other, each once, in commit order. */
  lemma {:induction false} UpdatesSerialise<R(!new)>(txns: int -> Txn<R>, initial: Option<R>, actions: seq<Action>,
      i: nat)
    requires i <= |actions|
    ensures InTurn(txns, initial, RunTo(txns, true, initial, actions, i))
  {
    if i == 0 {
    } else {
      UpdatesSerialise(txns, initial, actions, i - 1);
      StepInTurn(txns, initial, RunTo(txns, true, initial, actions, i - 1), actions[i - 1]);
    }
  }

  /** What a transaction computed, and so answers, is the row as of its own commit. */
  lemma AnswersAreAsOfCommit<R(!new)>(txns: int -> Txn<R>, initial: Option<R>, actions: seq<Action>, i: nat)
    requires i < |actions| && actions[i].Commit? && At(RunTo(txns, true, initial, actions, i), actions[i].t).Wrote?
    ensures var s, after := RunTo(txns, true, initial, actions, i), RunTo(txns, true, initial, actions, i + 1);
      && after.order == s.order + [actions[i].t]
      && At(s, actions[i].t).next == after.row == Serial(txns, initial, after.order)
  {
    UpdatesSerialise(txns, initial, actions, i + 1);
  }

  /** The lock does not outlive its holder: a transaction that finds the row, with nobody in its way, commits
      what it writes and leaves the lock free, and so does one that fails half-way leave the lock and the row. */
  lemma LocksAreReleased<R>(txns: int -> Txn<R>, s: State<R>, t: int, row: R)
    requires s.row == Some(row) && s.holder.None? && At(s, t).Waiting? && txns(t).finds(row)
    ensures var read := Step(txns, true, s, Select(t));
      var wrote := Step(txns, true, read, Update(t));
      var done := Step(txns, true, wrote, Commit(t));
      && read.holder == wrote.holder == Some(t) && read.row == wrote.row == s.row
      && done.row == txns(t).writes(row, row) && done.holder.None? && done.order == s.order + [t]
      && At(done, t).Committed?
      && Step(txns, true, read, Fail(t)).row == s.row && Step(txns, true, read, Fail(t)).holder.None?
      && Step(txns, true, wrote, Fail(t)).row == s.row && Step(txns, true, wrote, Fail(t)).holder.None?
  {
  }

  // ---- the rows of the mail store --------------------------------------------------------------

  datatype Patch = Patch(add: seq<string>, remove: seq<string>)

  /** PATCH the labels, absorb a new member, or delete. */
  datatype ThreadOp = Relabel(patch: Patch) | Join(m: Message) | Delete

  datatype MessageOp = Retag(patch: Patch) | Drop

  /** The columns each UPDATE sets, computed from the columns its SELECT read. */
  function ThreadWrites(op: ThreadOp, read: ThreadItem, current: ThreadItem): Option<ThreadItem> {
    match op
    case Relabel(patch) => Some(current.(labels := Labels.Mutated(read.labels, patch.add, patch.remove)))
    case Join(m) =>
      var joined := Ingest.WithMember(read, m);
      Some(current.(lastMessage := joined.lastMessage, count := joined.count, size := joined.size,
                    senders := joined.senders, recipients := joined.recipients, at := joined.at,
                    preview := joined.preview))
    case Delete => None
  }

  function MessageWrites(op: MessageOp, read: Message, current: Message): Option<Message> {
    match op
    case Retag(patch) => Some(current.(labels := Labels.Mutated(read.labels, patch.add, patch.remove)))
    case Drop => None
  }

  function ThreadTxns(ops: int -> ThreadOp, finds: int -> (ThreadItem -> bool)): int -> Txn<ThreadItem> {
    t => Txn(finds(t), (read, current) => ThreadWrites(ops(t), read, current))
  }

  function MessageTxns(ops: int -> MessageOp, finds: int -> (Message -> bool)): int -> Txn<Message> {
    t => Txn(finds(t), (read, current) => MessageWrites(ops(t), read, current))
  }

  /** The label patches alone, folded in order. */
  function Patched(patches: seq<Patch>, labels: seq<string>): seq<string> {
    if patches == [] then labels
    else
      var p := patches[|patches| - 1];
      Labels.Mutated(Patched(patches[..|patches| - 1], labels), p.add, p.remove)
  }

  function ThreadPatches(ops: int -> ThreadOp, order: seq<int>): seq<Patch> {
    if order == [] then []
    else
      var op := ops(order[|order| - 1]);
      ThreadPatches(ops, order[..|order| - 1]) + (if op.Relabel? then [op.patch] else [])
  }

  function MessagePatches(ops: int -> MessageOp, order: seq<int>): seq<Patch> {
    if order == [] then []
    else
      var op := ops(order[|order| - 1]);
      MessagePatches(ops, order[..|order| - 1]) + (if op.Retag? then [op.patch] else [])
  }

  function Joiners(ops: int -> ThreadOp, order: seq<int>): seq<Message> {
    if order == [] then []
    else
      var op := ops(order[|order| - 1]);
      Joiners(ops, order[..|order| - 1]) + (if op.Join? then [op.m] else [])
  }

  function Absorbed(item: ThreadItem, ms: seq<Message>): ThreadItem {
    if ms == [] then item else Ingest.WithMember(Absorbed(item, ms[..|ms| - 1]), ms[|ms| - 1])
  }

  lemma AbsorbOne(item: ThreadItem, ms: seq<Message>, m: Message)
    ensures Absorbed(item, ms + [m]) == Ingest.WithMember(Absorbed(item, ms), m)
  {
    assert (ms + [m])[..|ms|] == ms;
  }

  lemma PatchOne(patches: seq<Patch>, p: Patch, labels: seq<string>)
    ensures Patched(patches + [p], labels) == Labels.Mutated(Patched(patches, labels), p.add, p.remove)
  {
    assert (patches + [p])[..|patches|] == patches;
  }

  /** One transaction that found the row, as its labels and its aggregates see it. */
  lemma WriteMeans(op: ThreadOp, item: ThreadItem, patches: seq<Patch>, ms: seq<Message>)
    requires !op.Delete?
    ensures var row := Absorbed(item, ms).(labels := Patched(patches, item.labels));
      ThreadWrites(op, row, row)
      == Some(Absorbed(item, ms + (if op.Join? then [op.m] else [])).(
                labels := Patched(patches + (if op.Relabel? then [op.patch] else []), item.labels)))
  {
    hide Labels.Mutated, Absorbed, Patched, Ingest.AddFolded, Ingest.AddAllFolded, Ingest.HasFold, Ingest.Saturated;
    assert ms + [] == ms && patches + [] == patches;
    match op
    case Join(m) => AbsorbOne(item, ms, m);
    case Relabel(p) => PatchOne(patches, p, item.labels);
  }

  /** Thread work in some order: labels are the fold of the label patches alone and aggregates of the
      joins alone, neither disturbing the other. */
  lemma {:induction false} SerialThread(ops: int -> ThreadOp, finds: int -> (ThreadItem -> bool), item: ThreadItem,
      order: seq<int>)
    requires forall k :: 0 <= k < |order| ==>
      !ops(order[k]).Delete? && Found(ThreadTxns(ops, finds), Some(item), order, k)
    ensures Serial(ThreadTxns(ops, finds), Some(item), order)
            == Some(Absorbed(item, Joiners(ops, order)).(labels := Patched(ThreadPatches(ops, order), item.labels)))
  {
    if order == [] {
      assert item.(labels := item.labels) == item;
    } else {
      hide Absorbed, Patched, ThreadWrites, Found;
      var n := |order| - 1;
      var earlier := order[..n];
      forall k | 0 <= k < |earlier| ensures !ops(earlier[k]).Delete?
          && Found(ThreadTxns(ops, finds), Some(item), earlier, k) {
        assert earlier[k] == order[k];
        assert Found(ThreadTxns(ops, finds), Some(item), order, k);
        FoundEarlier(ThreadTxns(ops, finds), Some(item), order, n, k);
      }
      SerialThread(ops, finds, item, earlier);
      assert Found(ThreadTxns(ops, finds), Some(item), order, n);
      FoundNow(ThreadTxns(ops, finds), Some(item), order);
      WriteMeans(ops(order[n]), item, ThreadPatches(ops, earlier), Joiners(ops, earlier));
    }
  }

  lemma RetagMeans(op: MessageOp, m: Message, patches: seq<Patch>)
    requires !op.Drop?
    ensures var row := m.(labels := Patched(patches, m.labels));
      MessageWrites(op, row, row) == Some(m.(labels := Patched(patches + [op.patch], m.labels)))
  {
    PatchOne(patches, op.patch, m.labels);
  }

  lemma {:induction false} SerialMessage(ops: int -> MessageOp, finds: int -> (Message -> bool), m: Message,
      order: seq<int>)
    requires forall k :: 0 <= k < |order| ==> !ops(order[k]).Drop? && Found(MessageTxns(ops, finds), Some(m), order, k)
    ensures Serial(MessageTxns(ops, finds), Some(m), order)
      == Some(m.(labels := Patched(MessagePatches(ops, order), m.labels)))
  {
    if order == [] {
      assert m.(labels := m.labels) == m;
    } else {
      hide Patched, MessageWrites, Found;
      var n := |order| - 1;
      var earlier := order[..n];
      forall k | 0 <= k < |earlier| ensures !ops(earlier[k]).Drop?
          && Found(MessageTxns(ops, finds), Some(m), earlier, k) {
        assert earlier[k] == order[k];
        assert Found(MessageTxns(ops, finds), Some(m), order, k);
        FoundEarlier(MessageTxns(ops, finds), Some(m), order, n, k);
      }
      SerialMessage(ops, finds, m, earlier);
      assert Found(MessageTxns(ops, finds), Some(m), order, n);
      FoundNow(MessageTxns(ops, finds), Some(m), order);
      RetagMeans(ops(order[n]), m, MessagePatches(ops, earlier));
    }
  }

  /** Nothing a join brought is lost, whatever else joined. */
  lemma {:induction false} AbsorbedKeeps(item: ThreadItem, ms: seq<Message>)
    ensures var r := Absorbed(item, ms);
      && (item.count + |ms| <= I64_MAX ==> r.count == item.count + |ms|)
      && (item.size + Labels.TotalSize(ms) <= I64_MAX ==> r.size == item.size + Labels.TotalSize(ms))
      && (forall m :: m in ms ==> Covers(r, m))
      && item.senders <= r.senders && item.recipients <= r.recipients
      && (ms != [] ==> r.lastMessage == ms[|ms| - 1].id && r.at == ms[|ms| - 1].at)
  {
    if ms == [] {
    } else {
      var n := |ms| - 1;
      var m, earlier := ms[n], Absorbed(item, ms[..n]);
      AbsorbedKeeps(item, ms[..n]);
      assert ms == ms[..n] + [m];
      AbsorbOne(item, ms[..n], m);
      var r := Absorbed(item, ms);
      MemberKeeps(earlier, m);
      hide Ingest.WithMember, Labels.TotalSize, Absorbed, Covers;
      Ingest.TotalSizeSnoc(ms[..n], m);
      forall o | o in ms ensures Covers(r, o) {
        if o in ms[..n] {
          StillCovered(earlier, r, o);
        }
      }
    }
  }

  /** The row lists the member's sender and recipients, up to case. */
  ghost predicate Covers(item: ThreadItem, m: Message) {
    Ingest.HasFold(item.senders, m.from) && forall x :: x in m.to ==> Ingest.HasFold(item.recipients, x)
  }

  lemma MemberKeeps(item: ThreadItem, m: Message)
    ensures var r := Ingest.WithMember(item, m);
      && Covers(r, m) && item.senders <= r.senders && item.recipients <= r.recipients
      && r.count == Ingest.Saturated(item.count + 1) && r.size == Ingest.Saturated(item.size + m.size)
      && r.lastMessage == m.id && r.at == m.at
  {
    Ingest.AddFoldedMeans(item.senders, m.from);
    Ingest.AddAllFoldedMeans(item.recipients, m.to);
    hide Ingest.AddFolded, Ingest.AddAllFolded, Ingest.HasFold, Ingest.FoldDistinct;
  }

  lemma StillCovered(earlier: ThreadItem, r: ThreadItem, o: Message)
    requires earlier.senders <= r.senders && earlier.recipients <= r.recipients && Covers(earlier, o)
    ensures Covers(r, o)
  {
    Ingest.FoldGrows(earlier.senders, r.senders, o.from);
    forall x | x in o.to ensures Ingest.HasFold(r.recipients, x) {
      Ingest.FoldGrows(earlier.recipients, r.recipients, x);
    }
  }

  /** Every interleaving of label PATCHes and joins on one thread: labels fold in commit order, and every
      committed join is in the count, the size, the senders and the recipients. */
  lemma ThreadUpdatesAreNeverLost(ops: int -> ThreadOp, finds: int -> (ThreadItem -> bool), item: ThreadItem,
      actions: seq<Action>)
    requires forall t :: !ops(t).Delete?
    ensures var s := RunTo(ThreadTxns(ops, finds), true, Some(item), actions, |actions|);
      var joins := Joiners(ops, s.order);
      && s.row.Some?
      && s.row.value.labels == Patched(ThreadPatches(ops, s.order), item.labels)
      && (item.count + |joins| <= I64_MAX ==> s.row.value.count == item.count + |joins|)
      && (item.size + Labels.TotalSize(joins) <= I64_MAX ==> s.row.value.size == item.size + Labels.TotalSize(joins))
      && (forall m :: m in joins ==> Covers(s.row.value, m))
      && (joins != [] ==> s.row.value.lastMessage == joins[|joins| - 1].id && s.row.value.at == joins[|joins| - 1].at)
  {
    var s := RunTo(ThreadTxns(ops, finds), true, Some(item), actions, |actions|);
    UpdatesSerialise(ThreadTxns(ops, finds), Some(item), actions, |actions|);
    SerialThread(ops, finds, item, s.order);
    AbsorbedKeeps(item, Joiners(ops, s.order));
    hide RunTo, Absorbed, Joiners, Covers, Patched, ThreadPatches, Serial, Labels.TotalSize;
  }

  /** The same of label PATCHes on one message. */
  lemma MessageUpdatesAreNeverLost(ops: int -> MessageOp, finds: int -> (Message -> bool), m: Message,
      actions: seq<Action>)
    requires forall t :: !ops(t).Drop?
    ensures var s := RunTo(MessageTxns(ops, finds), true, Some(m), actions, |actions|);
      s.row == Some(m.(labels := Patched(MessagePatches(ops, s.order), m.labels)))
  {
    var s := RunTo(MessageTxns(ops, finds), true, Some(m), actions, |actions|);
    UpdatesSerialise(MessageTxns(ops, finds), Some(m), actions, |actions|);
    SerialMessage(ops, finds, m, s.order);
  }

  /** Without FOR UPDATE two joins that interleave both commit and count once. */
  lemma AnUnlockedJoinIsLost(a: Message, b: Message, item: ThreadItem, finds: int -> (ThreadItem -> bool))
    requires item.count < I64_MAX && finds(1)(item) && finds(2)(item)
    ensures var ops := (t: int) => if t == 1 then Join(a) else Join(b);
      var s := RunTo(ThreadTxns(ops, finds), false, Some(item),
          [Select(1), Select(2), Update(1), Commit(1), Update(2), Commit(2)], 6);
      s.order == [1, 2] && s.row.Some? && s.row.value.count == item.count + 1
  {
    var ops := (t: int) => if t == 1 then Join(a) else Join(b);
    var txns := ThreadTxns(ops, finds);
    var actions := [Select(1), Select(2), Update(1), Commit(1), Update(2), Commit(2)];
    var s1 := RunTo(txns, false, Some(item), actions, 1);
    assert s1 == Step(txns, false, RunTo(txns, false, Some(item), actions, 0), Select(1));
    assert At(s1, 1) == Read(item) && At(s1, 2).Waiting? && s1.row == Some(item) && s1.order == [];
    var s2 := RunTo(txns, false, Some(item), actions, 2);
    assert At(s2, 1) == Read(item) && At(s2, 2) == Read(item) && s2.row == Some(item) && s2.order == [];
    var s4 := RunTo(txns, false, Some(item), actions, 4);
    assert RunTo(txns, false, Some(item), actions, 3) == Step(txns, false, s2, Update(1));
    assert At(s4, 2) == Read(item) && s4.row.Some? && s4.order == [1];
    assert RunTo(txns, false, Some(item), actions, 5) == Step(txns, false, s4, Update(2));
  }
}
