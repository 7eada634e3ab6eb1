/** Content-addressed blobs: write to a temporary name, then rename, by interleaved and crashing writers. */
module Blobs {
  import opened Prelude

  type Content = seq<int>

  /** A blob's place, or the temporary name one process uses for it. */
  datatype Path = Final(id: string) | Temp(pid: int, id: string)

  /** Where a `put` is: `Writing` holds an open file and how much of the content it has written. */
  datatype Stage = Checking | Opening | Writing(inode: nat, done: nat) | Cleaning | Rechecking | Returned(ok: bool)

  datatype Writer = Writer(pid: int, content: Content, stage: Stage)

  /** Directory entries, file contents by inode, the next unused inode, and the puts of live processes. */
  datatype State = State(names: map<Path, nat>, data: map<nat, Content>, next: nat, writers: map<int, Writer>)

  /** One atomic step of a put; `fails` is an I/O error the environment injects. */
  datatype Move = Check(fails: bool) | Open(fails: bool) | Write(upTo: nat) | Abandon | Rename(fails: bool)
      | Clean(fails: bool) | Recheck(fails: bool)

  datatype Action = Start(w: int, pid: int, content: Content) | Crash(pid: int) | Act(w: int, move: Move)

  // ---- the filesystem and the steps of put -----------------------------------------------------

  function Zeros(n: nat): Content {
    seq(n, i => 0)
  }

  /** Write at an offset: a hole reads as zeros, and what lies behind stays. */
  function WriteAt(was: Content, at: nat, piece: Content): Content {
    (if at <= |was| then was[..at] else was + Zeros(at - |was|)) + piece
    + (if at + |piece| <= |was| then was[at + |piece|..] else [])
  }

  function With(s: State, w: int, stage: Stage): State
    requires w in s.writers
  {
    s.(writers := s.writers[w := s.writers[w].(stage := stage)])
  }

  function TempOf(of: Content -> string, writer: Writer): Path {
    Temp(writer.pid, of(writer.content))
  }

  function FinalOf(of: Content -> string, writer: Writer): Path {
    Final(of(writer.content))
  }

  /** One step of one put; a step that is not enabled changes nothing. */
  function Advance(of: Content -> string, s: State, w: int, move: Move): State
    requires w in s.writers
  {
    var writer := s.writers[w];
    var temp, final := TempOf(of, writer), FinalOf(of, writer);
    match move
    case Check(fails) =>
      if !writer.stage.Checking? then s
      else With(s, w, if !fails && final in s.names then Returned(true) else Opening)
    case Open(fails) =>
      if !writer.stage.Opening? then s
      else if fails then With(s, w, Returned(false))
      else Truncated(s, w, temp)
    case Write(upTo) =>
      if !writer.stage.Writing? || writer.stage.inode !in s.data then s
      else if !(writer.stage.done < upTo <= |writer.content|) then s
      else Written(s, w, writer.stage.inode, writer.stage.done, writer.content[writer.stage.done..upTo])
    case Abandon =>
      if !writer.stage.Writing? then s else With(s, w, Returned(false))
    case Rename(fails) =>
      if !writer.stage.Writing? || writer.stage.done < |writer.content| then s
      else if fails || temp !in s.names then With(s, w, Cleaning)
      else With(s.(names := (s.names - {temp})[final := s.names[temp]]), w, Returned(true))
    case Clean(fails) =>
      if !writer.stage.Cleaning? then s
      else With(if fails then s else s.(names := s.names - {temp}), w, Rechecking)
    case Recheck(fails) =>
      if !writer.stage.Rechecking? then s else With(s, w, Returned(!fails && final in s.names))
  }

  /** Open for writing: an existing file is truncated, a missing one created. */
  function Truncated(s: State, w: int, temp: Path): State
    requires w in s.writers
  {
    if temp in s.names then With(s.(data := s.data[s.names[temp] := []]), w, Writing(s.names[temp], 0))
    else
      var created := s.(names := s.names[temp := s.next], data := s.data[s.next := []], next := s.next + 1);
      With(created, w, Writing(s.next, 0))
  }

  function Written(s: State, w: int, inode: nat, done: nat, piece: Content): State
    requires w in s.writers && inode in s.data
  {
    With(s.(data := s.data[inode := WriteAt(s.data[inode], done, piece)]), w, Writing(inode, done + |piece|))
  }

  function Step(of: Content -> string, s: State, a: Action): State {
    match a
    case Start(w, pid, content) =>
      if w in s.writers then s else s.(writers := s.writers[w := Writer(pid, content, Checking)])
    case Crash(pid) => s.(writers := map w | w in s.writers && s.writers[w].pid != pid :: s.writers[w])
    case Act(w, move) => if w in s.writers then Advance(of, s, w, move) else s
  }

  const EMPTY := State(map[], map[], 0, map[])

  function RunTo(of: Content -> string, actions: seq<Action>, i: nat): State
    requires i <= |actions|
  {
    if i == 0 then EMPTY else Step(of, RunTo(of, actions, i - 1), actions[i - 1])
  }

  datatype Error = NotFound | Corrupt

  function Get(of: Content -> string, s: State, id: string, verify: bool): Result<Content, Error> {
    if Final(id) !in s.names || s.names[Final(id)] !in s.data then Err(NotFound)
    else
      var content := s.data[s.names[Final(id)]];
      if verify && of(content) != id then Err(Corrupt) else Ok(content)
  }

  // ---- what every run keeps --------------------------------------------------------------------

  ghost predicate CollisionFree(of: Content -> string) {
    forall x, y :: of(x) == of(y) ==> x == y
  }

  predicate InFlight(s: State, w: int) {
    w in s.writers && !s.writers[w].stage.Returned?
  }

  /** The hypothesis: a process has at most one put of a given content in flight, unless that content is
      empty, when there is nothing to truncate. */
  predicate Alone(of: Content -> string, s: State, a: Action) {
    a.Start? ==> forall w :: w in s.writers && InFlight(s, w) && TempOf(of, s.writers[w]) == Temp(a.pid, of(a.content))
                             ==> a.content == [] && s.writers[w].content == []
  }

  ghost predicate AloneAt(of: Content -> string, actions: seq<Action>, i: nat)
    requires i < |actions|
  {
    Alone(of, RunTo(of, actions, i), actions[i])
  }

  ghost predicate Exclusive(of: Content -> string, actions: seq<Action>) {
    forall i :: 0 <= i < |actions| ==> AloneAt(of, actions, i)
  }

  ghost predicate Linked(s: State) {
    && (forall p :: p in s.names ==> s.names[p] in s.data)
    && (forall inode :: inode in s.data ==> inode < s.next)
    && (forall p, q :: p in s.names && q in s.names && s.names[p] == s.names[q] ==> p == q)
  }

  predicate Shares(of: Content -> string, s: State, v: int, w: int) {
    v != w && InFlight(s, v) && InFlight(s, w) && TempOf(of, s.writers[v]) == TempOf(of, s.writers[w])
  }

  ghost predicate Apart(of: Content -> string, s: State) {
    forall v, w :: Shares(of, s, v, w) ==> s.writers[v].content == [] && s.writers[w].content == []
  }

  /** A put of the empty content may find its file gone to a rival, but never other than empty. */
  ghost predicate Emptied(s: State, temp: Path) {
    temp in s.names ==> s.names[temp] in s.data && s.data[s.names[temp]] == []
  }

  ghost predicate OnTrack(of: Content -> string, s: State, w: int)
    requires w in s.writers
  {
    var writer := s.writers[w];
    match writer.stage
    case Writing(inode, done) =>
      && done <= |writer.content|
      && (writer.content == [] ==> Emptied(s, TempOf(of, writer)))
      && (writer.content != [] ==>
            && TempOf(of, writer) in s.names && s.names[TempOf(of, writer)] == inode && inode in s.data
            && s.data[inode] == writer.content[..done])
    case Returned(ok) => ok ==> FinalOf(of, writer) in s.names
    case _ => true
  }

  ghost predicate Whole(of: Content -> string, s: State, id: string) {
    Final(id) in s.names && s.names[Final(id)] in s.data ==> of(s.data[s.names[Final(id)]]) == id
  }

  ghost predicate Sound(of: Content -> string, s: State) {
    && Linked(s) && Apart(of, s)
    && (forall w :: w in s.writers ==> OnTrack(of, s, w))
    && (forall id :: Whole(of, s, id))
  }

  /** Contents no temporary name leads to never change again. */
  predicate Settled(s: State, inode: nat) {
    inode in s.data && forall p :: p in s.names && s.names[p] == inode ==> p.Final?
  }

  /** Stored blobs stay, and settled contents stay settled and unchanged. */
  ghost predicate Preserves(s: State, after: State) {
    && (forall id :: Final(id) in s.names ==> Final(id) in after.names)
    && (forall inode :: Settled(s, inode) ==> Settled(after, inode) && after.data[inode] == s.data[inode])
  }

  lemma StageOnly(of: Content -> string, s: State, w: int, stage: Stage)
    requires Sound(of, s) && w in s.writers && !s.writers[w].stage.Returned?
    requires !stage.Writing? && (stage == Returned(true) ==> FinalOf(of, s.writers[w]) in s.names)
    ensures Sound(of, With(s, w, stage)) && Preserves(s, With(s, w, stage))
  {
    var after := With(s, w, stage);
    forall v | v in after.writers ensures OnTrack(of, after, v) {
      assert OnTrack(of, s, v);
    }
    forall id ensures Whole(of, after, id) {
      assert Whole(of, s, id);
    }
  }

  lemma OpeningIsSound(of: Content -> string, s: State, w: int)
    requires Sound(of, s) && w in s.writers && s.writers[w].stage.Opening?
    ensures var after := Truncated(s, w, TempOf(of, s.writers[w])); Sound(of, after) && Preserves(s, after)
  {
    hide OnTrack, Preserves, Linked, Settled;
    var after := Truncated(s, w, TempOf(of, s.writers[w]));
    OpenPreserves(s, w, TempOf(of, s.writers[w]));
    forall v | v in after.writers ensures OnTrack(of, after, v) {
      OpenKeepsOnTrack(of, s, w, v);
    }
    forall id ensures Whole(of, after, id) {
      OpenKeepsWhole(of, s, w, id);
    }
    hide Whole;
    assert Apart(of, after) by {
      forall u, v | Shares(of, after, u, v) ensures Shares(of, s, u, v) {
      }
    }
  }

  lemma OpenPreserves(s: State, w: int, temp: Path)
    requires Linked(s) && w in s.writers && temp.Temp?
    ensures Linked(Truncated(s, w, temp)) && Preserves(s, Truncated(s, w, temp))
  {
  }

  lemma OpenKeepsWhole(of: Content -> string, s: State, w: int, id: string)
    requires Linked(s) && Whole(of, s, id) && w in s.writers
    ensures Whole(of, Truncated(s, w, TempOf(of, s.writers[w])), id)
  {
  }

  lemma OpenKeepsOnTrack(of: Content -> string, s: State, w: int, v: int)
    requires Sound(of, s) && w in s.writers && v in s.writers && s.writers[w].stage.Opening?
    ensures OnTrack(of, Truncated(s, w, TempOf(of, s.writers[w])), v)
  {
    assert OnTrack(of, s, v);
    assert Shares(of, s, v, w) ==> s.writers[v].content == [] && s.writers[w].content == [];
    hide Apart, Whole;
  }

  lemma WritingIsSound(of: Content -> string, s: State, w: int, upTo: nat)
    requires Sound(of, s) && w in s.writers && s.writers[w].stage.Writing?
    requires s.writers[w].stage.done < upTo <= |s.writers[w].content|
    ensures var writer := s.writers[w];
      var inode, done := writer.stage.inode, writer.stage.done;
      && inode in s.data
      && var after := Written(s, w, inode, done, writer.content[done..upTo]);
         Sound(of, after) && Preserves(s, after)
  {
    var writer := s.writers[w];
    var inode, done := writer.stage.inode, writer.stage.done;
    assert OnTrack(of, s, w);
    var piece := writer.content[done..upTo];
    assert WriteAt(s.data[inode], done, piece) == writer.content[..upTo];
    var after := Written(s, w, inode, done, piece);
    forall v | v in after.writers ensures OnTrack(of, after, v) {
      assert OnTrack(of, s, v);
      assert !Shares(of, s, v, w);
    }
    forall id ensures Whole(of, after, id) {
      assert Whole(of, s, id);
    }
  }

  lemma RenamingIsSound(of: Content -> string, s: State, w: int)
    requires Sound(of, s) && w in s.writers && s.writers[w].stage.Writing?
    requires s.writers[w].stage.done == |s.writers[w].content| && TempOf(of, s.writers[w]) in s.names
    ensures var after := Advance(of, s, w, Rename(false)); Sound(of, after) && Preserves(s, after)
  {
    var writer := s.writers[w];
    assert OnTrack(of, s, w);
    assert writer.content[..|writer.content|] == writer.content;
    var after := Advance(of, s, w, Rename(false));
    assert Linked(after) && Preserves(s, after);
    forall v | v in after.writers ensures OnTrack(of, after, v) {
      RenameKeepsOnTrack(of, s, w, v);
    }
    hide OnTrack, Preserves, Linked, Settled;
    forall id ensures Whole(of, after, id) {
      assert Whole(of, s, id);
    }
    assert Apart(of, after) by {
      forall u, v | Shares(of, after, u, v) ensures Shares(of, s, u, v) {
      }
    }
  }

  lemma RenameKeepsOnTrack(of: Content -> string, s: State, w: int, v: int)
    requires Sound(of, s) && w in s.writers && v in s.writers && s.writers[w].stage.Writing?
    requires s.writers[w].stage.done == |s.writers[w].content| && TempOf(of, s.writers[w]) in s.names
    ensures OnTrack(of, Advance(of, s, w, Rename(false)), v)
  {
    assert OnTrack(of, s, v);
    assert Shares(of, s, v, w) ==> s.writers[v].content == [] && s.writers[w].content == [];
    hide Apart, Whole;
  }

  lemma CleaningIsSound(of: Content -> string, s: State, w: int)
    requires Sound(of, s) && w in s.writers && s.writers[w].stage.Cleaning?
    ensures var after := Advance(of, s, w, Clean(false)); Sound(of, after) && Preserves(s, after)
  {
    var temp := TempOf(of, s.writers[w]);
    var after := Advance(of, s, w, Clean(false));
    forall v | v in after.writers ensures OnTrack(of, after, v) {
      assert OnTrack(of, s, v);
      assert Shares(of, s, v, w) ==> s.writers[v].content == [] && s.writers[w].content == [];
    }
    forall id ensures Whole(of, after, id) {
      assert Whole(of, s, id);
    }
  }

  lemma StartIsSound(of: Content -> string, s: State, w: int, pid: int, content: Content)
    requires Sound(of, s) && w !in s.writers && Alone(of, s, Start(w, pid, content))
    ensures var after := Step(of, s, Start(w, pid, content)); Sound(of, after) && Preserves(s, after)
  {
    var after := Step(of, s, Start(w, pid, content));
    forall v | v in after.writers ensures OnTrack(of, after, v) {
      if v != w { assert OnTrack(of, s, v); }
    }
    forall id ensures Whole(of, after, id) {
      assert Whole(of, s, id);
    }
  }

  lemma CrashIsSound(of: Content -> string, s: State, pid: int)
    requires Sound(of, s)
    ensures var after := Step(of, s, Crash(pid)); Sound(of, after) && Preserves(s, after)
  {
    var after := Step(of, s, Crash(pid));
    forall v | v in after.writers ensures OnTrack(of, after, v) {
      assert OnTrack(of, s, v);
    }
    forall id ensures Whole(of, after, id) {
      assert Whole(of, s, id);
    }
  }

  lemma StepIsSound(of: Content -> string, s: State, a: Action)
    requires Sound(of, s) && Alone(of, s, a)
    ensures Sound(of, Step(of, s, a)) && Preserves(s, Step(of, s, a))
  {
    hide Sound, Preserves, WriteAt, Alone;
    NothingHappens(s);
    match a
    case Start(w, pid, content) =>
      if w !in s.writers { StartIsSound(of, s, w, pid, content); }
    case Crash(pid) => CrashIsSound(of, s, pid);
    case Act(w, move) =>
      if w in s.writers { AdvanceIsSound(of, s, w, move); }
  }

  lemma NothingHappens(s: State)
    ensures Preserves(s, s)
  {
  }

  lemma AdvanceIsSound(of: Content -> string, s: State, w: int, move: Move)
    requires Sound(of, s) && w in s.writers
    ensures Sound(of, Advance(of, s, w, move)) && Preserves(s, Advance(of, s, w, move))
  {
    hide Sound, Preserves, WriteAt;
    NothingHappens(s);
    var writer := s.writers[w];
    var final := FinalOf(of, writer);
    match move
    case Check(fails) =>
      if writer.stage.Checking? { StageOnly(of, s, w, if !fails && final in s.names then Returned(true) else Opening); }
    case Open(fails) =>
      if writer.stage.Opening? {
        if fails { StageOnly(of, s, w, Returned(false)); } else { OpeningIsSound(of, s, w); }
      }
    case Write(upTo) =>
      if writer.stage.Writing? && writer.stage.done < upTo <= |writer.content| { WritingIsSound(of, s, w, upTo); }
    case Abandon =>
      if writer.stage.Writing? { StageOnly(of, s, w, Returned(false)); }
    case Rename(fails) =>
      if writer.stage.Writing? && writer.stage.done >= |writer.content| {
        WrittenOut(of, s, w);
        if fails || TempOf(of, writer) !in s.names {
          StageOnly(of, s, w, Cleaning);
        } else {
          RenamingIsSound(of, s, w);
        }
      }
    case Clean(fails) =>
      if writer.stage.Cleaning? {
        if fails { StageOnly(of, s, w, Rechecking); } else { CleaningIsSound(of, s, w); }
      }
    case Recheck(fails) =>
      if writer.stage.Rechecking? { StageOnly(of, s, w, Returned(!fails && final in s.names)); }
  }

  lemma WrittenOut(of: Content -> string, s: State, w: int)
    requires Sound(of, s) && w in s.writers && s.writers[w].stage.Writing?
    ensures s.writers[w].stage.done <= |s.writers[w].content|
  {
    assert OnTrack(of, s, w);
  }

  /** In every reachable state, whatever the interleaving, the failures and the crashes. */
  lemma {:induction false} RunsAreSound(of: Content -> string, actions: seq<Action>, i: nat)
    requires Exclusive(of, actions) && i <= |actions|
    ensures Sound(of, RunTo(of, actions, i))
  {
    if i == 0 {
    } else {
      hide Sound, Step;
      RunsAreSound(of, actions, i - 1);
      assert AloneAt(of, actions, i - 1);
      StepIsSound(of, RunTo(of, actions, i - 1), actions[i - 1]);
    }
  }

  /** So no reader ever meets a partial or mislabelled blob. */
  lemma NothingIsEverCorrupt(of: Content -> string, actions: seq<Action>, i: nat, id: string)
    requires Exclusive(of, actions) && i <= |actions|
    ensures var r := Get(of, RunTo(of, actions, i), id, true);
      && r != Err(Corrupt) && r == Get(of, RunTo(of, actions, i), id, false)
      && (r.Ok? ==> of(r.value) == id)
      && (r == Err(NotFound) <==> Final(id) !in RunTo(of, actions, i).names)
  {
    RunsAreSound(of, actions, i);
    assert Whole(of, RunTo(of, actions, i), id);
  }

  lemma {:induction false} RunsPreserve(of: Content -> string, actions: seq<Action>, i: nat, j: nat)
    requires Exclusive(of, actions) && i <= j <= |actions|
    ensures Preserves(RunTo(of, actions, i), RunTo(of, actions, j))
  {
    if i == j {
      NothingHappens(RunTo(of, actions, i));
    } else {
      hide Sound, Step, Preserves;
      RunsPreserve(of, actions, i, j - 1);
      RunsAreSound(of, actions, j - 1);
      assert AloneAt(of, actions, j - 1);
      hide AloneAt;
      StepIsSound(of, RunTo(of, actions, j - 1), actions[j - 1]);
      PreservesOnward(RunTo(of, actions, i), RunTo(of, actions, j - 1), RunTo(of, actions, j));
    }
  }

  lemma PreservesOnward(r: State, s: State, t: State)
    requires Preserves(r, s) && Preserves(s, t)
    ensures Preserves(r, t)
  {
    hide Settled;
  }

  /** Once any put has returned an id, that id reads back as the bytes that were put, for ever after,
      whoever won the rename and whoever crashed. */
  lemma PutIsDurable(of: Content -> string, actions: seq<Action>, i: nat, j: nat, w: int, verify: bool)
    requires CollisionFree(of) && Exclusive(of, actions) && i <= j <= |actions|
    requires w in RunTo(of, actions, i).writers && RunTo(of, actions, i).writers[w].stage == Returned(true)
    ensures var content := RunTo(of, actions, i).writers[w].content;
      Get(of, RunTo(of, actions, j), of(content), verify) == Ok(content)
  {
    var s, t := RunTo(of, actions, i), RunTo(of, actions, j);
    var id := of(s.writers[w].content);
    RunsAreSound(of, actions, i);
    RunsAreSound(of, actions, j);
    RunsPreserve(of, actions, i, j);
    assert OnTrack(of, s, w);
    assert Whole(of, t, id);
  }

  /** A reader that has opened a blob keeps reading the same bytes, even across a later rename over it. */
  lemma OpenReadersSeeOneVersion(of: Content -> string, actions: seq<Action>, i: nat, j: nat, id: string)
    requires Exclusive(of, actions) && i <= j <= |actions| && Final(id) in RunTo(of, actions, i).names
    ensures var s, t := RunTo(of, actions, i), RunTo(of, actions, j);
      var inode := s.names[Final(id)];
      inode in s.data && inode in t.data && t.data[inode] == s.data[inode]
  {
    RunsAreSound(of, actions, i);
    RunsPreserve(of, actions, i, j);
    assert Settled(RunTo(of, actions, i), RunTo(of, actions, i).names[Final(id)]);
  }

  // ---- progress, and what the hypothesis is for ------------------------------------------------

  function After(of: Content -> string, s: State, actions: seq<Action>): State
    decreases |actions|
  {
    if actions == [] then s else After(of, Step(of, s, actions[0]), actions[1..])
  }

  function Undisturbed(w: int, pid: int, content: Content): seq<Action> {
    [Start(w, pid, content), Act(w, Check(false)), Act(w, Open(false)), Act(w, Write(|content|)), Act(w, Rename(false))]
  }

  /** A put that meets no error and no rival returns its id, and the bytes read back. */
  lemma UndisturbedPutSucceeds(of: Content -> string, s: State, w: int, pid: int, content: Content, verify: bool)
    requires CollisionFree(of) && Sound(of, s) && w !in s.writers && Alone(of, s, Start(w, pid, content))
    ensures var t := After(of, s, Undisturbed(w, pid, content));
      w in t.writers && t.writers[w].stage == Returned(true) && Get(of, t, of(content), verify) == Ok(content)
  {
    var s1 := Step(of, s, Start(w, pid, content));
    StepIsSound(of, s, Start(w, pid, content));
    var s2 := Step(of, s1, Act(w, Check(false)));
    StepIsSound(of, s1, Act(w, Check(false)));
    var s3 := Step(of, s2, Act(w, Open(false)));
    StepIsSound(of, s2, Act(w, Open(false)));
    var s4 := Step(of, s3, Act(w, Write(|content|)));
    StepIsSound(of, s3, Act(w, Write(|content|)));
    var s5 := Step(of, s4, Act(w, Rename(false)));
    StepIsSound(of, s4, Act(w, Rename(false)));
    hide Sound, Preserves, WriteAt;
    FiveSteps(of, s, Start(w, pid, content), Act(w, Check(false)), Act(w, Open(false)), Act(w, Write(|content|)),
        Act(w, Rename(false)));
    WritersAdvance(of, s2, s3, s4, s5, w, content);
    ReadsBack(of, s5, w, verify);
  }

  /** A put whose rename fails takes its temporary file away and succeeds exactly when a rival has published
      the blob by then. */
  lemma FailedRenameDefersToTheRival(of: Content -> string, s: State, w: int, fails: bool)
    requires w in s.writers && s.writers[w].stage.Writing? && s.writers[w].stage.done == |s.writers[w].content|
    requires fails || TempOf(of, s.writers[w]) !in s.names
    ensures var writer := s.writers[w];
      var t := After(of, s, [Act(w, Rename(fails)), Act(w, Clean(false)), Act(w, Recheck(false))]);
      && w in t.writers && t.data == s.data && t.names == s.names - {Temp(writer.pid, of(writer.content))}
      && t.writers[w] == writer.(stage := Returned(Final(of(writer.content)) in s.names))
  {
    ThreeSteps(of, s, Act(w, Rename(fails)), Act(w, Clean(false)), Act(w, Recheck(false)));
    var s1 := Step(of, s, Act(w, Rename(fails)));
    assert s1.writers[w].stage.Cleaning? && s1.names == s.names && s1.data == s.data;
    var s2 := Step(of, s1, Act(w, Clean(false)));
    assert s2.writers[w].stage.Rechecking? && s2.names == s.names - {TempOf(of, s.writers[w])} && s2.data == s.data;
  }

  /** A put of a blob that is there returns at once and touches no file. */
  lemma KnownBlobIsNotWritten(of: Content -> string, s: State, w: int, pid: int, content: Content)
    requires w !in s.writers && Final(of(content)) in s.names
    ensures var t := After(of, s, [Start(w, pid, content), Act(w, Check(false))]);
      && t.names == s.names && t.data == s.data
      && w in t.writers && t.writers[w] == Writer(pid, content, Returned(true))
  {
    TwoSteps(of, s, Start(w, pid, content), Act(w, Check(false)));
  }

  lemma FiveSteps(of: Content -> string, s: State, a: Action, b: Action, c: Action, d: Action, e: Action)
    ensures After(of, s, [a, b, c, d, e]) == Step(of, Step(of, Step(of, Step(of, Step(of, s, a), b), c), d), e)
  {
    hide Step;
    FourSteps(of, Step(of, s, a), b, c, d, e);
    assert [a, b, c, d, e][1..] == [b, c, d, e];
    assert After(of, s, [a, b, c, d, e]) == After(of, Step(of, s, a), [b, c, d, e]);
  }

  lemma ThreeSteps(of: Content -> string, s: State, a: Action, b: Action, c: Action)
    ensures After(of, s, [a, b, c]) == Step(of, Step(of, Step(of, s, a), b), c)
  {
    hide Step;
    assert [a, b, c][1..] == [b, c] && [b, c][1..] == [c];
    assert After(of, s, [a, b, c]) == After(of, Step(of, s, a), [b, c]);
    assert After(of, Step(of, s, a), [b, c]) == After(of, Step(of, Step(of, s, a), b), [c]);
  }

  lemma WritersAdvance(of: Content -> string, s2: State, s3: State, s4: State, s5: State, w: int, content: Content)
    requires w in s2.writers && s2.writers[w].content == content
      && (s2.writers[w].stage.Opening? || s2.writers[w].stage == Returned(true))
    requires s3 == Step(of, s2, Act(w, Open(false))) && Sound(of, s3)
    requires s4 == Step(of, s3, Act(w, Write(|content|))) && Sound(of, s4)
    requires s5 == Step(of, s4, Act(w, Rename(false)))
    ensures w in s5.writers && s5.writers[w].stage == Returned(true) && s5.writers[w].content == content
  {
    if s2.writers[w].stage.Opening? {
      assert s3.writers[w].stage.Writing? && s3.writers[w].stage.done == 0;
      assert OnTrack(of, s3, w);
      assert s4.writers[w].stage.Writing? && s4.writers[w].stage.done == |content| && s4.writers[w].content == content;
      assert OnTrack(of, s4, w);
    }
  }

  lemma ReadsBack(of: Content -> string, s: State, w: int, verify: bool)
    requires CollisionFree(of) && Sound(of, s) && w in s.writers && s.writers[w].stage == Returned(true)
    ensures Get(of, s, of(s.writers[w].content), verify) == Ok(s.writers[w].content)
  {
    assert OnTrack(of, s, w);
    assert Whole(of, s, of(s.writers[w].content));
  }

  /** Two puts of one content in one process share a temporary name. From any state whatever, the second
      can truncate the file the first has written and is about to rename, and the first then returns an id
      that does not read back. Where the blob is there already, its metadata must fail to be read. */
  lemma SharedTempNamePublishesATruncatedBlob(of: Content -> string, s: State, v: int, w: int, pid: int,
      content: Content)
    requires v != w && v !in s.writers && w !in s.writers && content != []
    ensures var t := After(of, s, Truncation(v, w, pid, content, Final(of(content)) in s.names));
      && v in t.writers && t.writers[v] == Writer(pid, content, Returned(true))
      && Get(of, t, of(content), false) == Ok([])
  {
    var fails := Final(of(content)) in s.names;
    BothReachOpening(of, s, v, w, pid, content, fails);
    var t := After(of, s, Approach(v, w, pid, content, fails));
    OneTruncatesTheOther(of, t, v, w, pid, content);
    AfterSplit(of, s, Approach(v, w, pid, content, fails), Collision(v, w, content));
  }

  function Approach(v: int, w: int, pid: int, content: Content, fails: bool): seq<Action> {
    [Start(v, pid, content), Start(w, pid, content), Act(v, Check(fails)), Act(w, Check(fails))]
  }

  function Collision(v: int, w: int, content: Content): seq<Action> {
    [Act(v, Open(false)), Act(v, Write(|content|)), Act(w, Open(false)), Act(v, Rename(false))]
  }

  lemma BothReachOpening(of: Content -> string, s: State, v: int, w: int, pid: int, content: Content, fails: bool)
    requires v != w && v !in s.writers && w !in s.writers && (fails || Final(of(content)) !in s.names)
    ensures var t := After(of, s, Approach(v, w, pid, content, fails));
      && t.names == s.names && t.data == s.data && v in t.writers && w in t.writers
      && t.writers[v] == Writer(pid, content, Opening) == t.writers[w]
  {
    FourSteps(of, s, Start(v, pid, content), Start(w, pid, content), Act(v, Check(fails)), Act(w, Check(fails)));
    var s2 := Step(of, Step(of, s, Start(v, pid, content)), Start(w, pid, content));
    assert s2.writers[v] == Writer(pid, content, Checking) == s2.writers[w];
  }

  lemma OneTruncatesTheOther(of: Content -> string, s: State, v: int, w: int, pid: int, content: Content)
    requires v != w && v in s.writers && w in s.writers && content != []
    requires s.writers[v] == Writer(pid, content, Opening) == s.writers[w]
    ensures var t := After(of, s, Collision(v, w, content));
      && v in t.writers && t.writers[v] == Writer(pid, content, Returned(true))
      && Get(of, t, of(content), false) == Ok([])
  {
    FourSteps(of, s, Act(v, Open(false)), Act(v, Write(|content|)), Act(w, Open(false)), Act(v, Rename(false)));
    WritesItsFile(of, s, v, w, pid, content);
    hide WriteAt;
    var s2 := Step(of, Step(of, s, Act(v, Open(false))), Act(v, Write(|content|)));
    var s3 := Step(of, s2, Act(w, Open(false)));
    assert s3.writers[v] == s2.writers[v];
  }

  lemma WritesItsFile(of: Content -> string, s: State, v: int, w: int, pid: int, content: Content)
    requires v != w && v in s.writers && w in s.writers && content != []
    requires s.writers[v] == Writer(pid, content, Opening) == s.writers[w]
    ensures var t := Step(of, Step(of, s, Act(v, Open(false))), Act(v, Write(|content|)));
      && v in t.writers && w in t.writers && t.writers[w] == s.writers[w]
      && t.writers[v].pid == pid && t.writers[v].content == content
      && t.writers[v].stage.Writing? && t.writers[v].stage.done == |content|
      && Temp(pid, of(content)) in t.names
  {
    var s1 := Step(of, s, Act(v, Open(false)));
    var inode := s1.writers[v].stage.inode;
    assert s1.data[inode] == [] && s1.writers[w] == s.writers[w];
  }

  lemma FourSteps(of: Content -> string, s: State, a: Action, b: Action, c: Action, d: Action)
    ensures After(of, s, [a, b, c, d]) == Step(of, Step(of, Step(of, Step(of, s, a), b), c), d)
  {
    hide Step;
    ThreeSteps(of, Step(of, s, a), b, c, d);
    assert [a, b, c, d][1..] == [b, c, d];
    assert After(of, s, [a, b, c, d]) == After(of, Step(of, s, a), [b, c, d]);
  }

  function Truncation(v: int, w: int, pid: int, content: Content, fails: bool): seq<Action> {
    Approach(v, w, pid, content, fails) + Collision(v, w, content)
  }

  lemma {:induction false} MovesAreSound(of: Content -> string, s: State, moves: seq<Action>)
    requires Sound(of, s) && forall a :: a in moves ==> a.Act?
    ensures Sound(of, After(of, s, moves))
    decreases |moves|
  {
    hide Sound, Step;
    if moves == [] {
    } else {
      assert moves[0] in moves && Alone(of, s, moves[0]);
      StepIsSound(of, s, moves[0]);
      MovesAreSound(of, Step(of, s, moves[0]), moves[1..]);
    }
  }

  /** A verifying read of any id finds it intact or absent. */
  ghost predicate NothingCorrupt(of: Content -> string, s: State) {
    forall id :: Get(of, s, id, true) != Err(Corrupt)
  }

  lemma SoundIsNotCorrupt(of: Content -> string, s: State)
    requires Sound(of, s)
    ensures NothingCorrupt(of, s)
  {
    forall id ensures Get(of, s, id, true) != Err(Corrupt) {
      assert Whole(of, s, id);
    }
  }

  /** The hypothesis is exact: from any sound state, when two puts of one content overlap in one process, no
      further moves whatever publish a corrupt blob iff the content is empty. */
  lemma OverlapIsSafeIffEmpty(of: Content -> string, s: State, v: int, w: int, pid: int, content: Content)
    requires CollisionFree(of) && Sound(of, s) && v != w && v !in s.writers && w !in s.writers
    requires Alone(of, s, Start(v, pid, content))
    ensures content == []
            <==> forall moves: seq<Action> :: (forall a :: a in moves ==> a.Act?)
                   ==> NothingCorrupt(of, After(of, Overlapping(of, s, v, w, pid, content), moves))
  {
    var t := Overlapping(of, s, v, w, pid, content);
    if content == [] {
      StepIsSound(of, s, Start(v, pid, content));
      StepIsSound(of, Step(of, s, Start(v, pid, content)), Start(w, pid, content));
      hide Sound, After, Overlapping, NothingCorrupt;
      forall moves: seq<Action> | forall a :: a in moves ==> a.Act? ensures NothingCorrupt(of, After(of, t, moves)) {
        MovesAreSound(of, t, moves);
        SoundIsNotCorrupt(of, After(of, t, moves));
      }
    } else {
      OverlapBreaks(of, s, v, w, pid, content);
    }
  }

  lemma OverlapBreaks(of: Content -> string, s: State, v: int, w: int, pid: int, content: Content)
    requires CollisionFree(of) && content != [] && v != w && v !in s.writers && w !in s.writers
    ensures exists moves: seq<Action> :: (forall a :: a in moves ==> a.Act?)
              && !NothingCorrupt(of, After(of, Overlapping(of, s, v, w, pid, content), moves))
  {
    hide Step, After;
    var fails := Final(of(content)) in s.names;
    var starts, moves := [Start(v, pid, content), Start(w, pid, content)], Truncation(v, w, pid, content, fails)[2..];
    SharedTempNamePublishesATruncatedBlob(of, s, v, w, pid, content);
    assert starts + moves == Truncation(v, w, pid, content, fails);
    AfterSplit(of, s, starts, moves);
    TwoSteps(of, s, Start(v, pid, content), Start(w, pid, content));
    assert of([]) != of(content);
    assert Get(of, After(of, Overlapping(of, s, v, w, pid, content), moves), of(content), true) == Err(Corrupt);
  }

  function Overlapping(of: Content -> string, s: State, v: int, w: int, pid: int, content: Content): State {
    Step(of, Step(of, s, Start(v, pid, content)), Start(w, pid, content))
  }

  lemma TwoSteps(of: Content -> string, s: State, a: Action, b: Action)
    ensures After(of, s, [a, b]) == Step(of, Step(of, s, a), b)
  {
    hide Step;
    assert [a, b][1..] == [b];
    assert After(of, s, [a, b]) == After(of, Step(of, s, a), [b]);
  }

  lemma {:induction false} AfterSplit(of: Content -> string, s: State, a: seq<Action>, b: seq<Action>)
    ensures After(of, s, a + b) == After(of, After(of, s, a), b)
    decreases |a|
  {
    if a == [] {
      assert a + b == b;
    } else {
      assert (a + b)[0] == a[0] && (a + b)[1..] == a[1..] + b;
      AfterSplit(of, Step(of, s, a[0]), a[1..], b);
    }
  }
}
