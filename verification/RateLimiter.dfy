/** Token buckets per subject: refill, debt, idle eviction and the bucket cap. */
module RateLimiting {
  import opened Prelude

  const CAPACITY := 120.0
  const REFILL_PER_SEC := 2.0
  const COST_OK := 1.0
  const COST_AUTH_FAILURE := 20.0
  const IDLE_EVICTION := 600.0
  const MAX_BUCKETS := 50_000

  datatype Subject = Key(prefix: string) | Ip(address: string) | Probe(address: string)
  datatype Bucket = Bucket(tokens: real, last: real)
  datatype Config = Config(capacity: real, refill: real)
  type Buckets = map<Subject, Bucket>

  const DEFAULT := Config(CAPACITY, REFILL_PER_SEC)

  function Min(a: real, b: real): real { if a <= b then a else b }

  function Max(a: real, b: real): real { if a >= b then a else b }

  /** The monotonic clock's duration_since saturates at zero. */
  function Elapsed(now: real, last: real): real {
    if now >= last then now - last else 0.0
  }

  /** Tokens restored in `seconds`. */
  function Gain(cfg: Config, seconds: real): real {
    seconds * cfg.refill
  }

  function Refilled(cfg: Config, b: Bucket, now: real): Bucket {
    Bucket(Min(b.tokens + Gain(cfg, Elapsed(now, b.last)), cfg.capacity), now)
  }

  function Retained(m: Buckets, now: real): Buckets {
    map s | s in m && Elapsed(now, m[s].last) < IDLE_EVICTION :: m[s]
  }

  function Pressured(m: Buckets, now: real): Buckets {
    if |m| >= MAX_BUCKETS then Retained(m, now) else m
  }

  predicate FailsOpen(m: Buckets, now: real) {
    |Pressured(m, now)| >= MAX_BUCKETS
  }

  /** Refill the subject's bucket (a full one if it has none) and spend from it if it can pay. */
  function Gate(cfg: Config, m: Buckets, s: Subject, cost: real, now: real): (Buckets, bool) {
    var b := Refilled(cfg, if s in m then m[s] else Bucket(cfg.capacity, now), now);
    if b.tokens >= cost then (m[s := Bucket(b.tokens - cost, now)], true) else (m[s := b], false)
  }

  function AfterCheck(cfg: Config, m: Buckets, s: Subject, cost: real, now: real): (Buckets, bool) {
    if FailsOpen(m, now) then (Pressured(m, now), true) else Gate(cfg, Pressured(m, now), s, cost, now)
  }

  function AfterPenalty(cfg: Config, m: Buckets, s: Subject, cost: real, now: real): Buckets {
    if s !in m then m
    else m[s := Bucket(Max(Refilled(cfg, m[s], now).tokens - cost, -cfg.capacity), now)]
  }

  class RateLimiter {
    var buckets: Buckets
    const cfg: Config

    predicate Valid()
      reads this
    {
      |buckets| <= MAX_BUCKETS
    }

    constructor (cfg: Config)
      ensures this.cfg == cfg && buckets == map[] && Valid()
    {
      this.cfg := cfg;
      buckets := map[];
    }

    method CheckAt(subject: Subject, cost: real, now: real) returns (ok: bool)
      requires Valid()
      modifies this`buckets
      ensures Valid()
      ensures (buckets, ok) == AfterCheck(cfg, old(buckets), subject, cost, now)
    {
      hide Gain, Min, Elapsed;
      if |buckets| >= MAX_BUCKETS {
        buckets := map s | s in buckets && Elapsed(now, buckets[s].last) < IDLE_EVICTION :: buckets[s];
        SubmapSize(buckets, old(buckets));
        if |buckets| >= MAX_BUCKETS {
          return true;
        }
      }
      ghost var kept := buckets;
      assert kept == Pressured(old(buckets), now);
      if subject !in buckets {
        InsertSize(buckets, subject, Bucket(cfg.capacity, now));
        buckets := buckets[subject := Bucket(cfg.capacity, now)];
      }
      var bucket := buckets[subject];
      var tokens := Min(bucket.tokens + Gain(cfg, Elapsed(now, bucket.last)), cfg.capacity);
      ok := tokens >= cost;
      if ok {
        tokens := tokens - cost;
      }
      InsertSize(buckets, subject, Bucket(tokens, now));
      buckets := buckets[subject := Bucket(tokens, now)];
      assert buckets == kept[subject := Bucket(tokens, now)];
    }

    method PenaliseAt(subject: Subject, cost: real, now: real)
      requires Valid()
      modifies this`buckets
      ensures Valid()
      ensures buckets == AfterPenalty(cfg, old(buckets), subject, cost, now)
    {
      if subject !in buckets {
        return;
      }
      var bucket := buckets[subject];
      var tokens := Min(bucket.tokens + Gain(cfg, Elapsed(now, bucket.last)), cfg.capacity);
      buckets := buckets[subject := Bucket(Max(tokens - cost, -cfg.capacity), now)];
    }
  }

  lemma SubmapSize(small: Buckets, large: Buckets)
    requires small.Keys <= large.Keys
    ensures |small| <= |large|
  {
    SubsetSize(small.Keys, large.Keys);
  }

  lemma InsertSize(m: Buckets, s: Subject, b: Bucket)
    ensures |m[s := b]| == if s in m then |m| else |m| + 1
  {
    assert m[s := b].Keys == m.Keys + {s};
  }

  /** What 401 and 403 answers cost, on top of the ordinary charge. */
  function CostForStatus(status: nat): real {
    if status == 401 || status == 403 then COST_AUTH_FAILURE else COST_OK
  }

  // ---- what a subject can spend at an instant -------------------------------------------------

  /** The balance a check at time `t` would see, whether or not a bucket is stored. */
  function Balance(cfg: Config, m: Buckets, s: Subject, t: real): real {
    if s in m then Refilled(cfg, m[s], t).tokens else cfg.capacity
  }

  /** An idle bucket refills from the deepest debt to full before it may be evicted. */
  predicate Sound(cfg: Config) {
    0.0 <= cfg.capacity && 0.0 <= cfg.refill && 2.0 * cfg.capacity <= IDLE_EVICTION * cfg.refill
  }

  ghost predicate Bounded(cfg: Config, m: Buckets, now: real) {
    forall s :: s in m ==> m[s].last <= now && -cfg.capacity <= m[s].tokens <= cfg.capacity
  }

  lemma GainIs(cfg: Config, seconds: real)
    ensures Gain(cfg, seconds) == seconds * cfg.refill
  {
  }

  lemma Spread(cfg: Config, a: real, b: real, c: real)
    requires a <= b <= c && 0.0 <= cfg.refill
    ensures Gain(cfg, c - a) == Gain(cfg, b - a) + Gain(cfg, c - b)
    ensures 0.0 <= Gain(cfg, b - a) && 0.0 <= Gain(cfg, c - b)
    ensures Gain(cfg, 0.0) == 0.0
  {
  }

  lemma IdleIsFull(cfg: Config, b: Bucket, t: real)
    requires Sound(cfg) && -cfg.capacity <= b.tokens
    requires t - b.last >= IDLE_EVICTION
    ensures Gain(cfg, t - b.last) >= 2.0 * cfg.capacity
    ensures Refilled(cfg, b, t).tokens == cfg.capacity
  {
    Spread(cfg, b.last, b.last + IDLE_EVICTION, t);
    assert Gain(cfg, IDLE_EVICTION) == IDLE_EVICTION * cfg.refill;
    hide Gain;
  }

  /** Refilling in two instalments is refilling once. */
  lemma RefillTwice(cfg: Config, b: Bucket, t: real, u: real)
    requires 0.0 <= cfg.refill && b.last <= t <= u
    ensures Refilled(cfg, Refilled(cfg, b, t), u) == Refilled(cfg, b, u)
  {
    hide Gain;
    Spread(cfg, b.last, t, u);
  }

  /** Eviction removes no spending power from anyone, at any later time. */
  lemma PressureKeepsBalance(cfg: Config, m: Buckets, s: Subject, now: real, t: real)
    requires Sound(cfg) && Bounded(cfg, m, now) && now <= t
    ensures Balance(cfg, Pressured(m, now), s, t) == Balance(cfg, m, s, t)
    ensures Bounded(cfg, Pressured(m, now), now)
  {
    hide Gain;
    if s in m && s !in Pressured(m, now) {
      IdleIsFull(cfg, m[s], t);
    }
  }

  lemma CheckMoves(cfg: Config, m: Buckets, s: Subject, cost: real, now: real, u: Subject, t: real)
    requires Sound(cfg) && Bounded(cfg, m, now) && 0.0 <= cost && now <= t
    requires !FailsOpen(m, now)
    ensures var (m', ok) := AfterCheck(cfg, m, s, cost, now);
      && Bounded(cfg, m', now) && |m'| <= MAX_BUCKETS
      && ok == (Balance(cfg, m, s, now) >= cost)
      && s in m' && m'[s] == Bucket(Balance(cfg, m, s, now) - (if ok then cost else 0.0), now)
      && (u != s && u in m' ==> u in m && m'[u] == m[u])
      && (u != s && u in m && u !in m' ==> now - m[u].last >= IDLE_EVICTION)
      && Balance(cfg, m', u, t) ==
         if u == s && ok
         then Min(Balance(cfg, m, s, now) - cost + Gain(cfg, t - now), cfg.capacity)
         else Balance(cfg, m, u, t)
  {
    hide Gain;
    PressureKeepsBalance(cfg, m, s, now, now);
    PressureKeepsBalance(cfg, m, u, now, t);
    var p := Pressured(m, now);
    if s in p {
      RefillTwice(cfg, p[s], now, t);
      Spread(cfg, p[s].last, now, now);
    } else {
      Spread(cfg, now, now, t);
    }
  }

  /** A check that fails open only evicts: it answers true and moves nobody's balance, at any later time. */
  lemma FailOpenByBalance(cfg: Config, m: Buckets, s: Subject, cost: real, now: real, u: Subject, t: real)
    requires Sound(cfg) && Bounded(cfg, m, now) && now <= t && FailsOpen(m, now)
    ensures var (m', ok) := AfterCheck(cfg, m, s, cost, now);
      && ok && Bounded(cfg, m', now) && |m'| <= |m| && Balance(cfg, m', u, t) == Balance(cfg, m, u, t)
  {
    hide Gain;
    PressureKeepsBalance(cfg, m, u, now, t);
    SubmapSize(Pressured(m, now), m);
  }

  lemma PenaltyMoves(cfg: Config, m: Buckets, s: Subject, cost: real, now: real, u: Subject, t: real)
    requires Sound(cfg) && Bounded(cfg, m, now) && 0.0 <= cost && now <= t
    ensures var m' := AfterPenalty(cfg, m, s, cost, now);
      && Bounded(cfg, m', now) && |m'| == |m|
      && Balance(cfg, m', u, t) ==
         if u == s && s in m
         then Min(Max(Balance(cfg, m, s, now) - cost, -cfg.capacity) + Gain(cfg, t - now), cfg.capacity)
         else Balance(cfg, m, u, t)
  {
    hide Gain;
    if s in m {
      Spread(cfg, m[s].last, now, t);
      assert AfterPenalty(cfg, m, s, cost, now).Keys == m.Keys;
    }
  }

  /** A check answers by the balance alone, takes its cost when granted, and moves nobody else's balance; what
      was taken comes back at `refill` a second. */
  lemma CheckByBalance(cfg: Config, m: Buckets, s: Subject, cost: real, now: real, u: Subject, t: real,
      restored: real)
    requires Sound(cfg) && Bounded(cfg, m, now) && 0.0 <= cost && now <= t
    requires !FailsOpen(m, now) && restored == (t - now) * cfg.refill
    ensures var (m', ok) := AfterCheck(cfg, m, s, cost, now);
      && ok == (Balance(cfg, m, s, now) >= cost)
      && Balance(cfg, m', u, t) ==
         if u == s && ok
         then Min(Balance(cfg, m, s, now) - cost + restored, cfg.capacity)
         else Balance(cfg, m, u, t)
  {
    hide *;
    GainIs(cfg, t - now);
    var left := Balance(cfg, m, s, now) - cost;
    assert left + restored == left + Gain(cfg, t - now);
    CheckMoves(cfg, m, s, cost, now, u, t);
  }

  /** A penalty is taken whatever the balance, down to a debt of the capacity, and from nobody else. */
  lemma PenaltyByBalance(cfg: Config, m: Buckets, s: Subject, cost: real, now: real, u: Subject, t: real,
      restored: real)
    requires Sound(cfg) && Bounded(cfg, m, now) && 0.0 <= cost && now <= t && restored == (t - now) * cfg.refill
    ensures Balance(cfg, AfterPenalty(cfg, m, s, cost, now), u, t) ==
      if u == s && s in m
      then Min(Max(Balance(cfg, m, s, now) - cost, -cfg.capacity) + restored, cfg.capacity)
      else Balance(cfg, m, u, t)
  {
    hide *;
    GainIs(cfg, t - now);
    PenaltyMoves(cfg, m, s, cost, now, u, t);
  }

  // ---- runs -----------------------------------------------------------------------------------

  /** One critical section of the limiter, stamped with the clock value it used. */
  datatype Op =
    | Check(subject: Subject, cost: real, now: real)
    | Penalise(subject: Subject, cost: real, now: real)

  function Step(cfg: Config, m: Buckets, op: Op): (Buckets, bool) {
    match op
    case Check(s, cost, now) => AfterCheck(cfg, m, s, cost, now)
    case Penalise(s, cost, now) => (AfterPenalty(cfg, m, s, cost, now), true)
  }

  /** The limiter without a cap: no bucket is ever dropped. */
  function IdealStep(cfg: Config, m: Buckets, op: Op): (Buckets, bool) {
    match op
    case Check(s, cost, now) => Gate(cfg, m, s, cost, now)
    case Penalise(s, cost, now) => (AfterPenalty(cfg, m, s, cost, now), true)
  }

  function BucketsAt(cfg: Config, ops: seq<Op>, i: nat): Buckets
    requires i <= |ops|
  {
    if i == 0 then map[] else Step(cfg, BucketsAt(cfg, ops, i - 1), ops[i - 1]).0
  }

  function AnswerAt(cfg: Config, ops: seq<Op>, i: nat): bool
    requires i < |ops|
  {
    Step(cfg, BucketsAt(cfg, ops, i), ops[i]).1
  }

  function IdealAt(cfg: Config, ops: seq<Op>, i: nat): Buckets
    requires i <= |ops|
  {
    if i == 0 then map[] else IdealStep(cfg, IdealAt(cfg, ops, i - 1), ops[i - 1]).0
  }

  function IdealAnswerAt(cfg: Config, ops: seq<Op>, i: nat): bool
    requires i < |ops|
  {
    IdealStep(cfg, IdealAt(cfg, ops, i), ops[i]).1
  }

  /** Clock samples are non-decreasing in lock order and no cost is negative. */
  ghost predicate WellTimed(ops: seq<Op>) {
    && (forall i, j :: 0 <= i < j < |ops| ==> ops[i].now <= ops[j].now)
    && (forall i :: 0 <= i < |ops| ==> 0.0 <= ops[i].cost)
  }

  /** Operation i is a check that finds the map full even after eviction. */
  ghost predicate OpenAt(cfg: Config, ops: seq<Op>, i: nat)
    requires i < |ops|
  {
    ops[i].Check? && FailsOpen(BucketsAt(cfg, ops, i), ops[i].now)
  }

  ghost predicate AvoidsFailOpen(cfg: Config, ops: seq<Op>) {
    forall i :: 0 <= i < |ops| ==> !OpenAt(cfg, ops, i)
  }

  /** No handler takes IDLE_EVICTION or longer between its check and its penalty. */
  ghost predicate PenaltiesAreTimely(cfg: Config, ops: seq<Op>) {
    forall i :: 0 <= i < |ops| ==> TimelyAt(cfg, ops, i)
  }

  ghost predicate TimelyAt(cfg: Config, ops: seq<Op>, i: nat)
    requires i < |ops|
  {
    ops[i].Penalise? && ops[i].subject in IdealAt(cfg, ops, i) ==>
      ops[i].now - IdealAt(cfg, ops, i)[ops[i].subject].last < IDLE_EVICTION
  }

  /** In every run, fail-open checks included. */
  lemma {:induction false} RunKeepsBounds(cfg: Config, ops: seq<Op>, i: nat, now: real)
    requires Sound(cfg) && WellTimed(ops) && i <= |ops|
    requires forall k :: 0 <= k < i ==> ops[k].now <= now
    ensures Bounded(cfg, BucketsAt(cfg, ops, i), now)
    ensures |BucketsAt(cfg, ops, i)| <= MAX_BUCKETS
  {
    hide Gain, AfterCheck, AfterPenalty;
    if i == 0 {
    } else {
      var op := ops[i - 1];
      var m := BucketsAt(cfg, ops, i - 1);
      RunKeepsBounds(cfg, ops, i - 1, op.now);
      if OpenAt(cfg, ops, i - 1) {
        FailOpenByBalance(cfg, m, op.subject, op.cost, op.now, op.subject, now);
      } else if op.Check? {
        CheckMoves(cfg, m, op.subject, op.cost, op.now, op.subject, now);
      } else {
        PenaltyMoves(cfg, m, op.subject, op.cost, op.now, op.subject, now);
      }
    }
  }

  /** The stored buckets are the ideal ones, less some that have been idle long enough to be full. */
  ghost predicate Tracks(cfg: Config, m: Buckets, ideal: Buckets, now: real) {
    && Bounded(cfg, ideal, now)
    && (forall s :: s in m ==> s in ideal && m[s] == ideal[s])
    && (forall s :: s in ideal && s !in m ==> now - ideal[s].last >= IDLE_EVICTION)
  }

  lemma {:induction false} RunTracks(cfg: Config, ops: seq<Op>, i: nat, now: real)
    requires Sound(cfg) && WellTimed(ops) && AvoidsFailOpen(cfg, ops) && PenaltiesAreTimely(cfg, ops)
    requires i <= |ops|
    requires forall k :: 0 <= k < i ==> ops[k].now <= now
    ensures Tracks(cfg, BucketsAt(cfg, ops, i), IdealAt(cfg, ops, i), now)
  {
    hide Step, IdealStep;
    if i == 0 {
    } else {
      var op := ops[i - 1];
      assert !OpenAt(cfg, ops, i - 1) && TimelyAt(cfg, ops, i - 1);
      RunTracks(cfg, ops, i - 1, op.now);
      StepTracks(cfg, BucketsAt(cfg, ops, i - 1), IdealAt(cfg, ops, i - 1), op);
    }
  }

  lemma StepTracks(cfg: Config, m: Buckets, ideal: Buckets, op: Op)
    requires Sound(cfg) && 0.0 <= op.cost && Tracks(cfg, m, ideal, op.now)
    requires op.Check? ==> !FailsOpen(m, op.now)
    requires op.Penalise? && op.subject in ideal ==> op.now - ideal[op.subject].last < IDLE_EVICTION
    ensures Tracks(cfg, Step(cfg, m, op).0, IdealStep(cfg, ideal, op).0, op.now)
    ensures Step(cfg, m, op).1 == IdealStep(cfg, ideal, op).1
  {
    hide Gain;
    if op.Check? {
      CheckTracks(cfg, m, ideal, op);
    } else if op.subject in ideal {
      Spread(cfg, ideal[op.subject].last, op.now, op.now);
    }
  }

  lemma CheckTracks(cfg: Config, m: Buckets, ideal: Buckets, op: Op)
    requires Sound(cfg) && op.Check? && 0.0 <= op.cost && Tracks(cfg, m, ideal, op.now) && !FailsOpen(m, op.now)
    ensures Tracks(cfg, Step(cfg, m, op).0, IdealStep(cfg, ideal, op).0, op.now)
    ensures Step(cfg, m, op).1 == IdealStep(cfg, ideal, op).1
  {
    hide Gain;
    var s, now := op.subject, op.now;
    var p := Pressured(m, now);
    PressureTracks(cfg, m, ideal, now);
    hide Pressured;
    if s in ideal {
      Spread(cfg, ideal[s].last, now, now);
      if s !in p {
        IdleIsFull(cfg, ideal[s], now);
      }
    }
    Spread(cfg, now, now, now);
    assert Refilled(cfg, Bucket(cfg.capacity, now), now) == Bucket(cfg.capacity, now);
  }

  lemma PressureTracks(cfg: Config, m: Buckets, ideal: Buckets, now: real)
    requires Tracks(cfg, m, ideal, now)
    ensures Tracks(cfg, Pressured(m, now), ideal, now)
  {
  }

  /** Eviction is unobservable: every check is answered as if no bucket were ever dropped. */
  lemma EvictionIsUnobservable(cfg: Config, ops: seq<Op>, i: nat)
    requires Sound(cfg) && WellTimed(ops) && AvoidsFailOpen(cfg, ops) && PenaltiesAreTimely(cfg, ops)
    requires i < |ops|
    ensures AnswerAt(cfg, ops, i) == IdealAnswerAt(cfg, ops, i)
  {
    hide Step, IdealStep;
    RunTracks(cfg, ops, i, ops[i].now);
    assert !OpenAt(cfg, ops, i) && TimelyAt(cfg, ops, i);
    StepTracks(cfg, BucketsAt(cfg, ops, i), IdealAt(cfg, ops, i), ops[i]);
  }

  lemma DefaultsAreSound()
    ensures Sound(DEFAULT)
    ensures DEFAULT == Config(120.0, 2.0)
    ensures forall status: nat :: CostForStatus(status) == if status in {401, 403} then 20.0 else 1.0
  {
  }

  /** A check fails open exactly when the map is full of buckets each touched within the last 600 seconds. */
  lemma FailsOpenIff(m: Buckets, now: real)
    requires |m| <= 50_000 && forall s :: s in m ==> m[s].last <= now
    ensures FailsOpen(m, now) <==> |m| == 50_000 && forall s :: s in m ==> now - m[s].last < 600.0
  {
    var kept := Retained(m, now);
    if |m| == MAX_BUCKETS {
      SubmapSize(kept, m);
      if forall s :: s in m ==> now - m[s].last < 600.0 {
        assert kept == m;
      } else {
        var s :| s in m && now - m[s].last >= 600.0;
        assert kept.Keys <= m.Keys - {s};
        SubsetSize(kept.Keys, m.Keys - {s});
      }
    }
  }

  /** What a full bucket holds some time after a penalty. */
  function Owed(cfg: Config, penalty: real, since: real): real {
    Min(Max(cfg.capacity - penalty, -cfg.capacity) + since * cfg.refill, cfg.capacity)
  }

  lemma OwedIs(cfg: Config, penalty: real, since: real)
    ensures Owed(cfg, penalty, since)
      == Min(Max(cfg.capacity - penalty, -cfg.capacity) + Gain(cfg, since), cfg.capacity)
  {
    GainIs(cfg, since);
  }

  /** A penalty that finds its bucket evicted is lost: at every later time exactly the checks that the debt
      should still have refused, and a full bucket does not, are answered differently. */
  lemma LatePenaltyIsForgotten(cfg: Config, m: Buckets, ideal: Buckets, s: Subject, penalty: real, cost: real,
      now: real, t: real)
    requires Sound(cfg) && Tracks(cfg, m, ideal, now) && s in ideal && s !in m
    requires 0.0 <= penalty && 0.0 <= cost && now <= t && !FailsOpen(m, t)
    ensures var after := Step(cfg, m, Penalise(s, penalty, now)).0;
      var idealAfter := IdealStep(cfg, ideal, Penalise(s, penalty, now)).0;
      && !FailsOpen(after, t)
      && (Step(cfg, after, Check(s, cost, t)).1 != IdealStep(cfg, idealAfter, Check(s, cost, t)).1
          <==> Owed(cfg, penalty, t - now) < cost <= cfg.capacity)
  {
    OwedIs(cfg, penalty, t - now);
    hide Gain, Owed;
    IdleIsFull(cfg, ideal[s], now);
    Spread(cfg, now, t, t);
    assert Refilled(cfg, Bucket(cfg.capacity, t), t) == Bucket(cfg.capacity, t);
  }

  // ---- a run that forgets a penalty ------------------------------------------------------------

  /** Six requests of one subject and one each of enough others to fill the map; one more subject's check
      when all of them have been idle for the eviction time; then the six requests fail to authenticate,
      and their subject comes back. */
  function ForgettingOp(names: nat -> Subject, i: nat): Op {
    if i < MAX_BUCKETS + 5 then Check(names(if i < 6 then 0 else i - 5), COST_OK, 0.0)
    else if i == MAX_BUCKETS + 5 then Check(names(MAX_BUCKETS), COST_OK, IDLE_EVICTION)
    else if i < MAX_BUCKETS + 12 then Penalise(names(0), COST_AUTH_FAILURE, IDLE_EVICTION)
    else Check(names(0), COST_OK, IDLE_EVICTION)
  }

  function ForgettingRun(names: nat -> Subject): seq<Op> {
    seq(MAX_BUCKETS + 13, i => if i >= 0 then ForgettingOp(names, i) else Check(names(0), COST_OK, 0.0))
  }

  ghost predicate Distinguishes(names: nat -> Subject) {
    forall a: nat, b: nat :: names(a) == names(b) ==> a == b
  }

  function Named(names: nat -> Subject, n: nat): set<Subject> {
    set j: nat | j < n :: names(j)
  }

  /** After i operations of the first part: how many subjects have a bucket. */
  function Seen(i: nat): nat {
    if i == 0 then 0 else if i < 6 then 1 else i - 5
  }

  ghost predicate Fresh(m: Buckets) {
    forall s :: s in m ==> m[s].last == 0.0 && -CAPACITY <= m[s].tokens <= CAPACITY
  }

  lemma FreshCheck(names: nat -> Subject, m: Buckets, n: nat, x: nat)
    requires Distinguishes(names) && Fresh(m) && m.Keys == Named(names, n) && |m| == n < MAX_BUCKETS && x <= n
    ensures var op := Check(names(x), COST_OK, 0.0);
      var after := Step(DEFAULT, m, op).0;
      && !FailsOpen(m, 0.0) && after == IdealStep(DEFAULT, m, op).0 && Fresh(after)
      && after.Keys == Named(names, if x == n then n + 1 else n) && |after| == if x == n then n + 1 else n
  {
    hide Named, Distinguishes, Step, IdealStep, Fresh, FailsOpen;
    NamedGrows(names, n, x);
    var b := FreshBucket(m, names(x));
    InsertSize(m, names(x), b);
    assert m[names(x) := b].Keys == m.Keys + {names(x)};
  }

  lemma FreshBucket(m: Buckets, s: Subject) returns (b: Bucket)
    requires Fresh(m) && |m| < MAX_BUCKETS
    ensures var op := Check(s, COST_OK, 0.0);
      Step(DEFAULT, m, op).0 == IdealStep(DEFAULT, m, op).0 == m[s := b] && Fresh(m[s := b]) && !FailsOpen(m, 0.0)
  {
    b := Step(DEFAULT, m, Check(s, COST_OK, 0.0)).0[s];
  }

  lemma NamedGrows(names: nat -> Subject, n: nat, x: nat)
    requires Distinguishes(names) && x <= n
    ensures names(x) in Named(names, n) <==> x < n
    ensures Named(names, n) + {names(x)} == Named(names, if x == n then n + 1 else n)
  {
  }

  lemma {:induction false} MapFills(names: nat -> Subject, i: nat)
    requires Distinguishes(names) && i <= MAX_BUCKETS + 5
    ensures var ops := ForgettingRun(names);
      var m := BucketsAt(DEFAULT, ops, i);
      && m == IdealAt(DEFAULT, ops, i) && Fresh(m) && m.Keys == Named(names, Seen(i)) && |m| == Seen(i)
      && (i < MAX_BUCKETS + 5 ==> !OpenAt(DEFAULT, ops, i))
  {
    hide Step, IdealStep, Named, Fresh, FailsOpen;
    var ops := ForgettingRun(names);
    if i == 0 {
      NobodySeen(names);
    } else {
      MapFills(names, i - 1);
      FreshCheck(names, BucketsAt(DEFAULT, ops, i - 1), Seen(i - 1), if i - 1 < 6 then 0 else i - 6);
    }
    if i < MAX_BUCKETS + 5 {
      FreshCheck(names, BucketsAt(DEFAULT, ops, i), Seen(i), if i < 6 then 0 else i - 5);
    }
  }

  lemma NobodySeen(names: nat -> Subject)
    ensures Fresh(map[]) && Named(names, 0) == {}
  {
  }

  /** The eviction, the six lost penalties, and the check that should have been refused. */
  lemma EvictedPenalties(names: nat -> Subject, k: nat)
    requires Distinguishes(names) && k <= 6
    ensures var ops, i := ForgettingRun(names), MAX_BUCKETS + 6 + k;
      && BucketsAt(DEFAULT, ops, i) == map[names(MAX_BUCKETS) := Bucket(CAPACITY - COST_OK, IDLE_EVICTION)]
      && names(0) in IdealAt(DEFAULT, ops, i)
      && Refilled(DEFAULT, IdealAt(DEFAULT, ops, i)[names(0)], IDLE_EVICTION)
         == Bucket(CAPACITY - COST_AUTH_FAILURE * k as real, IDLE_EVICTION)
      && !OpenAt(DEFAULT, ops, MAX_BUCKETS + 5)
  {
    hide Step, IdealStep, Fresh, Named, FailsOpen;
    var ops, i := ForgettingRun(names), MAX_BUCKETS + 6 + k;
    MapFills(names, MAX_BUCKETS + 5);
    EverythingIsEvicted(names, BucketsAt(DEFAULT, ops, MAX_BUCKETS + 5));
    if k > 0 {
      EvictedPenalties(names, k - 1);
      assert names(0) != names(MAX_BUCKETS);
      PenaltyIsLost(BucketsAt(DEFAULT, ops, i - 1), IdealAt(DEFAULT, ops, i - 1), names(0), k - 1);
    }
  }

  lemma PenaltyIsLost(m: Buckets, ideal: Buckets, s: Subject, k: nat)
    requires s !in m && s in ideal && k < 6
    requires Refilled(DEFAULT, ideal[s], IDLE_EVICTION)
      == Bucket(CAPACITY - COST_AUTH_FAILURE * k as real, IDLE_EVICTION)
    ensures var op := Penalise(s, COST_AUTH_FAILURE, IDLE_EVICTION);
      var after := IdealStep(DEFAULT, ideal, op).0;
      && Step(DEFAULT, m, op).0 == m && s in after
      && Refilled(DEFAULT, after[s], IDLE_EVICTION)
         == Bucket(CAPACITY - COST_AUTH_FAILURE * (k + 1) as real, IDLE_EVICTION)
  {
  }

  lemma EverythingIsEvicted(names: nat -> Subject, m: Buckets)
    requires Distinguishes(names) && Fresh(m) && m.Keys == Named(names, MAX_BUCKETS) && |m| == MAX_BUCKETS
    ensures var op := Check(names(MAX_BUCKETS), COST_OK, IDLE_EVICTION);
      && !FailsOpen(m, IDLE_EVICTION)
      && Step(DEFAULT, m, op).0 == map[names(MAX_BUCKETS) := Bucket(CAPACITY - COST_OK, IDLE_EVICTION)]
      && names(0) in m && names(0) in IdealStep(DEFAULT, m, op).0
      && Refilled(DEFAULT, IdealStep(DEFAULT, m, op).0[names(0)], IDLE_EVICTION) == Bucket(CAPACITY, IDLE_EVICTION)
  {
    assert names(0) in Named(names, MAX_BUCKETS) && names(0) != names(MAX_BUCKETS);
    assert Pressured(m, IDLE_EVICTION) == map[];
  }

  /** The hypothesis on penalties is needed: a run of the real constants, without fail-open, whose late
      penalties are forgotten, so that a check is granted which an unbounded map refuses. */
  lemma EvictionForgetsPenalties(names: nat -> Subject)
    requires Distinguishes(names)
    ensures var ops := ForgettingRun(names);
      && WellTimed(ops) && AvoidsFailOpen(DEFAULT, ops)
      && AnswerAt(DEFAULT, ops, |ops| - 1) && !IdealAnswerAt(DEFAULT, ops, |ops| - 1)
      && (forall i :: MAX_BUCKETS + 6 <= i < MAX_BUCKETS + 12 ==>
            ops[i] == Penalise(names(0), COST_AUTH_FAILURE, IDLE_EVICTION))
  {
    hide Step, IdealStep, BucketsAt, IdealAt, FailsOpen;
    var ops := ForgettingRun(names);
    EvictedPenalties(names, 6);
    var m, ideal := BucketsAt(DEFAULT, ops, MAX_BUCKETS + 12), IdealAt(DEFAULT, ops, MAX_BUCKETS + 12);
    LastCheckDiffers(m, ideal, names(0), names(MAX_BUCKETS));
    forall i | 0 <= i < |ops| ensures !OpenAt(DEFAULT, ops, i) {
      if i < MAX_BUCKETS + 5 {
        MapFills(names, i);
      }
    }
  }

  lemma LastCheckDiffers(m: Buckets, ideal: Buckets, s: Subject, other: Subject)
    requires s != other && m == map[other := Bucket(CAPACITY - COST_OK, IDLE_EVICTION)]
    requires s in ideal && Refilled(DEFAULT, ideal[s], IDLE_EVICTION) == Bucket(0.0, IDLE_EVICTION)
    ensures var op := Check(s, COST_OK, IDLE_EVICTION);
      Step(DEFAULT, m, op).1 && !IdealStep(DEFAULT, ideal, op).1 && !FailsOpen(m, IDLE_EVICTION)
  {
    assert |m| == 1;
  }

  /** So eviction is observable, once penalties may be late. */
  lemma EvictionIsObservable()
    ensures exists ops: seq<Op> :: WellTimed(ops) && AvoidsFailOpen(DEFAULT, ops) && ops != []
              && AnswerAt(DEFAULT, ops, |ops| - 1) && !IdealAnswerAt(DEFAULT, ops, |ops| - 1)
  {
    hide WellTimed, AvoidsFailOpen, AnswerAt, IdealAnswerAt;
    var names := (n: nat) => Ip(seq(n, _ => '1'));
    assert Distinguishes(names) by {
      forall a: nat, b: nat | names(a) == names(b) ensures a == b {
        assert |seq(a, _ => '1')| == |seq(b, _ => '1')|;
      }
    }
    EvictionForgetsPenalties(names);
    assert ForgettingRun(names) != [];
  }

  // ---- rate bounds ----------------------------------------------------------------------------

  /** Cost granted by checks to `s` in operations i..j of a run, but for those that fail open: they are
      granted and charge nothing. */
  ghost function Granted(cfg: Config, ops: seq<Op>, s: Subject, i: nat, j: nat): real
    requires i <= j <= |ops|
  {
    if i == j then 0.0
    else Granted(cfg, ops, s, i, j - 1) +
         (if ops[j - 1].Check? && ops[j - 1].subject == s && AnswerAt(cfg, ops, j - 1) && !OpenAt(cfg, ops, j - 1)
          then ops[j - 1].cost else 0.0)
  }

  /** The allowance of a window that opens at operation i and has reached time t. */
  function Allowance(cfg: Config, ops: seq<Op>, i: nat, t: real): real
    requires i < |ops|
  {
    cfg.capacity + Gain(cfg, t - ops[i].now)
  }

  lemma AllowanceIs(cfg: Config, ops: seq<Op>, i: nat, t: real)
    requires i < |ops|
    ensures Allowance(cfg, ops, i, t) == cfg.capacity + (t - ops[i].now) * cfg.refill
  {
  }

  lemma {:induction false} GrantedPlusCredit(cfg: Config, ops: seq<Op>, s: Subject, i: nat, j: nat, t: real)
    requires Sound(cfg) && WellTimed(ops)
    requires i < |ops| && i <= j <= |ops| && ops[i].now <= t
    requires forall k :: 0 <= k < j ==> ops[k].now <= t
    ensures Granted(cfg, ops, s, i, j) + Max(Balance(cfg, BucketsAt(cfg, ops, j), s, t), 0.0)
            <= Allowance(cfg, ops, i, t)
  {
    hide Gain, AfterCheck, AfterPenalty;
    if j == i {
      RunKeepsBounds(cfg, ops, j, ops[i].now);
      Spread(cfg, ops[i].now, ops[i].now, t);
    } else {
      var op := ops[j - 1];
      var m := BucketsAt(cfg, ops, j - 1);
      RunKeepsBounds(cfg, ops, j - 1, op.now);
      GrantedPlusCredit(cfg, ops, s, i, j - 1, op.now);
      GrantedPlusCredit(cfg, ops, s, i, j - 1, t);
      Spread(cfg, ops[i].now, op.now, t);
      if OpenAt(cfg, ops, j - 1) {
        FailOpenByBalance(cfg, m, op.subject, op.cost, op.now, s, t);
      } else if op.Check? {
        CheckMoves(cfg, m, op.subject, op.cost, op.now, s, t);
      } else {
        PenaltyMoves(cfg, m, op.subject, op.cost, op.now, s, t);
        BalanceGrows(cfg, m, s, op.now, t);
      }
    }
  }

  lemma BalanceGrows(cfg: Config, m: Buckets, s: Subject, t: real, u: real)
    requires Sound(cfg) && Bounded(cfg, m, t) && t <= u
    ensures Balance(cfg, m, s, u) == Min(Balance(cfg, m, s, t) + Gain(cfg, u - t), cfg.capacity)
  {
    hide Gain;
    if s in m {
      RefillTwice(cfg, m[s], t, u);
    } else {
      Spread(cfg, t, t, u);
    }
  }

  lemma GrantedWithinAllowance(cfg: Config, ops: seq<Op>, s: Subject, i: nat, j: nat)
    requires Sound(cfg) && WellTimed(ops) && i < j <= |ops|
    ensures Granted(cfg, ops, s, i, j) <= Allowance(cfg, ops, i, ops[j - 1].now)
  {
    hide Gain;
    GrantedPlusCredit(cfg, ops, s, i, j, ops[j - 1].now);
  }

  /** In every run no subject is granted more than capacity + refill * T in any window of length T, but for
      what fails open. */
  lemma WindowBound(cfg: Config, ops: seq<Op>, s: Subject, i: nat, j: nat)
    requires Sound(cfg) && WellTimed(ops) && i < j <= |ops|
    ensures Granted(cfg, ops, s, i, j) <= cfg.capacity + (ops[j - 1].now - ops[i].now) * cfg.refill
  {
    hide *;
    GrantedWithinAllowance(cfg, ops, s, i, j);
    AllowanceIs(cfg, ops, i, ops[j - 1].now);
  }

  /** Whether a granted check of `s` in i..k still awaits its response status. */
  function Armed(cfg: Config, ops: seq<Op>, s: Subject, i: nat, k: nat): bool
    requires i <= k <= |ops|
  {
    if i == k then false
    else if ops[k - 1].subject != s then Armed(cfg, ops, s, i, k - 1)
    else ops[k - 1].Check? && (AnswerAt(cfg, ops, k - 1) || Armed(cfg, ops, s, i, k - 1))
  }

  /** Granted cost plus nominal penalties of `s` in i..j. */
  function Charged(cfg: Config, ops: seq<Op>, s: Subject, i: nat, j: nat): real
    requires i <= j <= |ops|
  {
    if i == j then 0.0
    else Charged(cfg, ops, s, i, j - 1) +
         (if ops[j - 1].subject == s && AnswerAt(cfg, ops, j - 1) then ops[j - 1].cost else 0.0)
  }

  /** Every penalty of `s` in i..j answers a granted check, and no penalty exceeds the capacity. */
  ghost predicate PenaltiesFollowChecks(cfg: Config, ops: seq<Op>, s: Subject, i: nat, j: nat)
    requires i <= j <= |ops|
  {
    forall k :: i <= k < j ==> PenaltyFollowsCheck(cfg, ops, s, i, k)
  }

  ghost predicate PenaltyFollowsCheck(cfg: Config, ops: seq<Op>, s: Subject, i: nat, k: nat)
    requires i <= k < |ops|
  {
    ops[k].Penalise? && ops[k].subject == s ==> Armed(cfg, ops, s, i, k) && ops[k].cost <= cfg.capacity
  }

  /** What holds of the account of `s` after operation j - 1 of the window. */
  ghost predicate Account(cfg: Config, ops: seq<Op>, s: Subject, i: nat, j: nat, t: real)
    requires i < |ops| && i <= j <= |ops|
  {
    var m := BucketsAt(cfg, ops, j);
    var spent := Charged(cfg, ops, s, i, j);
    && spent + Balance(cfg, m, s, t) <= Allowance(cfg, ops, i, t)
    && (Armed(cfg, ops, s, i, j) ==>
          if s in m
          then 0.0 <= m[s].tokens && ops[i].now <= m[s].last
               && spent + m[s].tokens <= Allowance(cfg, ops, i, m[s].last)
          else spent + 2.0 * cfg.capacity <= Allowance(cfg, ops, i, t))
  }

  lemma AccountWaits(cfg: Config, ops: seq<Op>, s: Subject, i: nat, j: nat, t: real, u: real)
    requires Sound(cfg) && i < |ops| && i <= j <= |ops| && ops[i].now <= t <= u
    requires Bounded(cfg, BucketsAt(cfg, ops, j), t) && Account(cfg, ops, s, i, j, t)
    ensures Account(cfg, ops, s, i, j, u)
  {
    hide Gain;
    BalanceGrows(cfg, BucketsAt(cfg, ops, j), s, t, u);
    Spread(cfg, ops[i].now, t, u);
  }

  lemma {:induction false} AccountHolds(cfg: Config, ops: seq<Op>, s: Subject, i: nat, j: nat)
    requires Sound(cfg) && WellTimed(ops) && AvoidsFailOpen(cfg, ops)
    requires i < |ops| && i <= j <= |ops| && PenaltiesFollowChecks(cfg, ops, s, i, j)
    ensures Account(cfg, ops, s, i, j, if j == i then ops[i].now else ops[j - 1].now)
  {
    hide Gain, AfterCheck, AfterPenalty;
    if j == i {
      RunKeepsBounds(cfg, ops, j, ops[i].now);
      BalanceGrows(cfg, BucketsAt(cfg, ops, j), s, ops[i].now, ops[i].now);
    } else {
      var op := ops[j - 1];
      var before := if j - 1 == i then ops[i].now else ops[j - 2].now;
      AccountHolds(cfg, ops, s, i, j - 1);
      RunKeepsBounds(cfg, ops, j - 1, before);
      RunKeepsBounds(cfg, ops, j - 1, op.now);
      AccountWaits(cfg, ops, s, i, j - 1, before, op.now);
      if op.Check? {
        AccountAfterCheck(cfg, ops, s, i, j);
      } else {
        AccountAfterPenalty(cfg, ops, s, i, j);
      }
    }
  }

  lemma AccountAfterCheck(cfg: Config, ops: seq<Op>, s: Subject, i: nat, j: nat)
    requires Sound(cfg) && WellTimed(ops) && AvoidsFailOpen(cfg, ops) && i < j <= |ops| && ops[j - 1].Check?
    requires Bounded(cfg, BucketsAt(cfg, ops, j - 1), ops[j - 1].now)
    requires Account(cfg, ops, s, i, j - 1, ops[j - 1].now)
    ensures Account(cfg, ops, s, i, j, ops[j - 1].now)
  {
    hide Gain, AfterCheck, AfterPenalty;
    var op := ops[j - 1];
    assert !OpenAt(cfg, ops, j - 1);
    var m := BucketsAt(cfg, ops, j - 1);
    var m' := BucketsAt(cfg, ops, j);
    CheckMoves(cfg, m, op.subject, op.cost, op.now, s, op.now);
    BalanceGrows(cfg, m, s, op.now, op.now);
    Spread(cfg, op.now, op.now, op.now);
    if Armed(cfg, ops, s, i, j) {
      if op.subject == s {
        if Armed(cfg, ops, s, i, j - 1) && s in m {
          Spread(cfg, m[s].last, op.now, op.now);
        }
      } else if s in m && s !in m' {
        IdleIsFull(cfg, m[s], op.now);
        Spread(cfg, ops[i].now, m[s].last, op.now);
      }
    }
  }

  lemma AccountAfterPenalty(cfg: Config, ops: seq<Op>, s: Subject, i: nat, j: nat)
    requires Sound(cfg) && WellTimed(ops) && i < j <= |ops| && ops[j - 1].Penalise?
    requires PenaltiesFollowChecks(cfg, ops, s, i, j)
    requires Bounded(cfg, BucketsAt(cfg, ops, j - 1), ops[j - 1].now)
    requires Account(cfg, ops, s, i, j - 1, ops[j - 1].now)
    ensures Account(cfg, ops, s, i, j, ops[j - 1].now)
  {
    hide Gain, AfterCheck;
    var op := ops[j - 1];
    assert PenaltyFollowsCheck(cfg, ops, s, i, j - 1);
    var m := BucketsAt(cfg, ops, j - 1);
    PenaltyMoves(cfg, m, op.subject, op.cost, op.now, s, op.now);
    if op.subject == s && s in m {
      Spread(cfg, m[s].last, op.now, op.now);
    }
  }

  lemma ChargeWithinAllowance(cfg: Config, ops: seq<Op>, s: Subject, i: nat, j: nat)
    requires Sound(cfg) && WellTimed(ops) && AvoidsFailOpen(cfg, ops) && i < j <= |ops|
    requires PenaltiesFollowChecks(cfg, ops, s, i, j)
    requires ops[j - 1].Check? && ops[j - 1].subject == s && AnswerAt(cfg, ops, j - 1)
    ensures Charged(cfg, ops, s, i, j) <= Allowance(cfg, ops, i, ops[j - 1].now)
  {
    hide Gain;
    AccountHolds(cfg, ops, s, i, j);
    RunKeepsBounds(cfg, ops, j, ops[j - 1].now);
    if s in BucketsAt(cfg, ops, j) {
      Spread(cfg, BucketsAt(cfg, ops, j)[s].last, ops[j - 1].now, ops[j - 1].now);
    }
  }

  /** Charges of a sequential caller, penalties included, up to and including a granted check. */
  lemma ChargeBound(cfg: Config, ops: seq<Op>, s: Subject, i: nat, j: nat)
    requires Sound(cfg) && WellTimed(ops) && AvoidsFailOpen(cfg, ops) && i < j <= |ops|
    requires PenaltiesFollowChecks(cfg, ops, s, i, j)
    requires ops[j - 1].Check? && ops[j - 1].subject == s && AnswerAt(cfg, ops, j - 1)
    ensures Charged(cfg, ops, s, i, j) <= cfg.capacity + (ops[j - 1].now - ops[i].now) * cfg.refill
  {
    hide *;
    ChargeWithinAllowance(cfg, ops, s, i, j);
    AllowanceIs(cfg, ops, i, ops[j - 1].now);
  }

  /** Checks granted to `s` in i..j. */
  function Grants(cfg: Config, ops: seq<Op>, s: Subject, i: nat, j: nat): nat
    requires i <= j <= |ops|
  {
    if i == j then 0
    else Grants(cfg, ops, s, i, j - 1) +
         (if ops[j - 1].Check? && ops[j - 1].subject == s && AnswerAt(cfg, ops, j - 1) then 1 else 0)
  }

  /** `s` only ever fails authentication in i..j: each granted check is answered by one surcharge
      before the next check is granted. Other subjects are unconstrained. */
  ghost predicate FailsEveryTime(cfg: Config, ops: seq<Op>, s: Subject, i: nat, j: nat)
    requires i <= j <= |ops|
  {
    forall k :: i <= k < j ==> FailsAt(cfg, ops, s, i, k)
  }

  ghost predicate FailsAt(cfg: Config, ops: seq<Op>, s: Subject, i: nat, k: nat)
    requires i <= k < |ops|
  {
    ops[k].subject == s ==>
      if ops[k].Check?
      then ops[k].cost == COST_OK && (AnswerAt(cfg, ops, k) ==> !Armed(cfg, ops, s, i, k))
      else ops[k].cost == COST_AUTH_FAILURE && Armed(cfg, ops, s, i, k)
  }

  lemma {:induction false} FailureCharges(cfg: Config, ops: seq<Op>, s: Subject, i: nat, j: nat)
    requires i <= j <= |ops| && FailsEveryTime(cfg, ops, s, i, j)
    ensures Charged(cfg, ops, s, i, j) ==
      21.0 * Grants(cfg, ops, s, i, j) as real - (if Armed(cfg, ops, s, i, j) then 20.0 else 0.0)
  {
    if i == j {
    } else {
      assert FailsAt(cfg, ops, s, i, j - 1);
      FailureCharges(cfg, ops, s, i, j - 1);
    }
  }

  /** n authentication failures in a row cost 21 each but the last: 21(n-1)+1 <= 120 + 2T. */
  lemma AuthFailureBound(ops: seq<Op>, s: Subject, i: nat, j: nat)
    requires WellTimed(ops) && AvoidsFailOpen(DEFAULT, ops) && i < j <= |ops|
    requires FailsEveryTime(DEFAULT, ops, s, i, j)
    requires ops[j - 1].Check? && ops[j - 1].subject == s && AnswerAt(DEFAULT, ops, j - 1)
    ensures 21.0 * (Grants(DEFAULT, ops, s, i, j) - 1) as real + 1.0 <= 120.0 + 2.0 * (ops[j - 1].now - ops[i].now)
  {
    forall k | i <= k < j ensures PenaltyFollowsCheck(DEFAULT, ops, s, i, k) {
      assert FailsAt(DEFAULT, ops, s, i, k);
    }
    ChargeBound(DEFAULT, ops, s, i, j);
    FailureCharges(DEFAULT, ops, s, i, j);
  }

  /** No operation in i..j takes anything from `s`: its checks are refused and it is not penalised. */
  ghost predicate Uncharged(cfg: Config, ops: seq<Op>, s: Subject, i: nat, j: nat)
    requires i <= j <= |ops|
  {
    forall k :: i <= k < j ==> UnchargedAt(cfg, ops, s, k)
  }

  ghost predicate UnchargedAt(cfg: Config, ops: seq<Op>, s: Subject, k: nat)
    requires k < |ops|
  {
    ops[k].subject == s ==> ops[k].Check? && !AnswerAt(cfg, ops, k)
  }

  lemma {:induction false} RefusalsCostNothing(cfg: Config, ops: seq<Op>, s: Subject, i: nat, j: nat, t: real)
    requires Sound(cfg) && WellTimed(ops) && i <= j <= |ops|
    requires Uncharged(cfg, ops, s, i, j) && forall k :: 0 <= k < j ==> ops[k].now <= t
    ensures Balance(cfg, BucketsAt(cfg, ops, j), s, t) == Balance(cfg, BucketsAt(cfg, ops, i), s, t)
  {
    hide Gain, AfterCheck, AfterPenalty;
    if i == j {
    } else {
      var op := ops[j - 1];
      assert UnchargedAt(cfg, ops, s, j - 1);
      var m := BucketsAt(cfg, ops, j - 1);
      RefusalsCostNothing(cfg, ops, s, i, j - 1, t);
      RunKeepsBounds(cfg, ops, j - 1, op.now);
      if OpenAt(cfg, ops, j - 1) {
        FailOpenByBalance(cfg, m, op.subject, op.cost, op.now, s, t);
      } else if op.Check? {
        CheckMoves(cfg, m, op.subject, op.cost, op.now, s, t);
      } else {
        PenaltyMoves(cfg, m, op.subject, op.cost, op.now, s, t);
      }
    }
  }

  lemma RecoveryWithin(cfg: Config, ops: seq<Op>, s: Subject, i: nat, j: nat)
    requires Sound(cfg) && WellTimed(ops) && 0 < i <= j < |ops|
    requires Uncharged(cfg, ops, s, i, j)
    requires ops[j].Check? && ops[j].subject == s && ops[j].cost <= cfg.capacity
    requires Gain(cfg, ops[j].now - ops[i - 1].now) >= cfg.capacity + ops[j].cost
    ensures AnswerAt(cfg, ops, j)
  {
    hide Gain, AfterCheck, AfterPenalty;
    var t0, t := ops[i - 1].now, ops[j].now;
    RunKeepsBounds(cfg, ops, i, t0);
    RunKeepsBounds(cfg, ops, j, t);
    RefusalsCostNothing(cfg, ops, s, i, j, t);
    BalanceGrows(cfg, BucketsAt(cfg, ops, i), s, t0, t);
    if s in BucketsAt(cfg, ops, i) {
      Spread(cfg, BucketsAt(cfg, ops, i)[s].last, t0, t0);
    }
    if OpenAt(cfg, ops, j) {
      FailOpenByBalance(cfg, BucketsAt(cfg, ops, j), s, ops[j].cost, t, s, t);
    } else {
      CheckMoves(cfg, BucketsAt(cfg, ops, j), s, ops[j].cost, t, s, t);
    }
  }

  /** However deep the debt after operation i - 1 and however many checks are refused since, a check
      made (capacity + cost) / refill later is granted. */
  lemma RecoveryIsCertain(cfg: Config, ops: seq<Op>, s: Subject, i: nat, j: nat)
    requires Sound(cfg) && WellTimed(ops) && 0 < i <= j < |ops|
    requires Uncharged(cfg, ops, s, i, j)
    requires ops[j].Check? && ops[j].subject == s && ops[j].cost <= cfg.capacity
    requires (ops[j].now - ops[i - 1].now) * cfg.refill >= cfg.capacity + ops[j].cost
    ensures AnswerAt(cfg, ops, j)
  {
    hide *;
    GainIs(cfg, ops[j].now - ops[i - 1].now);
    RecoveryWithin(cfg, ops, s, i, j);
  }

  /** A subject that has spent everything is granted a check of cost c exactly from c / 2 seconds on. */
  lemma DrainedSubjectWaits(m: Buckets, s: Subject, cost: real, drained: real, now: real)
    requires s in m && m[s] == Bucket(0.0, drained) && drained <= now && 0.0 <= cost <= 120.0 && !FailsOpen(m, now)
    ensures AfterCheck(DEFAULT, m, s, cost, now).1 <==> now - drained >= cost / 2.0
  {
    if s !in Pressured(m, now) {
      assert now - drained >= 600.0;
    }
  }

  /** A subject that spends its burst of 120 at once and then a token every half second. */
  function Greedy(s: Subject, n: nat): seq<Op> {
    seq(120 + n, i => Check(s, 1.0, GreedyTime(i)))
  }

  function GreedyTime(i: int): real {
    if i < 120 then 0.0 else (i - 119) as real / 2.0
  }

  lemma {:induction false} GreedyIsGranted(s: Subject, n: nat, i: nat)
    requires i <= 120 + n
    ensures var ops := Greedy(s, n);
      && (i > 0 ==> BucketsAt(DEFAULT, ops, i)
                    == map[s := Bucket(if i < 120 then 120.0 - i as real else 0.0, GreedyTime(i - 1))])
      && Granted(DEFAULT, ops, s, 0, i) == i as real
  {
    hide Step;
    if i > 0 {
      GreedyIsGranted(s, n, i - 1);
      GreedyStep(s, BucketsAt(DEFAULT, Greedy(s, n), i - 1), i - 1);
    }
  }

  lemma GreedyStep(s: Subject, m: Buckets, i: nat)
    requires i == 0 ==> m == map[]
    requires i > 0 ==> m == map[s := Bucket(if i < 120 then 120.0 - i as real else 0.0, GreedyTime(i - 1))]
    ensures !FailsOpen(m, GreedyTime(i))
    ensures Step(DEFAULT, m, Check(s, 1.0, GreedyTime(i)))
      == (map[s := Bucket(if i < 119 then 119.0 - i as real else 0.0, GreedyTime(i))], true)
  {
    var now := GreedyTime(i);
    assert |m| <= 1 && Pressured(m, now) == m;
    var b := Refilled(DEFAULT, if s in m then m[s] else Bucket(120.0, now), now);
    assert b == Bucket(if i < 120 then 120.0 - i as real else 1.0, now);
    assert m[s := Bucket(b.tokens - 1.0, now)] == map[s := Bucket(b.tokens - 1.0, now)];
  }

  /** The bound of the window is attained: at the defaults a subject can be granted 120 + 2T in time T. */
  lemma AllowanceIsAttained(s: Subject, n: nat)
    ensures var ops := Greedy(s, n);
      && WellTimed(ops) && |ops| == 120 + n && ops[0].now == 0.0
      && Granted(DEFAULT, ops, s, 0, |ops|) == 120.0 + 2.0 * (ops[|ops| - 1].now - ops[0].now)
      && forall i :: 0 <= i < |ops| ==> AnswerAt(DEFAULT, ops, i)
  {
    GreedyIsTimed(s, n);
    GreedyIsGranted(s, n, 120 + n);
    hide Granted, BucketsAt, Step, WellTimed, Greedy, GreedyTime;
    forall i | 0 <= i < 120 + n ensures AnswerAt(DEFAULT, Greedy(s, n), i) {
      GreedyIsAnswered(s, n, i);
    }
  }

  lemma GreedyIsTimed(s: Subject, n: nat)
    ensures var ops := Greedy(s, n);
      && WellTimed(ops) && |ops| == 120 + n && ops[0].now == 0.0
      && 2.0 * (ops[|ops| - 1].now - ops[0].now) == n as real
  {
  }

  lemma GreedyIsAnswered(s: Subject, n: nat, i: nat)
    requires i < 120 + n
    ensures AnswerAt(DEFAULT, Greedy(s, n), i)
  {
    hide Step;
    GreedyIsGranted(s, n, i);
    GreedyStep(s, BucketsAt(DEFAULT, Greedy(s, n), i), i);
  }
}
