/** Keyset pages over a finite set of sort keys, and walks that follow `next`. */
module Keyset {
  import opened Prelude

  ghost predicate StrictOrder<K(!new)>(less: (K, K) -> bool) {
    && (forall a :: !less(a, a))
    && (forall a, b, c :: less(a, b) && less(b, c) ==> less(a, c))
    && (forall a, b :: a == b || less(a, b) || less(b, a))
  }

  ghost predicate Ascending<K(!new)>(less: (K, K) -> bool, s: seq<K>) {
    forall i, j :: 0 <= i < j < |s| ==> less(s[i], s[j])
  }

  lemma {:induction false} LeastExists<K(!new)>(less: (K, K) -> bool, a: set<K>) returns (k: K)
    requires StrictOrder(less) && a != {}
    ensures k in a && forall j :: j in a && j != k ==> less(k, j)
    decreases |a|
  {
    k :| k in a;
    var rest := a - {k};
    assert forall j :: j in a && j != k ==> j in rest;
    if rest != {} {
      var m := LeastExists(less, rest);
      if less(m, k) {
        k := m;
      }
    }
  }

  ghost predicate IsLeast<K(!new)>(less: (K, K) -> bool, a: set<K>, k: K) {
    k in a && forall j :: j in a && j != k ==> less(k, j)
  }

  ghost function Least<K(!new)>(less: (K, K) -> bool, a: set<K>): (k: K)
    requires StrictOrder(less) && a != {}
    ensures IsLeast(less, a, k)
  {
    assert exists k :: IsLeast(less, a, k) by {
      var k := LeastExists(less, a);
      assert IsLeast(less, a, k);
    }
    var k :| IsLeast(less, a, k);
    k
  }

  /** ORDER BY: the elements of a set in ascending order. */
  ghost function InOrder<K(!new)>(less: (K, K) -> bool, a: set<K>): (s: seq<K>)
    requires StrictOrder(less)
    ensures |s| == |a| && Ascending(less, s)
    ensures forall k :: k in s <==> k in a
    decreases |a|
  {
    if a == {} then []
    else
      var k := Least(less, a);
      var rest := InOrder(less, a - {k});
      assert forall i :: 0 <= i < |rest| ==> rest[i] in a - {k};
      [k] + rest
  }

  lemma FirstIsLeast<K(!new)>(less: (K, K) -> bool, s: seq<K>)
    requires Ascending(less, s) && s != []
    ensures forall k :: k in s <==> k == s[0] || k in s[1..]
    ensures forall k :: k in s[1..] ==> less(s[0], k)
  {
    assert s == [s[0]] + s[1..];
  }

  /** A set has only one ascending listing. */
  lemma {:induction false} ListingIsUnique<K(!new)>(less: (K, K) -> bool, s: seq<K>, t: seq<K>)
    requires StrictOrder(less) && Ascending(less, s) && Ascending(less, t)
    requires forall k :: k in s <==> k in t
    ensures s == t
    decreases |s|
  {
    assert s != [] ==> s[0] in t;
    assert t != [] ==> t[0] in s;
    if s != [] && t != [] {
      var a, b := s[0], t[0];
      FirstIsLeast(less, s);
      FirstIsLeast(less, t);
      assert a == b by {
        assert a in t && b in s;
        assert less(a, b) && less(b, a) ==> less(a, a);
      }
      assert !less(a, a);
      ListingIsUnique(less, s[1..], t[1..]);
      assert s == [a] + s[1..] && t == [b] + t[1..];
    }
  }

  lemma ListedOnce<K(!new)>(less: (K, K) -> bool, s: seq<K>)
    requires StrictOrder(less) && Ascending(less, s)
    ensures forall i, j :: 0 <= i < j < |s| ==> s[i] != s[j]
  {
    forall i, j | 0 <= i < j < |s| ensures s[i] != s[j] {
      assert less(s[i], s[j]) && !less(s[i], s[i]);
    }
  }

  // ---- one page -------------------------------------------------------------------------------

  datatype Page<+K> = Page(items: seq<K>, next: Option<K>)

  /** LIMIT: one more than asked for, saturating first at u64::MAX and then at i64::MAX. */
  function FetchLimit(limit: nat): nat {
    var plusOne := if limit >= U64_MAX then U64_MAX else limit + 1;
    if plusOne < I64_MAX then plusOne else I64_MAX
  }

  ghost function After<K(!new)>(less: (K, K) -> bool, a: set<K>, cursor: Option<K>): set<K> {
    set k | k in a && (cursor.Some? ==> less(cursor.value, k))
  }

  function Take<K>(s: seq<K>, n: nat): seq<K> {
    if |s| <= n then s else s[..n]
  }

  ghost function PageOf<K(!new)>(less: (K, K) -> bool, a: set<K>, cursor: Option<K>, limit: nat): Page<K>
    requires StrictOrder(less)
  {
    if limit == 0 then Page([], None)
    else
      var rows := Take(InOrder(less, After(less, a, cursor)), FetchLimit(limit));
      var items := Take(rows, limit);
      Page(items, if |rows| > limit then Some(items[|items| - 1]) else None)
  }

  function Least3(a: nat, b: nat, c: nat): nat {
    if a <= b && a <= c then a else if b <= c then b else c
  }

  /** `next` is present iff a row remains, unless the limit is so large that the extra row cannot be
      asked for: then it is absent although rows beyond i64::MAX would remain. */
  lemma NextIffMore<K(!new)>(less: (K, K) -> bool, a: set<K>, cursor: Option<K>, limit: nat)
    requires StrictOrder(less) && 1 <= limit
    ensures var rest := InOrder(less, After(less, a, cursor));
      var page := PageOf(less, a, cursor, limit);
      && page.items <= rest
      && |page.items| == Least3(|rest|, limit, I64_MAX)
      && (page.next.Some? <==> |rest| > limit && limit < I64_MAX)
      && (page.next.Some? ==> |page.items| == limit && page.next.value == page.items[limit - 1])
      && ((page.next.Some? <==> page.items < rest) <==> !(limit >= I64_MAX && |rest| > I64_MAX))
  {
  }

  /** A page that begins `rest`, with a token at its end exactly when it is cut short. */
  predicate CutShort<K(==)>(p: Page<K>, rest: seq<K>, limit: nat) {
    && p.items <= rest && |p.items| == (if |rest| <= limit then |rest| else limit)
    && (p.next.Some? <==> |rest| > limit)
    && (p.next.Some? ==> p.items != [] && p.next.value == p.items[|p.items| - 1])
  }

  lemma PageIsCut<K(!new)>(less: (K, K) -> bool, a: set<K>, cursor: Option<K>, limit: nat) returns (rest: seq<K>)
    requires StrictOrder(less) && 1 <= limit && (limit < I64_MAX || |a| <= I64_MAX)
    ensures CutShort(PageOf(less, a, cursor, limit), rest, limit)
    ensures forall i, j :: 0 <= i < j < |rest| ==> less(rest[i], rest[j]) && rest[i] != rest[j]
    ensures forall k :: k in rest <==> k in After(less, a, cursor)
  {
    rest := InOrder(less, After(less, a, cursor));
    NextIffMore(less, a, cursor, limit);
    SubsetSize(After(less, a, cursor), a);
    ListedOnce(less, rest);
    hide StrictOrder, PageOf, After;
  }

  lemma PageKeysAreSelected<K(!new)>(less: (K, K) -> bool, a: set<K>, cursor: Option<K>, limit: nat)
    requires StrictOrder(less)
    ensures var p := PageOf(less, a, cursor, limit);
      (forall k :: k in p.items ==> k in a) && (p.next.Some? ==> p.next.value in p.items)
  {
    if limit > 0 {
      var rest := InOrder(less, After(less, a, cursor));
      var p := PageOf(less, a, cursor, limit);
      NextIffMore(less, a, cursor, limit);
      hide StrictOrder, PageOf;
      forall k | k in p.items ensures k in a {
        assert k in rest;
      }
    }
  }

  /** The token's key is the last row of its page. */
  lemma PageEnds<K(!new)>(less: (K, K) -> bool, a: set<K>, cursor: Option<K>, limit: nat)
    requires StrictOrder(less)
    ensures var p := PageOf(less, a, cursor, limit);
      p.next.Some? ==> p.items != [] && p.next.value == p.items[|p.items| - 1] && p.next.value in a
  {
    PageKeysAreSelected(less, a, cursor, limit);
    if limit > 0 {
      NextIffMore(less, a, cursor, limit);
    }
    hide StrictOrder, InOrder;
  }

  lemma LeastIsUnique<K(!new)>(less: (K, K) -> bool, a: set<K>, k: K)
    requires StrictOrder(less) && IsLeast(less, a, k)
    ensures Least(less, a) == k
  {
    var l := Least(less, a);
    assert less(l, k) && less(k, l) ==> less(l, l);
  }

  lemma LeastComesFirst<K(!new)>(less: (K, K) -> bool, a: set<K>, k: K)
    requires StrictOrder(less) && IsLeast(less, a, k)
    ensures InOrder(less, a) == [k] + InOrder(less, a - {k})
  {
    LeastIsUnique(less, a, k);
  }

  /** ORDER BY ... LIMIT n, by repeated selection of the least remaining key. */
  method Select<K(==, !new)>(less: (K, K) -> bool, keys: set<K>, n: nat) returns (rows: seq<K>)
    requires StrictOrder(less)
    ensures rows == Take(InOrder(less, keys), n)
  {
    hide StrictOrder, InOrder, Ascending;
    rows := [];
    var rest := keys;
    while rest != {} && |rows| < n
      invariant |rows| <= n
      invariant InOrder(less, keys) == rows + InOrder(less, rest)
      decreases |rest|
    {
      ghost var least := LeastExists(less, rest);
      assert IsLeast(less, rest, least);
      var k :| k in rest && forall j | j in rest :: j == k || less(k, j);
      assert IsLeast(less, rest, k);
      LeastComesFirst(less, rest, k);
      rows := rows + [k];
      rest := rest - {k};
    }
  }

  /** The whole keyset query: rows after the cursor, in order, at most n. */
  method Fetch<K(==, !new)>(less: (K, K) -> bool, keys: set<K>, cursor: Option<K>, n: nat) returns (rows: seq<K>)
    requires StrictOrder(less)
    ensures rows == Take(InOrder(less, After(less, keys, cursor)), n)
  {
    hide StrictOrder;
    var remaining := set k | k in keys && (cursor.Some? ==> less(cursor.value, k));
    rows := Select(less, remaining, n);
    assert remaining == After(less, keys, cursor);
  }

  // ---- walks ----------------------------------------------------------------------------------

  datatype Position<+K> = Start | Resume(after: K) | Finished

  datatype Walk<+K> = Walk(out: seq<K>, position: Position<K>)

  function CursorOf<K>(p: Position<K>): Option<K> {
    if p.Resume? then Some(p.after) else None
  }

  /** The first i pages of a walk; the i-th request sees the rows `tables(i)`. */
  ghost function WalkAt<K(!new)>(less: (K, K) -> bool, tables: nat -> set<K>, limit: nat, i: nat): Walk<K>
    requires StrictOrder(less)
  {
    if i == 0 then Walk([], Start)
    else
      WalkOn(less, tables(i - 1), limit, WalkAt(less, tables, limit, i - 1))
  }

  ghost function WalkOn<K(!new)>(less: (K, K) -> bool, keys: set<K>, limit: nat, w: Walk<K>): Walk<K>
    requires StrictOrder(less)
  {
    if w.position.Finished? then w
    else
      var page := PageOf(less, keys, CursorOf(w.position), limit);
      Walk(w.out + page.items, if page.next.Some? then Resume(page.next.value) else Finished)
  }

  /** The saturated limit is never reached: trivially so for limits below i64::MAX. */
  ghost predicate Fits<K(!new)>(tables: nat -> set<K>, limit: nat) {
    1 <= limit && (limit < I64_MAX || forall i: nat :: |tables(i)| <= I64_MAX)
  }

  ghost predicate SeenEarlier<K(!new)>(tables: nat -> set<K>, i: nat, k: K) {
    exists j: nat :: j < i && k in tables(j)
  }

  ghost predicate PresentThroughout<K(!new)>(tables: nat -> set<K>, i: nat, k: K) {
    forall j: nat :: j < i ==> k in tables(j)
  }

  ghost predicate WalkInvariant<K(!new)>(less: (K, K) -> bool, tables: nat -> set<K>, limit: nat, i: nat, w: Walk<K>) {
    && Ascending(less, w.out)
    && (forall k :: k in w.out ==> SeenEarlier(tables, i, k))
    && (w.position.Start? ==> i == 0 && w.out == [])
    && (w.position.Resume? ==> |w.out| >= i && w.out != [] && w.out[|w.out| - 1] == w.position.after)
    && (forall k :: PresentThroughout(tables, i, k) ==>
          (w.position.Finished? || (w.position.Resume? && !less(w.position.after, k))) ==> k in w.out)
  }

  lemma {:induction false} WalkKeepsInvariant<K(!new)>(less: (K, K) -> bool, tables: nat -> set<K>, limit: nat, i: nat)
    requires StrictOrder(less) && Fits(tables, limit)
    ensures WalkInvariant(less, tables, limit, i, WalkAt(less, tables, limit, i))
  {
    hide WalkInvariant, PageOf, StrictOrder, Fits;
    if i == 0 {
      InvariantAtStart(less, tables, limit);
    } else {
      WalkKeepsInvariant(less, tables, limit, i - 1);
      WalkStep(less, tables, limit, i - 1, WalkAt(less, tables, limit, i - 1));
    }
  }

  lemma InvariantAtStart<K(!new)>(less: (K, K) -> bool, tables: nat -> set<K>, limit: nat)
    ensures WalkInvariant(less, tables, limit, 0, Walk([], Start))
  {
  }

  lemma WalkStep<K(!new)>(less: (K, K) -> bool, tables: nat -> set<K>, limit: nat, i: nat, w: Walk<K>)
    requires StrictOrder(less) && Fits(tables, limit) && WalkInvariant(less, tables, limit, i, w)
    ensures w.position.Finished? ==> WalkInvariant(less, tables, limit, i + 1, w)
    ensures !w.position.Finished? ==>
      var page := PageOf(less, tables(i), CursorOf(w.position), limit);
      WalkInvariant(less, tables, limit, i + 1,
        Walk(w.out + page.items, if page.next.Some? then Resume(page.next.value) else Finished))
  {
    hide StrictOrder, PageOf, Ascending;
    forall k | k in w.out ensures SeenEarlier(tables, i + 1, k) {
      assert SeenEarlier(tables, i, k);
    }
    forall k | PresentThroughout(tables, i + 1, k) ensures PresentThroughout(tables, i, k) && k in tables(i) {
    }
    if !w.position.Finished? {
      var cursor := CursorOf(w.position);
      SubsetSize(After(less, tables(i), cursor), tables(i));
      PageMeans(less, tables(i), cursor, limit);
      var items := PageOf(less, tables(i), cursor, limit).items;
      PageExtends(less, w.out, items, cursor);
      forall k | k in items ensures SeenEarlier(tables, i + 1, k) {
        assert k in tables(i);
      }
      hide SeenEarlier, PresentThroughout;
    }
  }

  /** The contents of a page, said without listing the table. */
  lemma PageMeans<K(!new)>(less: (K, K) -> bool, a: set<K>, cursor: Option<K>, limit: nat)
    requires StrictOrder(less) && 1 <= limit
    requires limit < I64_MAX || |After(less, a, cursor)| <= I64_MAX
    ensures var page := PageOf(less, a, cursor, limit);
      && Ascending(less, page.items)
      && (forall k :: k in page.items ==> k in a && (cursor.Some? ==> less(cursor.value, k)))
      && (page.next.Some? ==> page.items != [] && page.next.value == page.items[|page.items| - 1])
      && (forall k :: k in a && (cursor.Some? ==> less(cursor.value, k)) ==>
            (page.next.Some? ==> !less(page.next.value, k)) ==> k in page.items)
  {
    var rest := InOrder(less, After(less, a, cursor));
    var page := PageOf(less, a, cursor, limit);
    NextIffMore(less, a, cursor, limit);
    hide StrictOrder, PageOf, InOrder, Least3, FetchLimit;
    forall k | k in page.items ensures k in After(less, a, cursor) {
      assert k in rest;
    }
    if page.next.Some? {
      LaterComesAfter(less, rest, |page.items| - 1);
    }
    forall k | k in After(less, a, cursor) && (page.next.Some? ==> !less(page.next.value, k)) ensures k in page.items {
      assert k in rest;
      var p :| 0 <= p < |rest| && rest[p] == k;
      assert p < |page.items|;
    }
  }

  lemma LaterComesAfter<K(!new)>(less: (K, K) -> bool, s: seq<K>, i: nat)
    requires Ascending(less, s) && i < |s|
    ensures forall p :: i < p < |s| ==> less(s[i], s[p])
  {
  }

  lemma PageExtends<K(!new)>(less: (K, K) -> bool, out: seq<K>, items: seq<K>, cursor: Option<K>)
    requires StrictOrder(less) && Ascending(less, out) && Ascending(less, items)
    requires out != [] ==> cursor == Some(out[|out| - 1])
    requires cursor.Some? ==> forall k :: k in items ==> less(cursor.value, k)
    ensures Ascending(less, out + items)
  {
    forall p, q | 0 <= p < q < |out + items| ensures less((out + items)[p], (out + items)[q]) {
      if p < |out| <= q {
        assert items[q - |out|] in items;
        assert less(out[|out| - 1], items[q - |out|]);
        assert p == |out| - 1 || less(out[p], out[|out| - 1]);
      }
    }
  }

  /** However the table changes between pages, keys come out strictly monotone, so none repeats, and a
      completed walk has emitted every key that was present throughout. */
  lemma WalkIsStable<K(!new)>(less: (K, K) -> bool, tables: nat -> set<K>, limit: nat, i: nat)
    requires StrictOrder(less) && Fits(tables, limit)
    ensures var w := WalkAt(less, tables, limit, i);
      && Ascending(less, w.out)
      && (forall p, q :: 0 <= p < q < |w.out| ==> w.out[p] != w.out[q])
      && (forall k :: k in w.out ==> exists j: nat :: j < i && k in tables(j))
      && (w.position.Finished? ==> forall k :: (forall j: nat :: j < i ==> k in tables(j)) ==> k in w.out)
  {
    WalkKeepsInvariant(less, tables, limit, i);
    var w := WalkAt(less, tables, limit, i);
    forall p, q | 0 <= p < q < |w.out| ensures w.out[p] != w.out[q] {
      assert less(w.out[p], w.out[q]);
    }
    forall k | k in w.out ensures exists j: nat :: j < i && k in tables(j) {
      assert SeenEarlier(tables, i, k);
    }
    if w.position.Finished? {
      forall k | forall j: nat :: j < i ==> k in tables(j) ensures k in w.out {
        assert PresentThroughout(tables, i, k);
      }
    }
  }

  ghost predicate OnlyDeletions<K(!new)>(tables: nat -> set<K>) {
    forall i: nat :: tables(i + 1) <= tables(i)
  }

  lemma {:induction false} DeletionsShrink<K(!new)>(tables: nat -> set<K>, i: nat)
    requires OnlyDeletions(tables)
    ensures tables(i) <= tables(0)
  {
    if i == 0 {
    } else {
      DeletionsShrink(tables, i - 1);
      assert tables((i - 1) + 1) <= tables(i - 1);
    }
  }

  lemma {:induction false} AscendingSize<K(!new)>(less: (K, K) -> bool, s: seq<K>, a: set<K>)
    requires StrictOrder(less) && Ascending(less, s) && forall k :: k in s ==> k in a
    ensures |s| <= |a|
    decreases |s|
  {
    if s == [] {
    } else {
      forall k | k in s[1..] ensures k in a - {s[0]} {
        assert less(s[0], k);
      }
      assert s[0] in s;
      AscendingSize(less, s[1..], a - {s[0]});
    }
  }

  /** While rows are only deleted, a walk finishes after at most one page more than it started with rows. */
  lemma WalkTerminates<K(!new)>(less: (K, K) -> bool, tables: nat -> set<K>, limit: nat)
    requires StrictOrder(less) && Fits(tables, limit) && OnlyDeletions(tables)
    ensures WalkAt(less, tables, limit, |tables(0)| + 1).position.Finished?
  {
    var i := |tables(0)| + 1;
    WalkKeepsInvariant(less, tables, limit, i);
    var w := WalkAt(less, tables, limit, i);
    if !w.position.Finished? {
      forall k | k in w.out ensures k in tables(0) {
        assert SeenEarlier(tables, i, k);
        var j: nat :| j < i && k in tables(j);
        DeletionsShrink(tables, j);
      }
      AscendingSize(less, w.out, tables(0));
      assert false;
    }
  }

  /** A walk over an unchanging table lists exactly its keys, in order, each once. */
  lemma WalkIsComplete<K(!new)>(less: (K, K) -> bool, a: set<K>, limit: nat)
    requires StrictOrder(less) && 1 <= limit && (limit < I64_MAX || |a| <= I64_MAX)
    ensures WalkAt(less, (_: nat) => a, limit, |a| + 1) == Walk(InOrder(less, a), Finished)
  {
    hide StrictOrder, WalkAt;
    var tables := (_: nat) => a;
    WalkTerminates(less, tables, limit);
    WalkIsStable(less, tables, limit, |a| + 1);
    var w := WalkAt(less, tables, limit, |a| + 1);
    forall k ensures k in w.out <==> k in InOrder(less, a) {
    }
    ListingIsUnique(less, w.out, InOrder(less, a));
  }

  // ---- where the page ends are -----------------------------------------------------------------

  lemma NotBefore<K(!new)>(less: (K, K) -> bool, s: seq<K>, i: nat, j: nat)
    requires StrictOrder(less) && Ascending(less, s) && i < |s| && j < |s|
    ensures less(s[j], s[i]) ==> j < i
  {
    var x, y := s[i], s[j];
    assert i < j ==> less(x, y);
    assert less(x, y) && less(y, x) ==> less(x, x);
  }

  lemma RestInOrder<K(!new)>(less: (K, K) -> bool, a: set<K>, at: nat)
    requires StrictOrder(less) && 1 <= at <= |a|
    ensures var s := InOrder(less, a); InOrder(less, After(less, a, Some(s[at - 1]))) == s[at..]
  {
    hide StrictOrder, InOrder;
    var s := InOrder(less, a);
    var rest := InOrder(less, After(less, a, Some(s[at - 1])));
    forall k ensures k in rest <==> k in s[at..] {
      if k in rest {
        var i :| 0 <= i < |s| && s[i] == k;
        NotBefore(less, s, i, at - 1);
        assert s[at..][i - at] == k;
      }
      if k in s[at..] {
        var i :| 0 <= i < |s[at..]| && s[at..][i] == k;
        assert less(s[at - 1], s[at + i]) && s[at + i] in s;
      }
    }
    ListingIsUnique(less, rest, s[at..]);
  }

  /** The p-th page of an unchanging table ends at row p * limit. */
  lemma {:induction false} PagesAreSlices<K(!new)>(less: (K, K) -> bool, a: set<K>, limit: nat, p: nat)
    requires StrictOrder(less) && 1 <= limit && (limit < I64_MAX || |a| <= I64_MAX) && 1 <= p
    ensures var s, end := InOrder(less, a), p * limit;
      WalkAt(less, (_: nat) => a, limit, p)
      == if 0 < end < |s| then Walk(s[..end], Resume(s[end - 1])) else Walk(s, Finished)
  {
    hide StrictOrder, InOrder, PageOf, WalkAt, Ascending;
    var s, tables := InOrder(less, a), (_: nat) => a;
    WalkNext(less, tables, limit, p - 1);
    if p == 1 {
      assert After(less, a, None) == a;
      NextIffMore(less, a, None, limit);
      assert 1 * limit == limit;
    } else {
      PagesAreSlices(less, a, limit, p - 1);
      var from := (p - 1) * limit;
      PageGrows(p, limit);
      if from < |s| {
        RestInOrder(less, a, from);
        NextIffMore(less, a, Some(s[from - 1]), limit);
        SliceOnward(s, from, limit, PageOf(less, a, Some(s[from - 1]), limit).items);
      }
    }
  }

  lemma WalkNext<K(!new)>(less: (K, K) -> bool, tables: nat -> set<K>, limit: nat, i: nat)
    requires StrictOrder(less)
    ensures WalkAt(less, tables, limit, i + 1) == WalkOn(less, tables(i), limit, WalkAt(less, tables, limit, i))
    ensures WalkAt(less, tables, limit, 0) == Walk([], Start)
  {
    hide StrictOrder;
  }

  lemma PageGrows(p: nat, limit: nat)
    requires 2 <= p && 1 <= limit
    ensures p * limit == (p - 1) * limit + limit && 0 < (p - 1) * limit
  {
  }

  lemma SliceOnward<K>(s: seq<K>, from: nat, limit: nat, items: seq<K>)
    requires from < |s| && items <= s[from..] && |items| == if |s| - from <= limit then |s| - from else limit
    ensures s[..from] + items == if from + limit < |s| then s[..from + limit] else s
    ensures 0 < limit && from + limit < |s| ==> items[limit - 1] == s[from + limit - 1]
  {
  }

  // ---- clients that only hold opaque tokens ----------------------------------------------------

  /** One request: a page of keys and the next token, or a refusal. */
  type Server<!K> = Option<string> -> Option<(seq<K>, Option<string>)>

  datatype ClientState = Begin | Holding(token: string) | Complete | Refused

  datatype Client<+K> = Client(received: seq<K>, state: ClientState)

  /** A client that follows `next`; its i-th request is answered by `servers(i)`. */
  ghost function ClientAt<K(!new)>(servers: nat -> Server<K>, i: nat): Client<K> {
    if i == 0 then Client([], Begin) else Followed(servers(i - 1), ClientAt(servers, i - 1))
  }

  function Followed<K>(serve: Server<K>, c: Client<K>): Client<K> {
    if c.state.Complete? || c.state.Refused? then c
    else
      match serve(if c.state.Holding? then Some(c.state.token) else None)
      case None => Client(c.received, Refused)
      case Some((items, next)) =>
        Client(c.received + items, if next.Some? then Holding(next.value) else Complete)
  }

  /** The page, with a token that resumes at its last key when a token can name that key at all. */
  ghost predicate AnswersPage<K(!new)>(answer: Option<(seq<K>, Option<string>)>, page: Page<K>,
      resume: string -> Option<K>, names: K -> bool) {
    && answer.Some? && answer.value.0 == page.items && (answer.value.1.Some? <==> page.next.Some?)
    && (page.next.Some? ==>
          resume(answer.value.1.value) == if names(page.next.value) then page.next else None)
  }

  /** The server pages over `keys`, its tokens resume where they were issued if they can name the place,
      and it refuses every other token. */
  ghost predicate Honest<K(!new)>(less: (K, K) -> bool, keys: set<K>, limit: nat, serve: Server<K>,
      resume: string -> Option<K>, names: K -> bool)
    requires StrictOrder(less)
  {
    && AnswersPage(serve(None), PageOf(less, keys, None, limit), resume, names)
    && (forall t :: resume(t).Some? ==>
          AnswersPage(serve(Some(t)), PageOf(less, keys, resume(t), limit), resume, names))
    && (forall t :: resume(t).None? ==> serve(Some(t)).None?)
  }

  ghost predicate InStep<K(!new)>(c: Client<K>, w: Walk<K>, resume: string -> Option<K>, names: K -> bool) {
    && c.received == w.out
    && (match c.state
        case Begin => w.position.Start?
        case Holding(t) =>
          w.position.Resume? && resume(t) == if names(w.position.after) then Some(w.position.after) else None
        case Complete => w.position.Finished?
        case Refused => false)
  }

  /** Whether the place the walk has reached after j pages can be named. */
  ghost predicate NamedAt<K(!new)>(less: (K, K) -> bool, tables: nat -> set<K>, limit: nat, names: K -> bool, j: nat)
    requires StrictOrder(less)
  {
    var w := WalkAt(less, tables, limit, j);
    w.position.Resume? ==> names(w.position.after)
  }

  ghost predicate NamedTo<K(!new)>(less: (K, K) -> bool, tables: nat -> set<K>, limit: nat, names: K -> bool, i: nat)
    requires StrictOrder(less)
  {
    forall j: nat :: j < i ==> NamedAt(less, tables, limit, names, j)
  }

  /** The client keeps step with the walk until a place that no token can name, and is refused there. */
  lemma {:induction false} ClientIsInStep<K(!new)>(less: (K, K) -> bool, tables: nat -> set<K>, limit: nat,
      servers: nat -> Server<K>, resume: string -> Option<K>, names: K -> bool, i: nat)
    returns (reached: nat)
    requires StrictOrder(less) && forall j: nat :: Honest(less, tables(j), limit, servers(j), resume, names)
    ensures NamedTo(less, tables, limit, names, i)
            ==> InStep(ClientAt(servers, i), WalkAt(less, tables, limit, i), resume, names)
    ensures !NamedTo(less, tables, limit, names, i) ==>
      && reached < i && ClientAt(servers, i) == Client(WalkAt(less, tables, limit, reached).out, Refused)
      && WalkAt(less, tables, limit, reached).position.Resume?
  {
    hide StrictOrder, WalkAt, InStep, Honest, ClientAt, NamedTo, NamedAt, Followed, WalkOn;
    reached := 0;
    if i == 0 {
      ClientStarts(less, tables, limit, servers, resume, names);
    } else {
      reached := ClientIsInStep(less, tables, limit, servers, resume, names, i - 1);
      StepOnward(less, tables, limit, servers, names, i - 1);
      if NamedTo(less, tables, limit, names, i - 1) {
        ClientSteps(less, tables(i - 1), limit, servers(i - 1), resume, names,
                    ClientAt(servers, i - 1), WalkAt(less, tables, limit, i - 1));
        if !NamedTo(less, tables, limit, names, i) {
          reached := i - 1;
        }
      } else {
        RefusedForGood(servers(i - 1), ClientAt(servers, i - 1));
      }
    }
  }

  lemma ClientStarts<K(!new)>(less: (K, K) -> bool, tables: nat -> set<K>, limit: nat, servers: nat -> Server<K>,
      resume: string -> Option<K>, names: K -> bool)
    requires StrictOrder(less)
    ensures InStep(ClientAt(servers, 0), WalkAt(less, tables, limit, 0), resume, names)
    ensures NamedTo(less, tables, limit, names, 0)
  {
    hide StrictOrder;
  }

  lemma RefusedForGood<K(!new)>(serve: Server<K>, c: Client<K>)
    requires c.state.Refused?
    ensures Followed(serve, c) == c
  {
  }

  lemma StepOnward<K(!new)>(less: (K, K) -> bool, tables: nat -> set<K>, limit: nat, servers: nat -> Server<K>,
      names: K -> bool, i: nat)
    requires StrictOrder(less)
    ensures var w := WalkAt(less, tables, limit, i);
      && WalkAt(less, tables, limit, i + 1) == WalkOn(less, tables(i), limit, w)
      && (NamedTo(less, tables, limit, names, i + 1) <==>
            NamedTo(less, tables, limit, names, i) && (w.position.Resume? ==> names(w.position.after)))
    ensures ClientAt(servers, i + 1) == Followed(servers(i), ClientAt(servers, i))
  {
    hide StrictOrder;
    WalkNext(less, tables, limit, i);
    hide WalkAt;
    if NamedTo(less, tables, limit, names, i + 1) {
      assert NamedAt(less, tables, limit, names, i);
    }
  }

  lemma ClientSteps<K(!new)>(less: (K, K) -> bool, keys: set<K>, limit: nat, serve: Server<K>,
      resume: string -> Option<K>, names: K -> bool, c: Client<K>, w: Walk<K>)
    requires StrictOrder(less) && Honest(less, keys, limit, serve, resume, names) && InStep(c, w, resume, names)
    ensures if w.position.Resume? && !names(w.position.after) then Followed(serve, c) == Client(w.out, Refused)
            else InStep(Followed(serve, c), WalkOn(less, keys, limit, w), resume, names)
  {
    hide StrictOrder, PageOf;
  }

  /** However the table changes between requests, the client receives strictly monotone keys, on
      completion has received every key present throughout, and is refused iff the walk meets a place
      that no token can name. */
  lemma HonestClientIsStable<K(!new)>(less: (K, K) -> bool, tables: nat -> set<K>, limit: nat,
      servers: nat -> Server<K>, resume: string -> Option<K>, names: K -> bool, i: nat)
    requires StrictOrder(less) && Fits(tables, limit)
    requires forall j: nat :: Honest(less, tables(j), limit, servers(j), resume, names)
    ensures var c := ClientAt(servers, i);
      && (c.state.Refused? <==> !NamedTo(less, tables, limit, names, i))
      && Ascending(less, c.received)
      && (forall p, q :: 0 <= p < q < |c.received| ==> c.received[p] != c.received[q])
      && (c.state.Complete? ==> forall k :: (forall j: nat :: j < i ==> k in tables(j)) ==> k in c.received)
  {
    hide StrictOrder, WalkAt, Fits, Honest, ClientAt, NamedTo;
    var reached := ClientIsInStep(less, tables, limit, servers, resume, names, i);
    WalkIsStable(less, tables, limit, i);
    WalkIsStable(less, tables, limit, reached);
  }

  /** Tokens that can name every key of every table never lead to a refusal. */
  lemma NameableTablesAreNamed<K(!new)>(less: (K, K) -> bool, tables: nat -> set<K>, limit: nat, names: K -> bool,
      i: nat)
    requires StrictOrder(less) && Fits(tables, limit)
    requires forall j: nat, k :: k in tables(j) ==> names(k)
    ensures NamedTo(less, tables, limit, names, i)
  {
    hide StrictOrder, WalkAt, Fits;
    forall j: nat | j < i ensures NamedAt(less, tables, limit, names, j) {
      WalkKeepsInvariant(less, tables, limit, j);
      var w := WalkAt(less, tables, limit, j);
      if w.position.Resume? {
        assert w.position.after in w.out;
        assert SeenEarlier(tables, j, w.position.after);
      }
    }
  }

  /** With deletions only the client stops after one request more than there were rows. */
  lemma HonestClientEnds<K(!new)>(less: (K, K) -> bool, tables: nat -> set<K>, limit: nat,
      servers: nat -> Server<K>, resume: string -> Option<K>, names: K -> bool)
    requires StrictOrder(less) && Fits(tables, limit) && OnlyDeletions(tables)
    requires forall j: nat :: Honest(less, tables(j), limit, servers(j), resume, names)
    ensures var n := |tables(0)| + 1;
      ClientAt(servers, n).state == if NamedTo(less, tables, limit, names, n) then Complete else Refused
  {
    hide StrictOrder, WalkAt, Fits, Honest, ClientAt, NamedTo;
    var _ := ClientIsInStep(less, tables, limit, servers, resume, names, |tables(0)| + 1);
    WalkTerminates(less, tables, limit);
  }

  /** The last row of every page but the last can be named. */
  ghost predicate PageEndsNamed<K(!new)>(s: seq<K>, limit: nat, names: K -> bool)
    requires 1 <= limit
  {
    forall k :: 0 <= k < |s| - 1 && (k + 1) % limit == 0 ==> names(s[k])
  }

  lemma PageEndsAreWhereWalksRest<K(!new)>(less: (K, K) -> bool, a: set<K>, limit: nat, names: K -> bool)
    requires StrictOrder(less) && 1 <= limit && (limit < I64_MAX || |a| <= I64_MAX)
    ensures NamedTo(less, (_: nat) => a, limit, names, |a| + 1) <==> PageEndsNamed(InOrder(less, a), limit, names)
  {
    hide StrictOrder, InOrder, WalkAt;
    var s, tables := InOrder(less, a), (_: nat) => a;
    if NamedTo(less, tables, limit, names, |a| + 1) {
      forall k | 0 <= k < |s| - 1 && (k + 1) % limit == 0 ensures names(s[k]) {
        var p := (k + 1) / limit;
        WholePages(k + 1, limit);
        PagesAreSlices(less, a, limit, p);
        assert NamedAt(less, tables, limit, names, p);
      }
    }
    if PageEndsNamed(s, limit, names) {
      forall j: nat | j < |a| + 1 ensures NamedAt(less, tables, limit, names, j) {
        if j == 0 {
          NothingWalked(less, tables, limit);
        } else {
          PagesAreSlices(less, a, limit, j);
          PageEndsDivide(j, limit);
        }
      }
    }
  }

  lemma NothingWalked<K(!new)>(less: (K, K) -> bool, tables: nat -> set<K>, limit: nat)
    requires StrictOrder(less)
    ensures WalkAt(less, tables, limit, 0) == Walk([], Start)
  {
  }

  lemma WholePages(n: nat, limit: nat)
    requires 1 <= limit && 1 <= n && n % limit == 0
    ensures n / limit * limit == n && 1 <= n / limit <= n
  {
    var p := n / limit;
    assert n == p * limit + n % limit;
    TimesGrows(p, limit);
  }

  lemma TimesGrows(p: nat, limit: nat)
    requires 1 <= limit
    ensures p * limit >= p && (p == 0 ==> p * limit == 0)
  {
    assert p * limit == p + p * (limit - 1);
  }

  lemma PageEndsDivide(p: nat, limit: nat)
    requires 1 <= limit
    ensures (p * limit) % limit == 0
  {
    var q, r := (p * limit) / limit, (p * limit) % limit;
    assert (p - q) * limit == r;
    assert p - q >= 1 ==> (p - q) * limit >= limit;
    assert p - q <= -1 ==> (p - q) * limit + limit <= 0;
  }

  /** Over an unchanging table the client receives exactly the keys in order iff every page end but the
      last can be named; otherwise it is refused with a proper part of them. */
  lemma HonestClientCompletes<K(!new)>(less: (K, K) -> bool, keys: set<K>, limit: nat, serve: Server<K>,
      resume: string -> Option<K>, names: K -> bool)
    requires StrictOrder(less) && 1 <= limit && (limit < I64_MAX || |keys| <= I64_MAX)
    ensures Honest(less, keys, limit, serve, resume, names) ==>
      var c, s := ClientAt((_: nat) => serve, |keys| + 1), InOrder(less, keys);
      if PageEndsNamed(s, limit, names) then c == Client(s, Complete) else c.state.Refused? && c.received < s
  {
    hide StrictOrder, WalkAt, Honest, ClientAt, InOrder, Ascending, NamedTo, PageEndsNamed;
    var tables := (_: nat) => keys;
    PageEndsAreWhereWalksRest(less, keys, limit, names);
    WalkIsComplete(less, keys, limit);
    if Honest(less, keys, limit, serve, resume, names) {
      var reached := ClientIsInStep(less, tables, limit, (_: nat) => serve, resume, names, |keys| + 1);
      if reached == 0 {
        NothingWalked(less, tables, limit);
      } else {
        PagesAreSlices(less, keys, limit, reached);
      }
    }
  }
}
