/** The api_keys listing: three mounts over one table, and tokens bound to the mount they came from. */
module ApiKeys {
  import opened Prelude
  import Scopes
  import Keyset
  import Messages

  datatype KeyScope = WholeOrganization | PodKeys(pod: int) | InboxKeys(inbox: string)

  /** `pod` and `inbox` are never both set; the displayed pod of an inbox key is backfilled. `createdAt` is
      the database clock, in milliseconds. */
  datatype ApiKey = ApiKey(id: int, org: string, pod: Option<int>, inbox: Option<string>, createdAt: int)

  type Table = map<int, ApiKey>

  ghost predicate ValidTable(keys: Table) {
    forall id :: id in keys ==>
      && keys[id].id == id && Messages.Datable(keys[id].createdAt)
      && !(keys[id].pod.Some? && keys[id].inbox.Some?)
      && (keys[id].inbox.Some? ==>
            Lower(keys[id].inbox.value) == keys[id].inbox.value && !HasNul(keys[id].inbox.value))
  }

  /** Inbox first: an inbox key's own pod column is NULL, whatever pod the window pins. */
  function KeyScopeFor(filter: Scopes.ScopeFilter): KeyScope {
    if filter.inbox.Some? then InboxKeys(filter.inbox.value)
    else if filter.pod.Some? then PodKeys(filter.pod.value)
    else WholeOrganization
  }

  /** (created_at in nanoseconds, api_key_id). */
  datatype SortKey = SortKey(nanos: int, id: int)

  function Less(dir: Messages.Direction): (SortKey, SortKey) -> bool {
    if dir.Ascending? then (a: SortKey, b: SortKey) => Before(a, b) else (a: SortKey, b: SortKey) => Before(b, a)
  }

  predicate Before(a: SortKey, b: SortKey) {
    a.nanos < b.nanos || (a.nanos == b.nanos && a.id < b.id)
  }

  lemma LessIsTotal(dir: Messages.Direction)
    ensures Keyset.StrictOrder(Less(dir))
  {
  }

  function KeyOf(k: ApiKey): SortKey {
    SortKey(k.createdAt * Messages.NANOS_PER_MILLI, k.id)
  }

  /** The WHERE clause: one of the two scope columns is pinned, or neither. */
  predicate Selected(k: ApiKey, org: string, scope: KeyScope) {
    && k.org == org
    && (scope.PodKeys? ==> k.pod == Some(scope.pod))
    && (scope.InboxKeys? ==> k.inbox == Some(Lower(scope.inbox)))
  }

  function SelectedKeys(keys: Table, org: string, scope: KeyScope): set<SortKey> {
    set id | id in keys && Selected(keys[id], org, scope) :: KeyOf(keys[id])
  }

  // ---- tokens ----------------------------------------------------------------------------------

  datatype ApiKeyCursor = ApiKeyCursor(nanos: int, id: string, pod: Option<int>, inbox: Option<string>)

  /** Only the canonical rendering of a UUID names a key. */
  function ExactUuid(u: Scopes.UuidText, id: string): Option<int> {
    var parsed := u.parse(id);
    if parsed.Some? && u.render(parsed.value) == id then parsed else None
  }

  /** Absent coordinates are omitted, not emitted empty. */
  function Fields(c: Messages.Codec, u: Scopes.UuidText, k: ApiKeyCursor): map<string, string> {
    map["created_at" := Messages.EncodeTimestamp(c, k.nanos), "api_key_id" := k.id]
    + (if k.pod.Some? then map["pod_id" := u.render(k.pod.value)] else map[])
    + (if k.inbox.Some? then map["inbox_id" := k.inbox.value] else map[])
  }

  lemma FieldsAre(c: Messages.Codec, u: Scopes.UuidText, k: ApiKeyCursor)
    ensures var f := Fields(c, u, k);
      && "created_at" in f && f["created_at"] == Messages.EncodeTimestamp(c, k.nanos)
      && "api_key_id" in f && f["api_key_id"] == k.id
      && ("pod_id" in f <==> k.pod.Some?) && (k.pod.Some? ==> f["pod_id"] == u.render(k.pod.value))
      && ("inbox_id" in f <==> k.inbox.Some?) && (k.inbox.Some? ==> f["inbox_id"] == k.inbox.value)
  {
  }

  function EncodeCursor(c: Messages.Codec, u: Scopes.UuidText, k: ApiKeyCursor): string {
    c.encode(Fields(c, u, k))
  }

  /** The token's own mount must be the request's mount. */
  predicate MountMatches(pod: Option<int>, inbox: Option<string>, scope: KeyScope) {
    match scope
    case WholeOrganization => pod.None? && inbox.None?
    case PodKeys(p) => pod == Some(p) && inbox.None?
    case InboxKeys(i) => pod.None? && inbox.Some? && EqFold(inbox.value, i)
  }

  function DecodeCursor(c: Messages.Codec, u: Scopes.UuidText, token: string,
      scope: KeyScope): Result<ApiKeyCursor, Messages.TokenError> {
    var decoded := c.decode(token);
    if decoded.None? then Err(Messages.Undecodable) else ReadFields(c, u, decoded.value, scope)
  }

  function ReadFields(c: Messages.Codec, u: Scopes.UuidText, f: map<string, string>,
      scope: KeyScope): Result<ApiKeyCursor, Messages.TokenError> {
    if "created_at" !in f then Err(Messages.MissingField("created_at"))
    else if "api_key_id" !in f then Err(Messages.MissingField("api_key_id"))
    else
      var nanos := c.parse(f["created_at"]);
      if nanos.None? then Err(Messages.WrongType("created_at"))
      else if ExactUuid(u, f["api_key_id"]).None? then Err(Messages.WrongType("api_key_id"))
      else if "pod_id" in f && u.parse(f["pod_id"]).None? then Err(Messages.WrongType("pod_id"))
      else if "inbox_id" in f && HasNul(f["inbox_id"]) then Err(Messages.ForbiddenByte("inbox_id"))
      else
        var pod := if "pod_id" in f then u.parse(f["pod_id"]) else None;
        var inbox := if "inbox_id" in f then Some(Lower(f["inbox_id"])) else None;
        if MountMatches(pod, inbox, scope) then Ok(ApiKeyCursor(nanos.value, f["api_key_id"], pod, inbox))
        else Err(Messages.WrongScope)
  }

  /** A text that is a UUID in its one canonical rendering. */
  ghost predicate IsCanonical(u: Scopes.UuidText, text: string) {
    exists p :: u.parse(text) == Some(p) && u.render(p) == text
  }

  /** The coordinates a token must carry at a mount: both absent, the mount's pod in any spelling, or the
      mount's inbox in any case. */
  ghost predicate NamesMount(u: Scopes.UuidText, f: map<string, string>, scope: KeyScope) {
    match scope
    case WholeOrganization => "pod_id" !in f && "inbox_id" !in f
    case PodKeys(p) => "pod_id" in f && u.parse(f["pod_id"]) == Some(p) && "inbox_id" !in f
    case InboxKeys(i) => "pod_id" !in f && "inbox_id" in f && EqFold(f["inbox_id"], i) && !HasNul(f["inbox_id"])
  }

  lemma ExactIsCanonical(u: Scopes.UuidText, text: string)
    ensures IsCanonical(u, text) <==> ExactUuid(u, text).Some?
  {
    if ExactUuid(u, text).Some? {
      var p := u.parse(text).value;
      assert u.parse(text) == Some(p) && u.render(p) == text;
    }
  }

  /** Which texts are tokens at a mount: those with a time, a canonical key id and the mount's coordinates. */
  lemma TokenIsAcceptedIff(c: Messages.Codec, u: Scopes.UuidText, token: string, scope: KeyScope)
    ensures var r, f := DecodeCursor(c, u, token, scope), c.decode(token);
      && (r.Ok? <==>
            && f.Some? && {"created_at", "api_key_id"} <= f.value.Keys && c.parse(f.value["created_at"]).Some?
            && IsCanonical(u, f.value["api_key_id"]) && NamesMount(u, f.value, scope))
      && (r.Ok? ==> Some(r.value.nanos) == c.parse(f.value["created_at"]) && r.value.id == f.value["api_key_id"])
      && (r.Err? ==>
            match r.error
            case Undecodable => f.None?
            case MissingField(name) => f.Some? && name !in f.value && name in {"created_at", "api_key_id"}
            case WrongType(name) =>
              && f.Some? && name in f.value
              && (name == "created_at" ==> c.parse(f.value[name]).None?)
              && (name == "api_key_id" ==> !IsCanonical(u, f.value[name]))
              && (name == "pod_id" ==> u.parse(f.value[name]).None?)
            case ForbiddenByte(name) => f.Some? && name == "inbox_id" && name in f.value && HasNul(f.value[name])
            case WrongScope => f.Some? && !NamesMount(u, f.value, scope))
  {
    var f := c.decode(token);
    if f.Some? && "api_key_id" in f.value {
      ExactIsCanonical(u, f.value["api_key_id"]);
    }
    hide ExactUuid, IsCanonical;
    if f.Some? && "inbox_id" in f.value {
      LowerIdempotent(f.value["inbox_id"]);
    }
  }

  /** The token for key `k` on a page walked at `scope`: the mount's coordinates, not the row's. */
  function TokenOf(c: Messages.Codec, u: Scopes.UuidText, k: SortKey, scope: KeyScope): string {
    EncodeCursor(c, u, MountCursor(u, k, scope))
  }

  function MountCursor(u: Scopes.UuidText, k: SortKey, scope: KeyScope): ApiKeyCursor {
    ApiKeyCursor(k.nanos, u.render(k.id),
      if scope.PodKeys? then Some(scope.pod) else None,
      if scope.InboxKeys? then Some(scope.inbox) else None)
  }

  predicate SameMount(a: KeyScope, b: KeyScope) {
    match (a, b)
    case (WholeOrganization, WholeOrganization) => true
    case (PodKeys(p), PodKeys(q)) => p == q
    case (InboxKeys(i), InboxKeys(j)) => EqFold(i, j)
    case _ => false
  }

  predicate CanExist(scope: KeyScope) {
    scope.InboxKeys? ==> !HasNul(scope.inbox)
  }

  /** A token issued at one mount is accepted at that mount alone, up to inbox case, and then names the
      key it was issued for, whatever narrower scope that key has itself. */
  lemma TokensAreMountBound(c: Messages.Codec, u: Scopes.UuidText, k: SortKey, issued: KeyScope, presented: KeyScope)
    requires Messages.Faithful(c) && Scopes.Faithful(u) && CanExist(issued)
    ensures var r := DecodeCursor(c, u, TokenOf(c, u, k, issued), presented);
      var ms := k.nanos / Messages.NANOS_PER_MILLI;
      if !Messages.Datable(ms) then r == Err(Messages.WrongType("created_at"))
      else if SameMount(issued, presented)
      then r.Ok? && r.value.nanos == ms * Messages.NANOS_PER_MILLI && ExactUuid(u, r.value.id) == Some(k.id)
      else r == Err(Messages.WrongScope)
  {
    var cursor := MountCursor(u, k, issued);
    var ms := k.nanos / Messages.NANOS_PER_MILLI;
    assert c.parse(c.render(ms)) == if Messages.Datable(ms) then Some(ms * Messages.NANOS_PER_MILLI) else None;
    assert u.parse(u.render(k.id)) == Some(k.id);
    if cursor.pod.Some? {
      var p := cursor.pod.value;
      assert u.parse(u.render(p)) == Some(p);
    }
    if cursor.inbox.Some? {
      LowerIdempotent(cursor.inbox.value);
    }
    var f := Fields(c, u, cursor);
    FieldsAre(c, u, cursor);
    hide Fields;
    assert c.decode(c.encode(f)) == Some(f);
  }

  // ---- listing ---------------------------------------------------------------------------------

  datatype KeyPage = KeyPage(items: seq<ApiKey>, next: Option<string>)

  datatype Query = Query(limit: nat, direction: Messages.Direction, cursor: Option<ApiKeyCursor>)

  function RowsOf(keys: Table, page: seq<SortKey>): seq<ApiKey>
    requires forall k :: k in page ==> k.id in keys
  {
    if page == [] then [] else [keys[page[0].id]] + RowsOf(keys, page[1..])
  }

  /** An inbox key is shown with the pod its inbox lives in. */
  function Shown(dir: Scopes.Directory, org: string, k: ApiKey): ApiKey {
    if k.inbox.None? then k
    else
      var row := Scopes.InboxesGet(dir, org, None, k.inbox.value);
      k.(pod := if row.Some? then row.value.pod else None)
  }

  function ShownAll(dir: Scopes.Directory, org: string, items: seq<ApiKey>): (r: seq<ApiKey>)
    ensures |r| == |items|
    ensures forall i :: 0 <= i < |items| ==> r[i] == Shown(dir, org, items[i])
  {
    if items == [] then [] else [Shown(dir, org, items[0])] + ShownAll(dir, org, items[1..])
  }

  lemma SelectedKeysAreRows(keys: Table, org: string, scope: KeyScope, k: SortKey)
    requires ValidTable(keys) && k in SelectedKeys(keys, org, scope)
    ensures k.id in keys && KeyOf(keys[k.id]) == k && Selected(keys[k.id], org, scope)
    ensures k.nanos % Messages.NANOS_PER_MILLI == 0 && Messages.Datable(k.nanos / Messages.NANOS_PER_MILLI)
  {
  }

  /** The keyset position a cursor binds; a malformed id binds NULL. */
  function Position(u: Scopes.UuidText, cursor: ApiKeyCursor): Option<SortKey> {
    var id := ExactUuid(u, cursor.id);
    if id.Some? then Some(SortKey(cursor.nanos, id.value)) else None
  }

  /** Comparing a row with (time, NULL) is decided by the time alone, and unknown at that very time. */
  predicate BeyondTime(dir: Messages.Direction, k: SortKey, nanos: int) {
    if dir.Ascending? then nanos < k.nanos else k.nanos < nanos
  }

  /** The rows a query pages over. */
  function Candidates(u: Scopes.UuidText, keys: Table, org: string, scope: KeyScope, q: Query): set<SortKey> {
    if q.cursor.Some? && Position(u, q.cursor.value).None?
    then set k | k in SelectedKeys(keys, org, scope) && BeyondTime(q.direction, k, q.cursor.value.nanos)
    else SelectedKeys(keys, org, scope)
  }

  ghost function PageKeys(u: Scopes.UuidText, keys: Table, org: string, scope: KeyScope,
      q: Query): (p: Keyset.Page<SortKey>)
    requires ValidTable(keys)
    ensures forall k :: k in p.items ==> k in SelectedKeys(keys, org, scope)
    ensures p.next.Some? ==> p.next.value in p.items
  {
    LessIsTotal(q.direction);
    var after := if q.cursor.None? then None else Position(u, q.cursor.value);
    var a := Candidates(u, keys, org, scope, q);
    Keyset.PageKeysAreSelected(Less(q.direction), a, after, q.limit);
    Keyset.PageOf(Less(q.direction), a, after, q.limit)
  }

  ghost function ListOf(c: Messages.Codec, u: Scopes.UuidText, dir: Scopes.Directory, keys: Table, org: string,
      scope: KeyScope, q: Query): Result<KeyPage, Messages.TokenError>
    requires ValidTable(keys)
  {
    if q.limit == 0 || !CanExist(scope) then Ok(KeyPage([], None))
    else if q.cursor.Some? && q.cursor.value.inbox.Some? && HasNul(q.cursor.value.inbox.value) then
      Err(Messages.ForbiddenByte("cursor.inbox_id"))
    else
      var p := PageKeys(u, keys, org, scope, q);
      Ok(KeyPage(ShownAll(dir, org, RowsOf(keys, p.items)),
                 if p.next.Some? then Some(TokenOf(c, u, p.next.value, scope)) else None))
  }

  class KeyStore {
    var keys: Table

    ghost predicate Valid()
      reads this
    {
      ValidTable(keys)
    }

    constructor ()
      ensures Valid() && keys == map[]
    {
      keys := map[];
    }

    /** The token is built before the displayed pods are filled in, and from the mount. */
    method List(c: Messages.Codec, u: Scopes.UuidText, dir: Scopes.Directory, org: string, scope: KeyScope, q: Query)
      returns (r: Result<KeyPage, Messages.TokenError>)
      requires Valid()
      ensures r == ListOf(c, u, dir, keys, org, scope, q)
    {
      hide Keyset.StrictOrder, Keyset.InOrder, Keyset.Ascending, Less, SelectedKeys, TokenOf, RowsOf, ValidTable, Shown;
      if q.limit == 0 { return Ok(KeyPage([], None)); }
      if scope.InboxKeys? && HasNul(scope.inbox) { return Ok(KeyPage([], None)); }
      if q.cursor.Some? && q.cursor.value.inbox.Some? && HasNul(q.cursor.value.inbox.value) {
        return Err(Messages.ForbiddenByte("cursor.inbox_id"));
      }
      LessIsTotal(q.direction);
      var after := if q.cursor.None? then None else Position(u, q.cursor.value);
      var matching := Candidates(u, keys, org, scope, q);
      var fetched := Keyset.Fetch(Less(q.direction), matching, after, Keyset.FetchLimit(q.limit));
      var hasMore := |fetched| > q.limit;
      var kept := Keyset.Take(fetched, q.limit);
      ghost var page := PageKeys(u, keys, org, scope, q);
      assert page.items == kept;
      forall k | k in kept ensures k.id in keys {
        SelectedKeysAreRows(keys, org, scope, k);
      }
      var next := None;
      if hasMore {
        next := Some(TokenOf(c, u, kept[|kept| - 1], scope));
      }
      var items := FillPods(dir, org, RowsOf(keys, kept));
      return Ok(KeyPage(items, next));
    }
  }

  /** The backfill over a page's items. */
  method FillPods(dir: Scopes.Directory, org: string, raw: seq<ApiKey>) returns (items: seq<ApiKey>)
    ensures items == ShownAll(dir, org, raw)
  {
    items := raw;
    var i := 0;
    while i < |items|
      invariant 0 <= i <= |items| == |raw|
      invariant forall j :: 0 <= j < |items| ==> items[j] == if j < i then Shown(dir, org, raw[j]) else raw[j]
    {
      items := items[i := Shown(dir, org, items[i])];
      i := i + 1;
    }
  }

  // ---- what a page is, said of its keys --------------------------------------------------------

  /** Oldest first, or newest first; keys of one time by id. */
  predicate Precedes(dir: Messages.Direction, a: SortKey, b: SortKey) {
    if dir.Ascending? then a.nanos < b.nanos || (a.nanos == b.nanos && a.id < b.id)
    else a.nanos > b.nanos || (a.nanos == b.nanos && a.id > b.id)
  }

  lemma DirectionMeans(dir: Messages.Direction)
    ensures forall a, b :: Less(dir)(a, b) <==> Precedes(dir, a, b)
  {
  }

  ghost predicate KeysInOrder(dir: Messages.Direction, ks: seq<SortKey>) {
    forall i, j :: 0 <= i < j < |ks| ==> Precedes(dir, ks[i], ks[j]) && ks[i] != ks[j]
  }

  /** A key of the mount behind the cursor. A cursor whose id is no UUID lies behind all keys of its time. */
  predicate Wanted(u: Scopes.UuidText, keys: Table, org: string, scope: KeyScope, q: Query, k: SortKey) {
    && k.id in keys && k == SortKey(keys[k.id].createdAt * 1_000_000, k.id) && Selected(keys[k.id], org, scope)
    && (q.cursor.Some? ==>
          var (nanos, id) := (q.cursor.value.nanos, ExactUuid(u, q.cursor.value.id));
          if id.Some? then Precedes(q.direction, SortKey(nanos, id.value), k)
          else if q.direction.Ascending? then nanos < k.nanos else nanos > k.nanos)
  }

  /** An inbox key is shown with the pod its inbox lives in, any other as it is. */
  ghost predicate IsShown(dir: Scopes.Directory, org: string, k: ApiKey, shown: ApiKey) {
    && shown == k.(pod := shown.pod)
    && (k.inbox.None? ==> shown.pod == k.pod)
    && (k.inbox.Some? ==>
          var i := k.inbox.value;
          forall p :: shown.pod == Some(p) <==> i in dir.inboxes && dir.inboxes[i] == (org, p))
  }

  /** The first `limit` wanted keys, in order, each as it is shown, and a token of the mount exactly when
      another one follows. */
  ghost predicate IsPage(c: Messages.Codec, u: Scopes.UuidText, dir: Scopes.Directory, keys: Table, org: string,
      scope: KeyScope, q: Query, page: KeyPage) {
    var ks := SortKeys(page.items);
    && |ks| == |page.items| <= q.limit && KeysInOrder(q.direction, ks)
    && (forall i :: 0 <= i < |ks| ==>
          Wanted(u, keys, org, scope, q, ks[i]) && IsShown(dir, org, keys[ks[i].id], page.items[i]))
    && (forall k :: Wanted(u, keys, org, scope, q, k) && k !in ks ==>
          page.next.Some? && |ks| == q.limit && KeysInOrder(q.direction, ks + [k]))
    && (page.next.Some? ==>
          && (exists k :: Wanted(u, keys, org, scope, q, k) && k !in ks)
          && ks != [] && page.next.value == TokenOf(c, u, ks[|ks| - 1], scope))
  }

  lemma WantedKeys(u: Scopes.UuidText, keys: Table, org: string, scope: KeyScope, q: Query, k: SortKey)
    requires ValidTable(keys)
    ensures var after := if q.cursor.None? then None else Position(u, q.cursor.value);
      k in Keyset.After(Less(q.direction), Candidates(u, keys, org, scope, q), after)
      <==> Wanted(u, keys, org, scope, q, k)
  {
    DirectionMeans(q.direction);
    hide Less;
    if k in SelectedKeys(keys, org, scope) {
      SelectedKeysAreRows(keys, org, scope, k);
    }
  }

  lemma ShownMeans(dir: Scopes.Directory, org: string, k: ApiKey)
    requires Scopes.WellFormed(dir)
    requires k.inbox.Some? ==> Lower(k.inbox.value) == k.inbox.value && !HasNul(k.inbox.value)
    ensures IsShown(dir, org, k, Shown(dir, org, k)) && KeyOf(Shown(dir, org, k)) == KeyOf(k)
  {
  }

  lemma {:induction false} RowsOfMeans(keys: Table, page: seq<SortKey>)
    requires forall k :: k in page ==> k.id in keys
    ensures |RowsOf(keys, page)| == |page|
    ensures forall i :: 0 <= i < |page| ==> RowsOf(keys, page)[i] == keys[page[i].id]
  {
    if page == [] {
    } else {
      RowsOfMeans(keys, page[1..]);
    }
  }

  lemma CandidatesAreFew(u: Scopes.UuidText, keys: Table, org: string, scope: KeyScope, q: Query)
    ensures |Candidates(u, keys, org, scope, q)| <= |SelectedKeys(keys, org, scope)|
  {
    SubsetSize(Candidates(u, keys, org, scope, q), SelectedKeys(keys, org, scope));
  }

  ghost predicate Enumerates(u: Scopes.UuidText, keys: Table, org: string, scope: KeyScope, q: Query,
      rest: seq<SortKey>) {
    KeysInOrder(q.direction, rest) && forall k :: k in rest <==> Wanted(u, keys, org, scope, q, k)
  }

  lemma PageCutsTheListing(u: Scopes.UuidText, keys: Table, org: string, scope: KeyScope, q: Query)
    returns (rest: seq<SortKey>)
    requires ValidTable(keys) && 1 <= q.limit
    requires q.limit < I64_MAX || |SelectedKeys(keys, org, scope)| <= I64_MAX
    ensures Enumerates(u, keys, org, scope, q, rest)
    ensures Keyset.CutShort(PageKeys(u, keys, org, scope, q), rest, q.limit)
  {
    hide Keyset.StrictOrder, Keyset.PageOf, Keyset.CutShort, Less, SelectedKeys, Candidates, Position, Wanted,
        Precedes, ValidTable, Keyset.After;
    LessIsTotal(q.direction);
    DirectionMeans(q.direction);
    CandidatesAreFew(u, keys, org, scope, q);
    var after := if q.cursor.None? then None else Position(u, q.cursor.value);
    rest := Keyset.PageIsCut(Less(q.direction), Candidates(u, keys, org, scope, q), after, q.limit);
    forall k ensures k in rest <==> Wanted(u, keys, org, scope, q, k) {
      WantedKeys(u, keys, org, scope, q, k);
    }
  }

  lemma {:induction false} CutIsPage(c: Messages.Codec, u: Scopes.UuidText, dir: Scopes.Directory, keys: Table,
      org: string, scope: KeyScope, q: Query, rest: seq<SortKey>, p: Keyset.Page<SortKey>, items: seq<ApiKey>)
    requires Enumerates(u, keys, org, scope, q, rest) && Keyset.CutShort(p, rest, q.limit) && 1 <= q.limit
    requires SortKeys(items) == p.items && |items| == |p.items|
    requires forall i :: 0 <= i < |items| ==>
      p.items[i].id in keys && IsShown(dir, org, keys[p.items[i].id], items[i])
    ensures IsPage(c, u, dir, keys, org, scope, q,
      KeyPage(items, if p.next.Some? then Some(TokenOf(c, u, p.next.value, scope)) else None))
  {
    hide Wanted, IsShown, TokenOf, Precedes, SortKeys;
    var ks := p.items;
    assert ks == rest[..|ks|] && KeysInOrder(q.direction, ks);
    hide KeysInOrder;
    forall i | 0 <= i < |ks| ensures Wanted(u, keys, org, scope, q, ks[i]) {
      assert ks[i] == rest[i] && rest[i] in rest;
    }
    forall k | Wanted(u, keys, org, scope, q, k) && k !in ks
      ensures |rest| > q.limit && KeysInOrder(q.direction, ks + [k])
    {
      LeftOutFollows(q.direction, rest, |ks|, k);
    }
    if p.next.Some? {
      assert rest[|ks|] in rest && rest[|ks|] !in ks by { LaterIsNew(q.direction, rest, |ks|); }
    }
    hide Enumerates;
  }

  lemma LaterIsNew(dir: Messages.Direction, rest: seq<SortKey>, n: nat)
    requires KeysInOrder(dir, rest) && n < |rest|
    ensures rest[n] !in rest[..n]
  {
    hide Precedes;
  }

  lemma LeftOutFollows(dir: Messages.Direction, rest: seq<SortKey>, n: nat, k: SortKey)
    requires KeysInOrder(dir, rest) && n <= |rest| && k in rest && k !in rest[..n]
    ensures n < |rest| && KeysInOrder(dir, rest[..n] + [k])
  {
    hide Precedes;
    var p :| 0 <= p < |rest| && rest[p] == k;
    assert forall i :: 0 <= i < n ==> rest[..n][i] == rest[i];
    var more := rest[..n] + [k];
    forall i, j | 0 <= i < j < |more| ensures Precedes(dir, more[i], more[j]) && more[i] != more[j] {
      assert Precedes(dir, rest[i], rest[if j < n then j else p]);
    }
  }

  /** Listing, said of the keys: which ones, in which direction, how shown, up to where, and how the rest
      is named. */
  lemma ListMeans(c: Messages.Codec, u: Scopes.UuidText, dir: Scopes.Directory, keys: Table, org: string,
      scope: KeyScope, q: Query)
    requires ValidTable(keys) && Scopes.WellFormed(dir)
    requires q.limit < I64_MAX || |SelectedKeys(keys, org, scope)| <= I64_MAX
    ensures var r := ListOf(c, u, dir, keys, org, scope, q);
      var silent := q.limit == 0 || (scope.InboxKeys? && HasNul(scope.inbox));
      && (silent ==> r == Ok(KeyPage([], None)))
      && (r.Err? <==> !silent && q.cursor.Some? && q.cursor.value.inbox.Some? && HasNul(q.cursor.value.inbox.value))
      && (r.Ok? && !silent ==> IsPage(c, u, dir, keys, org, scope, q, r.value))
  {
    hide IsPage, SelectedKeys, PageKeys, RowsOf, TokenOf, ShownAll;
    if ListOf(c, u, dir, keys, org, scope, q).Ok? && q.limit > 0 && CanExist(scope) {
      var rest := PageCutsTheListing(u, keys, org, scope, q);
      var p := PageKeys(u, keys, org, scope, q);
      PageIsShown(dir, keys, org, scope, p.items);
      hide Enumerates, Keyset.CutShort, IsShown, ValidTable;
      CutIsPage(c, u, dir, keys, org, scope, q, rest, p, ShownAll(dir, org, RowsOf(keys, p.items)));
    }
  }

  lemma PageIsShown(dir: Scopes.Directory, keys: Table, org: string, scope: KeyScope, page: seq<SortKey>)
    requires ValidTable(keys) && Scopes.WellFormed(dir)
    requires forall k :: k in page ==> k in SelectedKeys(keys, org, scope)
    ensures forall k :: k in page ==> k.id in keys
    ensures var items := ShownAll(dir, org, RowsOf(keys, page));
      && SortKeys(items) == page && |items| == |page|
      && forall i :: 0 <= i < |page| ==> IsShown(dir, org, keys[page[i].id], items[i])
  {
    hide Shown, IsShown, SelectedKeys;
    forall k | k in page ensures k.id in keys && KeyOf(keys[k.id]) == k {
      SelectedKeysAreRows(keys, org, scope, k);
    }
    RowsOfMeans(keys, page);
    SortKeysOfRows(dir, org, keys, page);
    forall i | 0 <= i < |page| ensures IsShown(dir, org, keys[page[i].id], Shown(dir, org, keys[page[i].id])) {
      assert page[i] in page;
      ShownMeans(dir, org, keys[page[i].id]);
    }
  }

  // ---- walks -----------------------------------------------------------------------------------

  datatype Request = Request(org: string, scope: KeyScope, limit: nat, direction: Messages.Direction)

  ghost function Serve(c: Messages.Codec, u: Scopes.UuidText, dir: Scopes.Directory, keys: Table, r: Request,
      token: Option<string>): Result<KeyPage, Messages.TokenError>
    requires ValidTable(keys)
  {
    if token.None? then ListOf(c, u, dir, keys, r.org, r.scope, Query(r.limit, r.direction, None))
    else match DecodeCursor(c, u, token.value, r.scope)
      case Err(e) => Err(e)
      case Ok(k) => ListOf(c, u, dir, keys, r.org, r.scope, Query(r.limit, r.direction, Some(k)))
  }

  function SortKeys(items: seq<ApiKey>): seq<SortKey> {
    if items == [] then [] else [KeyOf(items[0])] + SortKeys(items[1..])
  }

  lemma {:induction false} SortKeysOfRows(dir: Scopes.Directory, org: string, keys: Table, page: seq<SortKey>)
    requires forall k :: k in page ==> k.id in keys && KeyOf(keys[k.id]) == k
    ensures SortKeys(ShownAll(dir, org, RowsOf(keys, page))) == page
  {
    if page == [] {
    } else {
      SortKeysOfRows(dir, org, keys, page[1..]);
    }
  }

  ghost function Endpoint(c: Messages.Codec, u: Scopes.UuidText, dir: Scopes.Directory, keys: Table,
      r: Request): Keyset.Server<SortKey>
    requires ValidTable(keys)
  {
    (token: Option<string>) =>
      match Serve(c, u, dir, keys, r, token)
      case Err(_) => None
      case Ok(page) => Some((SortKeys(page.items), page.next))
  }

  ghost function Resume(c: Messages.Codec, u: Scopes.UuidText, r: Request): string -> Option<SortKey> {
    (token: string) =>
      match DecodeCursor(c, u, token, r.scope)
      case Err(_) => None
      case Ok(k) => if k.inbox.Some? && HasNul(k.inbox.value) then None else Position(u, k)
  }

  lemma IssuedTokensResume(c: Messages.Codec, u: Scopes.UuidText, keys: Table, r: Request, k: SortKey)
    requires Messages.Faithful(c) && Scopes.Faithful(u) && ValidTable(keys) && CanExist(r.scope)
    requires k in SelectedKeys(keys, r.org, r.scope)
    ensures Resume(c, u, r)(TokenOf(c, u, k, r.scope)) == Some(k)
  {
    SelectedKeysAreRows(keys, r.org, r.scope, k);
    TokensAreMountBound(c, u, k, r.scope, r.scope);
    DecodedInboxHasNoNul(c, u, TokenOf(c, u, k, r.scope), r.scope);
  }

  lemma DecodedInboxHasNoNul(c: Messages.Codec, u: Scopes.UuidText, token: string, scope: KeyScope)
    ensures var d := DecodeCursor(c, u, token, scope); d.Ok? && d.value.inbox.Some? ==> !HasNul(d.value.inbox.value)
  {
    var f := c.decode(token);
    if f.Some? && "inbox_id" in f.value {
      LowerKeepsNul(f.value["inbox_id"]);
    }
  }

  lemma EndpointAnswers(c: Messages.Codec, u: Scopes.UuidText, dir: Scopes.Directory, keys: Table, r: Request,
      cursor: Option<ApiKeyCursor>)
    requires Messages.Faithful(c) && Scopes.Faithful(u) && ValidTable(keys) && CanExist(r.scope) && 1 <= r.limit
    requires cursor.Some? && cursor.value.inbox.Some? ==> !HasNul(cursor.value.inbox.value)
    ensures var q := Query(r.limit, r.direction, cursor);
      var listed := ListOf(c, u, dir, keys, r.org, r.scope, q);
      && listed.Ok?
      && Keyset.AnswersPage(Some((SortKeys(listed.value.items), listed.value.next)),
                            PageKeys(u, keys, r.org, r.scope, q), Resume(c, u, r), Always())
  {
    hide Keyset.StrictOrder, Keyset.PageOf, TokenOf, Messages.Faithful, Scopes.Faithful, Resume, Less, Position;
    var page := PageKeys(u, keys, r.org, r.scope, Query(r.limit, r.direction, cursor));
    forall k | k in page.items ensures k.id in keys && KeyOf(keys[k.id]) == k {
      SelectedKeysAreRows(keys, r.org, r.scope, k);
    }
    SortKeysOfRows(dir, r.org, keys, page.items);
    if page.next.Some? {
      IssuedTokensResume(c, u, keys, r, page.next.value);
    }
  }

  lemma EndpointIsHonest(c: Messages.Codec, u: Scopes.UuidText, dir: Scopes.Directory, keys: Table, r: Request)
    requires Messages.Faithful(c) && Scopes.Faithful(u) && ValidTable(keys) && CanExist(r.scope) && 1 <= r.limit
    requires Keyset.StrictOrder(Less(r.direction))
    ensures Keyset.Honest(Less(r.direction), SelectedKeys(keys, r.org, r.scope), r.limit,
                          Endpoint(c, u, dir, keys, r), Resume(c, u, r), Always())
  {
    hide Keyset.StrictOrder, Keyset.PageOf, Messages.Faithful, Scopes.Faithful, ListOf, Keyset.AnswersPage,
        DecodeCursor, SortKeys, SelectedKeys, Less;
    EndpointAnswers(c, u, dir, keys, r, None);
    forall t | Resume(c, u, r)(t).Some?
      ensures Keyset.AnswersPage(Endpoint(c, u, dir, keys, r)(Some(t)),
        Keyset.PageOf(Less(r.direction), SelectedKeys(keys, r.org, r.scope), Resume(c, u, r)(t), r.limit),
        Resume(c, u, r), Always())
    {
      EndpointAnswers(c, u, dir, keys, r, Some(DecodeCursor(c, u, t, r.scope).value));
    }
    forall t | Resume(c, u, r)(t).None? ensures Endpoint(c, u, dir, keys, r)(Some(t)).None? {
      UnresumedIsRefused(c, u, dir, keys, r, t);
    }
  }

  lemma UnresumedIsRefused(c: Messages.Codec, u: Scopes.UuidText, dir: Scopes.Directory, keys: Table, r: Request,
      token: string)
    requires ValidTable(keys) && Resume(c, u, r)(token).None?
    ensures Endpoint(c, u, dir, keys, r)(Some(token)).None?
  {
    DecodedInboxHasNoNul(c, u, token, r.scope);
    DecodedIdIsExact(c, u, token, r.scope);
    hide DecodeCursor, ListOf;
  }

  lemma DecodedIdIsExact(c: Messages.Codec, u: Scopes.UuidText, token: string, scope: KeyScope)
    ensures var d := DecodeCursor(c, u, token, scope); d.Ok? ==> Position(u, d.value).Some?
  {
  }

  ghost function InOrder(dir: Messages.Direction, keys: set<SortKey>): seq<SortKey> {
    LessIsTotal(dir);
    Keyset.InOrder(Less(dir), keys)
  }

  lemma AscendsInOrder(dir: Messages.Direction, ks: seq<SortKey>)
    requires Keyset.Ascending(Less(dir), ks)
    ensures KeysInOrder(dir, ks)
  {
    LessIsTotal(dir);
    DirectionMeans(dir);
    Keyset.ListedOnce(Less(dir), ks);
    hide Keyset.StrictOrder, Less;
  }

  /** Every key can be named: the database clock has a four-digit year. */
  function Always(): SortKey -> bool {
    (k: SortKey) => true
  }

  lemma AlwaysNamed(s: seq<SortKey>, limit: nat)
    requires 1 <= limit
    ensures Keyset.PageEndsNamed(s, limit, Always())
  {
  }

  /** At every mount, and at the organization mount over keys of all three scopes, following `next`
      is never refused and lists exactly the mount's keys, each once. */
  lemma KeyWalkIsComplete(c: Messages.Codec, u: Scopes.UuidText, dir: Scopes.Directory, keys: Table, r: Request)
    requires Messages.Faithful(c) && Scopes.Faithful(u) && ValidTable(keys) && CanExist(r.scope) && 1 <= r.limit
    requires r.limit < I64_MAX || |SelectedKeys(keys, r.org, r.scope)| <= I64_MAX
    ensures var mine := SelectedKeys(keys, r.org, r.scope);
      && Keyset.ClientAt((_: nat) => Endpoint(c, u, dir, keys, r), |mine| + 1) ==
        Keyset.Client(InOrder(r.direction, mine), Keyset.Complete)
      && KeysInOrder(r.direction, InOrder(r.direction, mine))
  {
    AscendsInOrder(r.direction, InOrder(r.direction, SelectedKeys(keys, r.org, r.scope)));
    hide Keyset.StrictOrder, Keyset.ClientAt, Messages.Faithful, Scopes.Faithful, Keyset.Honest,
        Keyset.PageEndsNamed, Endpoint, Resume, SelectedKeys, Less, Always, ValidTable;
    LessIsTotal(r.direction);
    EndpointIsHonest(c, u, dir, keys, r);
    AlwaysNamed(InOrder(r.direction, SelectedKeys(keys, r.org, r.scope)), r.limit);
    Keyset.HonestClientCompletes(Less(r.direction), SelectedKeys(keys, r.org, r.scope), r.limit,
                                 Endpoint(c, u, dir, keys, r), Resume(c, u, r), Always());
  }

  ghost predicate Proper(c: Messages.Codec, u: Scopes.UuidText, tables: nat -> Table, r: Request) {
    && Messages.Faithful(c) && Scopes.Faithful(u) && CanExist(r.scope) && 1 <= r.limit
    && forall j: nat :: ValidTable(tables(j))
  }

  ghost function KeyTables(tables: nat -> Table, r: Request): nat -> set<SortKey> {
    (i: nat) => SelectedKeys(tables(i), r.org, r.scope)
  }

  ghost function Endpoints(c: Messages.Codec, u: Scopes.UuidText, dir: Scopes.Directory, tables: nat -> Table,
      r: Request): nat -> Keyset.Server<SortKey>
    requires forall j: nat :: ValidTable(tables(j))
  {
    (i: nat) => Endpoint(c, u, dir, tables(i), r)
  }

  lemma EndpointsAreHonest(c: Messages.Codec, u: Scopes.UuidText, dir: Scopes.Directory, tables: nat -> Table,
      r: Request)
    requires Proper(c, u, tables, r) && Keyset.StrictOrder(Less(r.direction))
    ensures forall j: nat ::
      Keyset.Honest(Less(r.direction), KeyTables(tables, r)(j), r.limit, Endpoints(c, u, dir, tables, r)(j),
                    Resume(c, u, r), Always())
  {
    hide Keyset.StrictOrder, Keyset.Honest, Messages.Faithful, Scopes.Faithful;
    forall j: nat
      ensures Keyset.Honest(Less(r.direction), KeyTables(tables, r)(j), r.limit, Endpoints(c, u, dir, tables, r)(j),
                            Resume(c, u, r), Always())
    {
      EndpointIsHonest(c, u, dir, tables(j), r);
    }
  }

  /** While keys are created and deleted between requests no walk is refused, none lists a key twice, and
      one that completes listed every key that was there throughout. */
  lemma KeyWalkIsStable(c: Messages.Codec, u: Scopes.UuidText, dir: Scopes.Directory, tables: nat -> Table,
      r: Request, i: nat)
    requires Proper(c, u, tables, r) && Keyset.Fits(KeyTables(tables, r), r.limit)
    ensures var client := Keyset.ClientAt(Endpoints(c, u, dir, tables, r), i);
      && !client.state.Refused?
      && KeysInOrder(r.direction, client.received)
      && (client.state.Complete? ==>
            forall k :: (forall j: nat :: j < i ==> k in KeyTables(tables, r)(j)) ==> k in client.received)
  {
    hide Keyset.StrictOrder, Keyset.ClientAt, Keyset.Fits, Keyset.Honest, Keyset.NamedTo, Proper;
    LessIsTotal(r.direction);
    AllAreTables(c, u, tables, r);
    EndpointsAreHonest(c, u, dir, tables, r);
    Keyset.NameableTablesAreNamed(Less(r.direction), KeyTables(tables, r), r.limit, Always(), i);
    Keyset.HonestClientIsStable(Less(r.direction), KeyTables(tables, r), r.limit, Endpoints(c, u, dir, tables, r),
                                Resume(c, u, r), Always(), i);
    AscendsInOrder(r.direction, Keyset.ClientAt(Endpoints(c, u, dir, tables, r), i).received);
  }

  lemma AllAreTables(c: Messages.Codec, u: Scopes.UuidText, tables: nat -> Table, r: Request)
    requires Proper(c, u, tables, r)
    ensures forall j: nat :: ValidTable(tables(j))
  {
  }

  /** With deletions only, a key walk completes. */
  lemma KeyWalkEnds(c: Messages.Codec, u: Scopes.UuidText, dir: Scopes.Directory, tables: nat -> Table, r: Request)
    requires Proper(c, u, tables, r)
    requires Keyset.Fits(KeyTables(tables, r), r.limit) && Keyset.OnlyDeletions(KeyTables(tables, r))
    ensures Keyset.ClientAt(Endpoints(c, u, dir, tables, r), |KeyTables(tables, r)(0)| + 1).state.Complete?
  {
    hide Keyset.StrictOrder, Keyset.ClientAt, Keyset.Fits, Keyset.Honest, Keyset.NamedTo, Proper;
    LessIsTotal(r.direction);
    AllAreTables(c, u, tables, r);
    EndpointsAreHonest(c, u, dir, tables, r);
    var n := |KeyTables(tables, r)(0)| + 1;
    Keyset.NameableTablesAreNamed(Less(r.direction), KeyTables(tables, r), r.limit, Always(), n);
    Keyset.HonestClientEnds(Less(r.direction), KeyTables(tables, r), r.limit, Endpoints(c, u, dir, tables, r),
                            Resume(c, u, r), Always());
  }

  // ---- the token the row would give ------------------------------------------------------------

  /** A key's own scope, which is what the last row of a page would name. */
  function RowScope(k: ApiKey): KeyScope {
    if k.inbox.Some? then InboxKeys(k.inbox.value) else if k.pod.Some? then PodKeys(k.pod.value) else WholeOrganization
  }

  /** The same endpoint with tokens built from the last row's own scope instead of the mount. */
  ghost function RowTokens(c: Messages.Codec, u: Scopes.UuidText, keys: Table,
      serve: Keyset.Server<SortKey>): Keyset.Server<SortKey> {
    (token: Option<string>) =>
      match serve(token)
      case None => None
      case Some((items, next)) =>
        if next.None? || items == [] || items[|items| - 1].id !in keys then Some((items, next))
        else Some((items, Some(TokenOf(c, u, items[|items| - 1], RowScope(keys[items[|items| - 1].id])))))
  }

  /** The keys whose own scope is the organization. */
  function OrganizationWide(keys: Table): SortKey -> bool {
    (k: SortKey) => k.id in keys && RowScope(keys[k.id]) == WholeOrganization
  }

  lemma RowTokenResumes(c: Messages.Codec, u: Scopes.UuidText, keys: Table, r: Request, k: SortKey)
    requires Messages.Faithful(c) && Scopes.Faithful(u) && ValidTable(keys) && r.scope == WholeOrganization
    requires k in SelectedKeys(keys, r.org, r.scope)
    ensures Resume(c, u, r)(TokenOf(c, u, k, RowScope(keys[k.id])))
      == if OrganizationWide(keys)(k) then Some(k) else None
  {
    SelectedKeysAreRows(keys, r.org, r.scope, k);
    var scope := RowScope(keys[k.id]);
    TokensAreMountBound(c, u, k, scope, WholeOrganization);
    DecodedInboxHasNoNul(c, u, TokenOf(c, u, k, scope), r.scope);
    hide DecodeCursor, TokenOf;
  }

  lemma RowTokensAnswer(c: Messages.Codec, u: Scopes.UuidText, keys: Table, r: Request,
      serve: Keyset.Server<SortKey>, token: Option<string>, page: Keyset.Page<SortKey>)
    requires Messages.Faithful(c) && Scopes.Faithful(u) && ValidTable(keys) && r.scope == WholeOrganization
    requires Keyset.AnswersPage(serve(token), page, Resume(c, u, r), Always())
    requires page.next.Some? ==>
      && page.items != [] && page.next.value == page.items[|page.items| - 1]
      && page.next.value in SelectedKeys(keys, r.org, r.scope)
    ensures Keyset.AnswersPage(RowTokens(c, u, keys, serve)(token), page, Resume(c, u, r), OrganizationWide(keys))
  {
    hide Resume, OrganizationWide, TokenOf, Messages.Faithful, Scopes.Faithful, SelectedKeys, RowScope, ValidTable;
    if page.next.Some? {
      SelectedKeysAreRows(keys, r.org, r.scope, page.next.value);
      RowTokenResumes(c, u, keys, r, page.next.value);
    }
  }

  /** Had the tokens named the last row's own scope, an organization walk would have listed all keys iff no
      page but the last ended on a pod or inbox key, and been refused part-way otherwise. */
  lemma RowScopedTokensWouldBreakTheWalk(c: Messages.Codec, u: Scopes.UuidText, dir: Scopes.Directory, keys: Table,
      r: Request)
    requires Messages.Faithful(c) && Scopes.Faithful(u) && ValidTable(keys)
    requires r.scope == WholeOrganization && 1 <= r.limit
    requires r.limit < I64_MAX || |SelectedKeys(keys, r.org, r.scope)| <= I64_MAX
    ensures var mine := SelectedKeys(keys, r.org, r.scope);
      var s := InOrder(r.direction, mine);
      var client := Keyset.ClientAt((_: nat) => RowTokens(c, u, keys, Endpoint(c, u, dir, keys, r)), |mine| + 1);
      if Keyset.PageEndsNamed(s, r.limit, OrganizationWide(keys)) then client == Keyset.Client(s, Keyset.Complete)
      else client.state.Refused? && client.received < s
  {
    hide Keyset.StrictOrder, Keyset.ClientAt, Messages.Faithful, Scopes.Faithful, Keyset.PageEndsNamed, Endpoint,
        Resume, SelectedKeys, Less, Always, OrganizationWide, ValidTable, Keyset.PageOf, Keyset.AnswersPage;
    LessIsTotal(r.direction);
    EndpointIsHonest(c, u, dir, keys, r);
    var serve := Endpoint(c, u, dir, keys, r);
    var a, less := SelectedKeys(keys, r.org, r.scope), Less(r.direction);
    Keyset.PageEnds(less, a, None, r.limit);
    RowTokensAnswer(c, u, keys, r, serve, None, Keyset.PageOf(less, a, None, r.limit));
    forall t | Resume(c, u, r)(t).Some?
      ensures Keyset.AnswersPage(RowTokens(c, u, keys, serve)(Some(t)),
        Keyset.PageOf(less, a, Resume(c, u, r)(t), r.limit), Resume(c, u, r), OrganizationWide(keys))
    {
      Keyset.PageEnds(less, a, Resume(c, u, r)(t), r.limit);
      RowTokensAnswer(c, u, keys, r, serve, Some(t), Keyset.PageOf(less, a, Resume(c, u, r)(t), r.limit));
    }
    Keyset.HonestClientCompletes(Less(r.direction), SelectedKeys(keys, r.org, r.scope), r.limit,
                                 RowTokens(c, u, keys, serve), Resume(c, u, r), OrganizationWide(keys));
  }

  // ---- which keys a window lists ---------------------------------------------------------------

  /** Where a key reaches: its own pod, or its inbox and that inbox's pod. */
  function PlaceOf(dir: Scopes.Directory, k: ApiKey): Scopes.Place {
    if k.inbox.Some? && k.inbox.value in dir.inboxes
    then Scopes.Place(Some(k.org), Some(dir.inboxes[k.inbox.value].1), k.inbox)
    else Scopes.Place(Some(k.org), k.pod, k.inbox)
  }

  /** The foreign key of an inbox-bound row. */
  predicate Refers(dir: Scopes.Directory, k: ApiKey) {
    k.inbox.Some? ==>
      && Lower(k.inbox.value) == k.inbox.value && k.inbox.value in dir.inboxes
      && dir.inboxes[k.inbox.value].0 == k.org
  }

  /** A credential's own inbox is live and in the pod it says. */
  predicate Live(dir: Scopes.Directory, scope: Scopes.Scope) {
    scope.Inbox? ==> Lower(scope.inbox) in dir.inboxes && dir.inboxes[Lower(scope.inbox)] == (scope.org, scope.pod)
  }

  /** A served window lists exactly the keys that lie in both the credential's scope and the mount, except
      that a window on a pod without an inbox leaves out the inbox-bound keys inside that pod. */
  lemma ListedKeysLieInScopeAndMount(dir: Scopes.Directory, scope: Scopes.Scope, mount: Scopes.Mount, k: ApiKey)
    requires Scopes.WellFormed(dir) && Live(dir, scope) && Refers(dir, k) && !(k.pod.Some? && k.inbox.Some?)
    requires Scopes.SettleMount(dir, scope, mount).Ok?
    ensures var w := Scopes.SettleMount(dir, scope, mount).value;
      Selected(k, w.org, KeyScopeFor(w))
      <==> && Scopes.InScope(scope, PlaceOf(dir, k)) && Scopes.InMount(mount, PlaceOf(dir, k))
           && (w.pod.Some? && w.inbox.None? ==> k.inbox.None?)
  {
    Scopes.MountIsServedIffReachable(dir, scope, mount);
    if mount.AtInbox? {
      LowerIdempotent(mount.inbox);
    }
    if scope.Inbox? {
      LowerIdempotent(scope.inbox);
    }
  }
}
