/** The messages table: insert, lookup, paged listing, label update, delete; and its page tokens. */
module Messages {
  import opened Prelude
  import opened Mail
  import Labels
  import Scopes
  import Keyset

  type PrimaryKey = (string, string)
  type Table = map<PrimaryKey, Message>

  // ---- sort keys and their order ---------------------------------------------------------------

  /** (timestamp, inbox_id, message_id), the timestamp in nanoseconds. */
  datatype MsgKey = MsgKey(nanos: int, inbox: string, id: string)

  datatype Direction = Ascending | Descending

  function KeyLess(text: (string, string) -> bool, a: MsgKey, b: MsgKey): bool {
    || a.nanos < b.nanos
    || (a.nanos == b.nanos && (text(a.inbox, b.inbox) || (a.inbox == b.inbox && text(a.id, b.id))))
  }

  function Directed(text: (string, string) -> bool, dir: Direction): (MsgKey, MsgKey) -> bool {
    if dir.Ascending? then (a: MsgKey, b: MsgKey) => KeyLess(text, a, b)
    else (a: MsgKey, b: MsgKey) => KeyLess(text, b, a)
  }

  /** Any total order on text makes the three-column comparison a total order, in both directions. */
  lemma DirectedIsTotal(text: (string, string) -> bool, dir: Direction)
    requires Keyset.StrictOrder(text)
    ensures Keyset.StrictOrder(Directed(text, dir))
  {
    forall a: MsgKey, b: MsgKey, c: MsgKey | KeyLess(text, a, b) && KeyLess(text, b, c) ensures KeyLess(text, a, c) {
    }
    forall a: MsgKey, b: MsgKey ensures a == b || KeyLess(text, a, b) || KeyLess(text, b, a) {
    }
  }

  const NANOS_PER_MILLI: int := 1_000_000

  function SortKey(m: Message): MsgKey {
    MsgKey(m.at * NANOS_PER_MILLI, m.inbox, m.id)
  }

  // ---- page tokens -----------------------------------------------------------------------------

  /** base64(JSON) objects and RFC 3339 milliseconds, as far as tokens use them. */
  datatype Codec = Codec(
    encode: map<string, string> -> string, decode: string -> Option<map<string, string>>,
    render: int -> string, parse: string -> Option<int>)

  /** RFC 3339 years have four digits: what is rendered outside 0000 to 9999 does not parse. */
  const FIRST_MILLI := -62_167_219_200_000
  const LAST_MILLI := 253_402_300_799_999

  predicate Datable(ms: int) {
    FIRST_MILLI <= ms <= LAST_MILLI
  }

  ghost predicate Faithful(c: Codec) {
    && (forall m :: c.decode(c.encode(m)) == Some(m))
    && (forall ms :: c.parse(c.render(ms)) == if Datable(ms) then Some(ms * NANOS_PER_MILLI) else None)
  }

  datatype TokenError = Undecodable | MissingField(field: string) | WrongType(field: string)
      | ForbiddenByte(field: string) | WrongScope

  /** Rendering keeps milliseconds only. */
  function EncodeTimestamp(c: Codec, nanos: int): string {
    c.render(nanos / NANOS_PER_MILLI)
  }

  lemma TimestampRoundTrip(c: Codec, nanos: int)
    requires Faithful(c)
    ensures c.parse(EncodeTimestamp(c, nanos)) == Some(nanos)
            <==> nanos % NANOS_PER_MILLI == 0 && Datable(nanos / NANOS_PER_MILLI)
  {
    var ms := nanos / NANOS_PER_MILLI;
    assert c.parse(c.render(ms)) == if Datable(ms) then Some(ms * NANOS_PER_MILLI) else None;
  }

  datatype MessageCursor = MessageCursor(id: string, inbox: string, nanos: int)

  function KeyOf(c: MessageCursor): MsgKey {
    MsgKey(c.nanos, c.inbox, c.id)
  }

  function EncodeCursor(codec: Codec, c: MessageCursor): string {
    codec.encode(map["message_id" := c.id, "inbox_id" := c.inbox, "timestamp" := EncodeTimestamp(codec, c.nanos)])
  }

  function DecodeCursor(codec: Codec, token: string, pinned: Option<string>): Result<MessageCursor, TokenError> {
    var decoded := codec.decode(token);
    if decoded.None? then Err(Undecodable)
    else
      var fields := decoded.value;
      if "message_id" !in fields then Err(MissingField("message_id"))
      else if "inbox_id" !in fields then Err(MissingField("inbox_id"))
      else if "timestamp" !in fields then Err(MissingField("timestamp"))
      else if HasNul(fields["message_id"]) then Err(ForbiddenByte("message_id"))
      else if HasNul(fields["inbox_id"]) then Err(ForbiddenByte("inbox_id"))
      else
        var nanos := codec.parse(fields["timestamp"]);
        if nanos.None? then Err(WrongType("timestamp"))
        else
          var inbox := Lower(fields["inbox_id"]);
          if pinned.Some? && !EqFold(inbox, pinned.value) then Err(WrongScope)
          else Ok(MessageCursor(fields["message_id"], inbox, nanos.value))
  }

  /** What a token turns back into: the lower-cased inbox and the truncated timestamp, unless its year has
      no four-digit form or the request is pinned to another inbox. */
  lemma CursorRoundTrip(codec: Codec, c: MessageCursor, pinned: Option<string>)
    requires Faithful(codec) && !HasNul(c.id) && !HasNul(c.inbox)
    ensures DecodeCursor(codec, EncodeCursor(codec, c), pinned) ==
      if !Datable(c.nanos / NANOS_PER_MILLI) then Err(WrongType("timestamp"))
      else if pinned.Some? && !EqFold(c.inbox, pinned.value) then Err(WrongScope)
      else Ok(MessageCursor(c.id, Lower(c.inbox), c.nanos / NANOS_PER_MILLI * NANOS_PER_MILLI))
  {
    var fields := map["message_id" := c.id, "inbox_id" := c.inbox, "timestamp" := EncodeTimestamp(codec, c.nanos)];
    assert codec.decode(codec.encode(fields)) == Some(fields);
    var ms := c.nanos / NANOS_PER_MILLI;
    assert codec.parse(codec.render(ms)) == if Datable(ms) then Some(ms * NANOS_PER_MILLI) else None;
    LowerIdempotent(c.inbox);
  }

  /** Which texts are tokens here: exactly those that carry all three fields, no NUL, a time and, where the
      request is pinned, its inbox; a refusal tells the first of these that fails. */
  lemma TokenIsAcceptedIff(codec: Codec, token: string, pinned: Option<string>)
    ensures var r, f := DecodeCursor(codec, token, pinned), codec.decode(token);
      && (r.Ok? <==>
            && f.Some? && {"message_id", "inbox_id", "timestamp"} <= f.value.Keys
            && !HasNul(f.value["message_id"]) && !HasNul(f.value["inbox_id"])
            && codec.parse(f.value["timestamp"]).Some?
            && (pinned.Some? ==> EqFold(f.value["inbox_id"], pinned.value)))
      && (r.Ok? ==>
            && r.value.id == f.value["message_id"] && r.value.inbox == Lower(f.value["inbox_id"])
            && Some(r.value.nanos) == codec.parse(f.value["timestamp"]))
      && (r.Err? ==>
            match r.error
            case Undecodable => f.None?
            case MissingField(name) => f.Some? && name !in f.value && name in {"message_id", "inbox_id", "timestamp"}
            case ForbiddenByte(name) => f.Some? && name in f.value && HasNul(f.value[name])
            case WrongType(name) => f.Some? && name in f.value && codec.parse(f.value[name]).None?
            case WrongScope => f.Some? && "inbox_id" in f.value && pinned.Some?)
    ensures forall c: MessageCursor :: Faithful(codec) ==>
      codec.decode(EncodeCursor(codec, c)) == Some(
        map["message_id" := c.id, "inbox_id" := c.inbox, "timestamp" := codec.render(c.nanos / 1_000_000)])
  {
    if codec.decode(token).Some? && "inbox_id" in codec.decode(token).value {
      LowerIdempotent(codec.decode(token).value["inbox_id"]);
    }
  }

  // ---- the table -------------------------------------------------------------------------------

  /** Keyed by primary key, inboxes folded by `Insert`, and no text column holds a NUL. */
  ghost predicate ValidTable(rows: Table) {
    forall k :: k in rows ==>
      && k == (rows[k].inbox, rows[k].id)
      && Lower(rows[k].inbox) == rows[k].inbox
      && Storable(rows[k])
  }

  /** The WHERE clause of a listing, less the keyset comparison. */
  predicate Selected(m: Message, filter: Scopes.ScopeFilter, excluded: seq<string>) {
    Scopes.PinsMatch(filter, m) && forall l | l in m.labels :: l !in excluded
  }

  function SelectedKeys(rows: Table, filter: Scopes.ScopeFilter, excluded: seq<string>): set<MsgKey> {
    set k | k in rows && Selected(rows[k], filter, excluded) :: SortKey(rows[k])
  }

  datatype MessagePage = MessagePage(items: seq<Message>, next: Option<string>)

  datatype Query = Query(limit: nat, direction: Direction, cursor: Option<MessageCursor>)

  /** A cursor carrying a NUL never came from `DecodeCursor`. */
  function CursorError(cursor: Option<MessageCursor>): Option<TokenError> {
    if cursor.Some? && HasNul(cursor.value.inbox) then Some(ForbiddenByte("cursor.inbox_id"))
    else if cursor.Some? && HasNul(cursor.value.id) then Some(ForbiddenByte("cursor.message_id"))
    else None
  }

  function RowsOf(rows: Table, keys: seq<MsgKey>): seq<Message>
    requires forall k :: k in keys ==> (k.inbox, k.id) in rows
  {
    if keys == [] then [] else [rows[(keys[0].inbox, keys[0].id)]] + RowsOf(rows, keys[1..])
  }

  function TokenOf(codec: Codec, k: MsgKey): string {
    EncodeCursor(codec, MessageCursor(k.id, k.inbox, k.nanos))
  }

  lemma SelectedKeysAreRows(rows: Table, filter: Scopes.ScopeFilter, excluded: seq<string>, k: MsgKey)
    requires ValidTable(rows) && k in SelectedKeys(rows, filter, excluded)
    ensures (k.inbox, k.id) in rows && SortKey(rows[(k.inbox, k.id)]) == k
    ensures Selected(rows[(k.inbox, k.id)], filter, excluded)
  {
  }

  ghost function PageKeys(text: (string, string) -> bool, rows: Table, filter: Scopes.ScopeFilter,
      excluded: seq<string>, q: Query): (p: Keyset.Page<MsgKey>)
    requires Keyset.StrictOrder(text) && ValidTable(rows)
    ensures forall k :: k in p.items ==> k in SelectedKeys(rows, filter, excluded)
    ensures p.next.Some? ==> p.next.value in p.items
  {
    DirectedIsTotal(text, q.direction);
    var less := Directed(text, q.direction);
    var cursor := if q.cursor.Some? then Some(KeyOf(q.cursor.value)) else None;
    var p := Keyset.PageOf(less, SelectedKeys(rows, filter, excluded), cursor, q.limit);
    Keyset.PageKeysAreSelected(less, SelectedKeys(rows, filter, excluded), cursor, q.limit);
    p
  }

  ghost function ListOf(codec: Codec, text: (string, string) -> bool, rows: Table, filter: Scopes.ScopeFilter,
      excluded: seq<string>, q: Query): Result<MessagePage, TokenError>
    requires Keyset.StrictOrder(text) && ValidTable(rows)
  {
    if q.limit == 0 || (filter.inbox.Some? && HasNul(filter.inbox.value)) then Ok(MessagePage([], None))
    else if CursorError(q.cursor).Some? then Err(CursorError(q.cursor).value)
    else
      var p := PageKeys(text, rows, filter, excluded, q);
      Ok(MessagePage(RowsOf(rows, p.items), if p.next.Some? then Some(TokenOf(codec, p.next.value)) else None))
  }

  /** A guard of ours, the database refusing to encode a text, or a primary key already there. */
  datatype StoreError = InvalidValue(field: string) | Unencodable | DuplicateKey

  /** The four columns the code itself guards. */
  predicate Guarded(m: Message) {
    HasNul(m.inbox) || HasNul(m.id) || !CleanText(m.inReplyTo) || !Clean(Listed(m.references))
  }

  /** What inserting a row answers: our own guards first, then the database's. */
  function InsertOutcome(m: Message, taken: bool): (r: Result<(), StoreError>)
    ensures r.Ok? <==> Storable(m) && !taken
    ensures r == Err(DuplicateKey) <==> Storable(m) && taken
    ensures r.Err? && r.error.InvalidValue? <==> Guarded(m)
    ensures r == Err(InvalidValue("inbox_id")) <==> HasNul(m.inbox)
    ensures r == Err(InvalidValue("message_id")) <==> HasNul(m.id) && !HasNul(m.inbox)
    ensures r == Err(InvalidValue("in_reply_to")) <==> !CleanText(m.inReplyTo) && !HasNul(m.inbox) && !HasNul(m.id)
  {
    if HasNul(m.inbox) then Err(InvalidValue("inbox_id"))
    else if HasNul(m.id) then Err(InvalidValue("message_id"))
    else if !CleanText(m.inReplyTo) then Err(InvalidValue("in_reply_to"))
    else if !Clean(Listed(m.references)) then Err(InvalidValue("references"))
    else if !Storable(m) then Err(Unencodable)
    else if taken then Err(DuplicateKey)
    else Ok(())
  }

  predicate InWindow(rows: Table, filter: Scopes.ScopeFilter, inbox: string, id: string) {
    && !HasNul(inbox) && !HasNul(id) && (filter.inbox.Some? ==> !HasNul(filter.inbox.value))
    && (Lower(inbox), id) in rows && Scopes.PinsMatch(filter, rows[(Lower(inbox), id)])
  }

  /** Get, Update and Delete reach a row only where the window admits it, whatever the case of the inbox. */
  lemma WindowIsAdmission(rows: Table, filter: Scopes.ScopeFilter, inbox: string, id: string)
    requires ValidTable(rows)
    requires filter.inbox.Some? ==> Lower(filter.inbox.value) == filter.inbox.value
    ensures InWindow(rows, filter, inbox, id) <==>
      exists k :: k in rows && EqFold(k.0, inbox) && k.1 == id && Scopes.Admits(filter, Scopes.PlaceOf(rows[k]))
  {
    LowerIdempotent(inbox);
    LowerKeepsNul(inbox);
    forall k | k in rows ensures Scopes.PinsMatch(filter, rows[k]) <==> Scopes.Admits(filter, Scopes.PlaceOf(rows[k])) {
      Scopes.PinsAreAdmission(filter, rows[k]);
    }
    hide Scopes.PinsMatch, Scopes.Admits;
    if (Lower(inbox), id) in rows {
      WindowNulls(rows, filter, (Lower(inbox), id));
    }
  }

  /** What holds a NUL names no stored row. */
  lemma WindowNulls(rows: Table, filter: Scopes.ScopeFilter, k: PrimaryKey)
    requires ValidTable(rows) && k in rows
    ensures !HasNul(k.0) && !HasNul(k.1)
    ensures Scopes.PinsMatch(filter, rows[k]) && filter.inbox.Some? ==> !HasNul(filter.inbox.value)
  {
  }

  class MessageStore {
    var rows: Table

    ghost predicate Valid()
      reads this
    {
      ValidTable(rows)
    }

    constructor ()
      ensures Valid() && rows == map[]
    {
      rows := map[];
    }

    method Insert(m: Message) returns (r: Result<(), StoreError>)
      requires Valid()
      modifies this
      ensures Valid()
      ensures r == InsertOutcome(m, (Lower(m.inbox), m.id) in old(rows))
      ensures r.Ok? ==> rows == old(rows)[(Lower(m.inbox), m.id) := m.(inbox := Lower(m.inbox))]
      ensures r.Err? ==> rows == old(rows)
    {
      if HasNul(m.inbox) { return Err(InvalidValue("inbox_id")); }
      if HasNul(m.id) { return Err(InvalidValue("message_id")); }
      if m.inReplyTo.Some? && HasNul(m.inReplyTo.value) { return Err(InvalidValue("in_reply_to")); }
      if exists x | x in Listed(m.references) :: HasNul(x) { return Err(InvalidValue("references")); }
      var inbox := Lower(m.inbox);
      LowerIdempotent(m.inbox);
      LowerKeepsNul(m.inbox);
      if !Storable(m) { return Err(Unencodable); }
      if (inbox, m.id) in rows { return Err(DuplicateKey); }
      rows := rows[(inbox, m.id) := m.(inbox := inbox)];
      return Ok(());
    }

    method Get(filter: Scopes.ScopeFilter, inbox: string, id: string,
        excluded: seq<string>) returns (r: Option<Message>)
      requires Valid()
      ensures r.Some? <==> InWindow(rows, filter, inbox, id) && Selected(rows[(Lower(inbox), id)], filter, excluded)
      ensures r.Some? ==> r.value == rows[(Lower(inbox), id)]
    {
      if HasNul(inbox) || HasNul(id) || (filter.inbox.Some? && HasNul(filter.inbox.value)) { return None; }
      var key := (Lower(inbox), id);
      if key in rows && Selected(rows[key], filter, excluded) { return Some(rows[key]); }
      return None;
    }

    /** Fetch one row more than asked for, truncate, and anchor the token on the last row kept. */
    method List(codec: Codec, text: (string, string) -> bool, filter: Scopes.ScopeFilter, excluded: seq<string>,
        q: Query)
      returns (r: Result<MessagePage, TokenError>)
      requires Valid() && Keyset.StrictOrder(text)
      ensures r == ListOf(codec, text, rows, filter, excluded, q)
    {
      hide Keyset.StrictOrder, Keyset.InOrder, Keyset.Ascending, Directed, SelectedKeys, TokenOf, RowsOf, ValidTable;
      if q.limit == 0 { return Ok(MessagePage([], None)); }
      if filter.inbox.Some? && HasNul(filter.inbox.value) { return Ok(MessagePage([], None)); }
      if q.cursor.Some? {
        if HasNul(q.cursor.value.inbox) { return Err(ForbiddenByte("cursor.inbox_id")); }
        if HasNul(q.cursor.value.id) { return Err(ForbiddenByte("cursor.message_id")); }
      }
      DirectedIsTotal(text, q.direction);
      var less := Directed(text, q.direction);
      var matching := SelectedKeys(rows, filter, excluded);
      var cursor := if q.cursor.Some? then Some(KeyOf(q.cursor.value)) else None;
      var fetched := Keyset.Fetch(less, matching, cursor, Keyset.FetchLimit(q.limit));
      var hasMore := |fetched| > q.limit;
      var kept := Keyset.Take(fetched, q.limit);
      ghost var page := PageKeys(text, rows, filter, excluded, q);
      assert page.items == kept;
      forall k | k in kept ensures (k.inbox, k.id) in rows {
        SelectedKeysAreRows(rows, filter, excluded, k);
      }
      var next := None;
      if hasMore {
        next := Some(TokenOf(codec, kept[|kept| - 1]));
      }
      return Ok(MessagePage(RowsOf(rows, kept), next));
    }

    /** Read the row, apply the mutation, write it back; outside the window it is absent. A new label that
        the database cannot encode rolls the update back. */
    method Update(filter: Scopes.ScopeFilter, inbox: string, id: string, add: seq<string>, remove: seq<string>)
      returns (r: Result<Option<seq<string>>, StoreError>)
      requires Valid()
      modifies this
      ensures Valid()
      ensures r.Err? <==> InWindow(old(rows), filter, inbox, id) && exists l :: l in add && l !in remove && HasNul(l)
      ensures r.Ok? ==> (r.value.Some? <==> InWindow(old(rows), filter, inbox, id))
      ensures r.Err? || r.value.None? ==> rows == old(rows)
      ensures r.Ok? && r.value.Some? ==>
        && r.value.value == Labels.Mutated(old(rows)[(Lower(inbox), id)].labels, add, remove)
        && rows == old(rows)[(Lower(inbox), id) := old(rows)[(Lower(inbox), id)].(labels := r.value.value)]
    {
      if HasNul(inbox) || HasNul(id) || (filter.inbox.Some? && HasNul(filter.inbox.value)) { return Ok(None); }
      var key := (Lower(inbox), id);
      if key !in rows || !Scopes.PinsMatch(filter, rows[key]) { return Ok(None); }
      var next := Labels.ApplyMutation(rows[key].labels, add, remove);
      Labels.MutationMeans(rows[key].labels, add, remove);
      if !Clean(next) { return Err(Unencodable); }
      rows := rows[key := rows[key].(labels := next)];
      return Ok(Some(next));
    }

    method Delete(filter: Scopes.ScopeFilter, inbox: string, id: string) returns (gone: bool)
      requires Valid()
      modifies this
      ensures Valid()
      ensures gone <==> InWindow(old(rows), filter, inbox, id)
      ensures rows == if gone then old(rows) - {(Lower(inbox), id)} else old(rows)
    {
      if HasNul(inbox) || HasNul(id) || (filter.inbox.Some? && HasNul(filter.inbox.value)) { return false; }
      var key := (Lower(inbox), id);
      if key !in rows || !Scopes.PinsMatch(filter, rows[key]) { return false; }
      rows := rows - {key};
      return true;
    }
  }

  // ---- what a page is, said of its rows --------------------------------------------------------

  /** Oldest first, or newest first; rows of one time by inbox and then by id. */
  predicate Precedes(text: (string, string) -> bool, dir: Direction, a: MsgKey, b: MsgKey) {
    var ties := if dir.Ascending? then text(a.inbox, b.inbox) || (a.inbox == b.inbox && text(a.id, b.id))
                else text(b.inbox, a.inbox) || (a.inbox == b.inbox && text(b.id, a.id));
    || (if dir.Ascending? then a.nanos < b.nanos else a.nanos > b.nanos)
    || (a.nanos == b.nanos && ties)
  }

  lemma DirectionMeans(text: (string, string) -> bool, dir: Direction)
    ensures forall a, b :: Directed(text, dir)(a, b) <==> Precedes(text, dir, a, b)
  {
  }

  /** A row the request is after: in the window, no label excluded, and behind the cursor. */
  predicate Wanted(text: (string, string) -> bool, rows: Table, filter: Scopes.ScopeFilter, excluded: seq<string>,
      q: Query, m: Message) {
    && (m.inbox, m.id) in rows && rows[(m.inbox, m.id)] == m && Selected(m, filter, excluded)
    && (q.cursor.Some? ==>
          Precedes(text, q.direction, MsgKey(q.cursor.value.nanos, q.cursor.value.inbox, q.cursor.value.id),
                   MsgKey(m.at * 1_000_000, m.inbox, m.id)))
  }

  ghost predicate InRowOrder(text: (string, string) -> bool, dir: Direction, items: seq<Message>) {
    forall i, j :: 0 <= i < j < |items| ==>
      && (if dir.Ascending? then items[i].at <= items[j].at else items[i].at >= items[j].at)
      && Precedes(text, dir, MsgKey(items[i].at * 1_000_000, items[i].inbox, items[i].id),
                  MsgKey(items[j].at * 1_000_000, items[j].inbox, items[j].id))
  }

  /** The first `limit` wanted rows, in order, and a token exactly when another one follows. */
  ghost predicate IsPage(codec: Codec, text: (string, string) -> bool, rows: Table, filter: Scopes.ScopeFilter,
      excluded: seq<string>, q: Query, page: MessagePage) {
    && InRowOrder(text, q.direction, page.items) && |page.items| <= q.limit
    && (forall m :: m in page.items ==> Wanted(text, rows, filter, excluded, q, m))
    && (forall m :: Wanted(text, rows, filter, excluded, q, m) && m !in page.items ==>
          page.next.Some? && |page.items| == q.limit && InRowOrder(text, q.direction, page.items + [m]))
    && (page.next.Some? ==>
          && (exists m :: Wanted(text, rows, filter, excluded, q, m) && m !in page.items)
          && page.items != []
          && var last := page.items[|page.items| - 1];
             page.next.value == EncodeCursor(codec, MessageCursor(last.id, last.inbox, last.at * 1_000_000)))
  }

  lemma {:induction false} RowsOfMeans(rows: Table, keys: seq<MsgKey>)
    requires forall k :: k in keys ==> (k.inbox, k.id) in rows
    ensures |RowsOf(rows, keys)| == |keys|
    ensures forall i :: 0 <= i < |keys| ==> RowsOf(rows, keys)[i] == rows[(keys[i].inbox, keys[i].id)]
  {
    if keys == [] {
    } else {
      RowsOfMeans(rows, keys[1..]);
    }
  }

  predicate WantedKey(text: (string, string) -> bool, rows: Table, filter: Scopes.ScopeFilter,
      excluded: seq<string>, q: Query, k: MsgKey) {
    && (k.inbox, k.id) in rows && SortKey(rows[(k.inbox, k.id)]) == k
    && Wanted(text, rows, filter, excluded, q, rows[(k.inbox, k.id)])
  }

  lemma WantedKeys(text: (string, string) -> bool, rows: Table, filter: Scopes.ScopeFilter, excluded: seq<string>,
      q: Query, k: MsgKey)
    requires ValidTable(rows)
    ensures var cursor := if q.cursor.Some? then Some(KeyOf(q.cursor.value)) else None;
      var a := SelectedKeys(rows, filter, excluded);
      k in Keyset.After(Directed(text, q.direction), a, cursor) <==> WantedKey(text, rows, filter, excluded, q, k)
  {
    DirectionMeans(text, q.direction);
    var a := SelectedKeys(rows, filter, excluded);
    hide Directed, Precedes, Selected;
    if k in a {
      SelectedKeysAreRows(rows, filter, excluded, k);
    }
  }

  /** The keys of all wanted rows, in order. */
  ghost predicate Enumerates(text: (string, string) -> bool, rows: Table, filter: Scopes.ScopeFilter,
      excluded: seq<string>, q: Query, rest: seq<MsgKey>) {
    && (forall i, j :: 0 <= i < j < |rest| ==> Precedes(text, q.direction, rest[i], rest[j]) && rest[i] != rest[j])
    && (forall k :: k in rest <==> WantedKey(text, rows, filter, excluded, q, k))
  }

  lemma PageCutsTheListing(text: (string, string) -> bool, rows: Table, filter: Scopes.ScopeFilter,
      excluded: seq<string>, q: Query) returns (rest: seq<MsgKey>)
    requires Keyset.StrictOrder(text) && ValidTable(rows) && 1 <= q.limit
    requires q.limit < I64_MAX || |SelectedKeys(rows, filter, excluded)| <= I64_MAX
    ensures Enumerates(text, rows, filter, excluded, q, rest)
    ensures Keyset.CutShort(PageKeys(text, rows, filter, excluded, q), rest, q.limit)
  {
    hide *;
    var less := Directed(text, q.direction);
    DirectedIsTotal(text, q.direction);
    var cursor := if q.cursor.Some? then Some(KeyOf(q.cursor.value)) else None;
    rest := Keyset.PageIsCut(less, SelectedKeys(rows, filter, excluded), cursor, q.limit);
    PageKeysAre(text, rows, filter, excluded, q);
    forall k ensures k in rest <==> WantedKey(text, rows, filter, excluded, q, k) {
      WantedKeys(text, rows, filter, excluded, q, k);
    }
    ListingEnumerates(text, rows, filter, excluded, q, rest);
  }

  lemma PageKeysAre(text: (string, string) -> bool, rows: Table, filter: Scopes.ScopeFilter, excluded: seq<string>,
      q: Query)
    requires Keyset.StrictOrder(text) && ValidTable(rows) && Keyset.StrictOrder(Directed(text, q.direction))
    ensures PageKeys(text, rows, filter, excluded, q)
      == Keyset.PageOf(Directed(text, q.direction), SelectedKeys(rows, filter, excluded),
                       if q.cursor.Some? then Some(KeyOf(q.cursor.value)) else None, q.limit)
    ensures forall k :: k in PageKeys(text, rows, filter, excluded, q).items ==> (k.inbox, k.id) in rows
  {
    hide Keyset.StrictOrder, Keyset.PageOf, Directed;
  }

  lemma ListingEnumerates(text: (string, string) -> bool, rows: Table, filter: Scopes.ScopeFilter,
      excluded: seq<string>, q: Query, rest: seq<MsgKey>)
    requires forall i, j :: 0 <= i < j < |rest| ==> Directed(text, q.direction)(rest[i], rest[j]) && rest[i] != rest[j]
    requires forall k :: k in rest <==> WantedKey(text, rows, filter, excluded, q, k)
    ensures Enumerates(text, rows, filter, excluded, q, rest)
  {
    DirectionMeans(text, q.direction);
    hide Directed, Precedes, WantedKey;
  }

  /** Listing, said of the rows: what comes, in which direction, up to where, and how the rest is named. */
  lemma ListMeans(codec: Codec, text: (string, string) -> bool, rows: Table, filter: Scopes.ScopeFilter,
      excluded: seq<string>, q: Query)
    requires Keyset.StrictOrder(text) && ValidTable(rows)
    requires q.limit < I64_MAX || |SelectedKeys(rows, filter, excluded)| <= I64_MAX
    ensures var r := ListOf(codec, text, rows, filter, excluded, q);
      var silent := q.limit == 0 || (filter.inbox.Some? && HasNul(filter.inbox.value));
      && (silent ==> r == Ok(MessagePage([], None)))
      && (r.Err? <==> !silent && q.cursor.Some? && (HasNul(q.cursor.value.inbox) || HasNul(q.cursor.value.id)))
      && (r.Ok? && !silent ==> IsPage(codec, text, rows, filter, excluded, q, r.value))
  {
    hide IsPage, Keyset.StrictOrder, SelectedKeys, ValidTable, PageKeys, RowsOf, TokenOf;
    var r := ListOf(codec, text, rows, filter, excluded, q);
    if r.Ok? && q.limit > 0 && !(filter.inbox.Some? && HasNul(filter.inbox.value)) {
      PageIsRows(codec, text, rows, filter, excluded, q);
    }
  }

  lemma PageIsRows(codec: Codec, text: (string, string) -> bool, rows: Table, filter: Scopes.ScopeFilter,
      excluded: seq<string>, q: Query)
    requires Keyset.StrictOrder(text) && ValidTable(rows) && 1 <= q.limit
    requires q.limit < I64_MAX || |SelectedKeys(rows, filter, excluded)| <= I64_MAX
    ensures var p := PageKeys(text, rows, filter, excluded, q);
      IsPage(codec, text, rows, filter, excluded, q,
        MessagePage(RowsOf(rows, p.items), if p.next.Some? then Some(TokenOf(codec, p.next.value)) else None))
  {
    hide *;
    var rest := PageCutsTheListing(text, rows, filter, excluded, q);
    DirectedIsTotal(text, q.direction);
    PageKeysAre(text, rows, filter, excluded, q);
    var p := PageKeys(text, rows, filter, excluded, q);
    RowsOfMeans(rows, p.items);
    CutIsPage(codec, text, rows, filter, excluded, q, rest, p, RowsOf(rows, p.items));
  }

  lemma CutIsPage(codec: Codec, text: (string, string) -> bool, rows: Table, filter: Scopes.ScopeFilter,
      excluded: seq<string>, q: Query, rest: seq<MsgKey>, p: Keyset.Page<MsgKey>, items: seq<Message>)
    requires Enumerates(text, rows, filter, excluded, q, rest) && Keyset.CutShort(p, rest, q.limit) && 1 <= q.limit
    requires |items| == |p.items|
    requires forall i :: 0 <= i < |items| ==>
      (p.items[i].inbox, p.items[i].id) in rows && items[i] == rows[(p.items[i].inbox, p.items[i].id)]
    ensures IsPage(codec, text, rows, filter, excluded, q,
      MessagePage(items, if p.next.Some? then Some(TokenOf(codec, p.next.value)) else None))
  {
    forall i | 0 <= i < |items|
      ensures SortKey(items[i]) == rest[i] && (rest[i].inbox, rest[i].id) in rows
      ensures items[i] == rows[(rest[i].inbox, rest[i].id)]
    {
      assert p.items[i] == rest[i] && rest[i] in rest;
      assert WantedKey(text, rows, filter, excluded, q, rest[i]);
    }
    hide Enumerates, WantedKey, Wanted, InRowOrder, SortKey, EncodeCursor, TokenOf;
    ItemsInOrder(text, rows, filter, excluded, q, rest, items);
    ItemsAreWanted(text, rows, filter, excluded, q, rest, items);
    forall m | Wanted(text, rows, filter, excluded, q, m) && m !in items
      ensures p.next.Some? && |items| == q.limit && InRowOrder(text, q.direction, items + [m])
    {
      LeftOutFollows(text, rows, filter, excluded, q, rest, items, m);
    }
    if p.next.Some? {
      NextIsWanted(text, rows, filter, excluded, q, rest, items);
      NextNamesTheLast(codec, p.next.value, items[|items| - 1]);
    }
  }

  lemma NextNamesTheLast(codec: Codec, k: MsgKey, last: Message)
    ensures SortKey(last) == k ==>
      TokenOf(codec, k) == EncodeCursor(codec, MessageCursor(last.id, last.inbox, last.at * 1_000_000))
  {
  }

  lemma ItemsInOrder(text: (string, string) -> bool, rows: Table, filter: Scopes.ScopeFilter, excluded: seq<string>,
      q: Query, rest: seq<MsgKey>, items: seq<Message>)
    requires Enumerates(text, rows, filter, excluded, q, rest) && |items| <= |rest|
    requires forall i :: 0 <= i < |items| ==> SortKey(items[i]) == rest[i]
    ensures InRowOrder(text, q.direction, items)
  {
    hide WantedKey;
    forall i, j | 0 <= i < j < |items|
      ensures if q.direction.Ascending? then items[i].at <= items[j].at else items[i].at >= items[j].at
      ensures Precedes(text, q.direction, SortKey(items[i]), SortKey(items[j]))
    {
      assert Precedes(text, q.direction, rest[i], rest[j]);
    }
  }

  lemma ItemsAreWanted(text: (string, string) -> bool, rows: Table, filter: Scopes.ScopeFilter,
      excluded: seq<string>, q: Query, rest: seq<MsgKey>, items: seq<Message>)
    requires Enumerates(text, rows, filter, excluded, q, rest) && |items| <= |rest|
    requires forall i :: 0 <= i < |items| ==>
      SortKey(items[i]) == rest[i] && (rest[i].inbox, rest[i].id) in rows
      && items[i] == rows[(rest[i].inbox, rest[i].id)]
    ensures forall m :: m in items ==> Wanted(text, rows, filter, excluded, q, m)
  {
    forall m | m in items ensures Wanted(text, rows, filter, excluded, q, m) {
      var i :| 0 <= i < |items| && items[i] == m;
      assert rest[i] in rest;
      assert WantedKey(text, rows, filter, excluded, q, rest[i]);
      hide Wanted, Enumerates;
    }
  }

  lemma LeftOutFollows(text: (string, string) -> bool, rows: Table, filter: Scopes.ScopeFilter,
      excluded: seq<string>, q: Query, rest: seq<MsgKey>, items: seq<Message>, m: Message)
    requires Enumerates(text, rows, filter, excluded, q, rest) && |items| <= |rest|
    requires forall i :: 0 <= i < |items| ==>
      SortKey(items[i]) == rest[i] && (rest[i].inbox, rest[i].id) in rows
      && items[i] == rows[(rest[i].inbox, rest[i].id)]
    requires Wanted(text, rows, filter, excluded, q, m) && m !in items
    ensures |items| < |rest| && InRowOrder(text, q.direction, items + [m])
  {
    var k := SortKey(m);
    assert WantedKey(text, rows, filter, excluded, q, k);
    var p :| 0 <= p < |rest| && rest[p] == k;
    assert forall i :: 0 <= i < |items| ==> items[i] in items && rest[i] != k;
    hide Wanted, WantedKey;
    var more := items + [m];
    forall i, j | 0 <= i < j < |more|
      ensures if q.direction.Ascending? then more[i].at <= more[j].at else more[i].at >= more[j].at
      ensures Precedes(text, q.direction, SortKey(more[i]), SortKey(more[j]))
    {
      assert Precedes(text, q.direction, rest[i], rest[if j < |items| then j else p]);
    }
  }

  lemma NextIsWanted(text: (string, string) -> bool, rows: Table, filter: Scopes.ScopeFilter, excluded: seq<string>,
      q: Query, rest: seq<MsgKey>, items: seq<Message>)
    requires Enumerates(text, rows, filter, excluded, q, rest) && |items| < |rest|
    requires forall i :: 0 <= i < |items| ==> SortKey(items[i]) == rest[i]
    ensures exists m :: Wanted(text, rows, filter, excluded, q, m) && m !in items
  {
    var k := rest[|items|];
    assert k in rest;
    assert WantedKey(text, rows, filter, excluded, q, k);
    var m := rows[(k.inbox, k.id)];
    forall i | 0 <= i < |items| ensures items[i] != m {
      assert rest[i] != k;
    }
    hide Enumerates, WantedKey;
    assert Wanted(text, rows, filter, excluded, q, m) && m !in items;
  }

  // ---- walking through tokens ------------------------------------------------------------------

  /** Everything about a listing but the page token. */
  datatype Request = Request(filter: Scopes.ScopeFilter, excluded: seq<string>, limit: nat, direction: Direction)

  /** The window of a resolved mount whose inbox, if any, can exist. */
  predicate Proper(r: Request) {
    && 1 <= r.limit
    && (r.filter.inbox.Some? ==> Lower(r.filter.inbox.value) == r.filter.inbox.value && !HasNul(r.filter.inbox.value))
  }

  /** One HTTP request: decode the token at the mount, then list. */
  ghost function Serve(codec: Codec, text: (string, string) -> bool, rows: Table, r: Request,
      token: Option<string>): Result<MessagePage, TokenError>
    requires Keyset.StrictOrder(text) && ValidTable(rows)
  {
    if token.None? then ListOf(codec, text, rows, r.filter, r.excluded, Query(r.limit, r.direction, None))
    else match DecodeCursor(codec, token.value, r.filter.inbox)
      case Err(e) => Err(e)
      case Ok(c) => ListOf(codec, text, rows, r.filter, r.excluded, Query(r.limit, r.direction, Some(c)))
  }

  function KeysOfRows(items: seq<Message>): seq<MsgKey> {
    if items == [] then [] else [SortKey(items[0])] + KeysOfRows(items[1..])
  }

  lemma {:induction false} KeysOfRowsOf(rows: Table, keys: seq<MsgKey>)
    requires forall k :: k in keys ==> (k.inbox, k.id) in rows && SortKey(rows[(k.inbox, k.id)]) == k
    ensures KeysOfRows(RowsOf(rows, keys)) == keys
  {
    if keys == [] {
    } else {
      KeysOfRowsOf(rows, keys[1..]);
    }
  }

  ghost function KeyTables(tables: nat -> Table, r: Request): nat -> set<MsgKey> {
    (i: nat) => SelectedKeys(tables(i), r.filter, r.excluded)
  }

  /** The endpoint as its clients see it, with each row named by its sort key. */
  ghost function Endpoint(codec: Codec, text: (string, string) -> bool, rows: Table, r: Request): Keyset.Server<MsgKey>
    requires Keyset.StrictOrder(text) && ValidTable(rows)
  {
    (token: Option<string>) =>
      match Serve(codec, text, rows, r, token)
      case Err(_) => None
      case Ok(page) => Some((KeysOfRows(page.items), page.next))
  }

  /** The key a token resumes after, if the mount accepts it. */
  ghost function Resume(codec: Codec, r: Request): string -> Option<MsgKey> {
    (token: string) =>
      match DecodeCursor(codec, token, r.filter.inbox)
      case Err(_) => None
      case Ok(c) => if CursorError(Some(c)).Some? then None else Some(KeyOf(c))
  }

  /** The keys a token can name: the year has four digits. */
  function Nameable(): MsgKey -> bool {
    (k: MsgKey) => Datable(k.nanos / NANOS_PER_MILLI)
  }

  /** A token issued at a mount decodes there to the key it was issued for, iff that key can be named. */
  lemma IssuedTokensResume(codec: Codec, rows: Table, r: Request, k: MsgKey)
    requires Faithful(codec) && ValidTable(rows) && Proper(r)
    requires k in SelectedKeys(rows, r.filter, r.excluded)
    ensures Resume(codec, r)(TokenOf(codec, k)) == if Nameable()(k) then Some(k) else None
  {
    SelectedKeysAreRows(rows, r.filter, r.excluded, k);
    CursorRoundTrip(codec, MessageCursor(k.id, k.inbox, k.nanos), r.filter.inbox);
  }

  lemma EndpointAnswers(codec: Codec, text: (string, string) -> bool, rows: Table, r: Request,
      cursor: Option<MessageCursor>)
    requires Faithful(codec) && Keyset.StrictOrder(text) && Proper(r) && ValidTable(rows)
    requires CursorError(cursor).None?
    ensures var listed := ListOf(codec, text, rows, r.filter, r.excluded, Query(r.limit, r.direction, cursor));
      var page := PageKeys(text, rows, r.filter, r.excluded, Query(r.limit, r.direction, cursor));
      && listed.Ok?
      && Keyset.AnswersPage(Some((KeysOfRows(listed.value.items), listed.value.next)), page,
                            Resume(codec, r), Nameable())
  {
    hide Keyset.StrictOrder, Keyset.PageOf, TokenOf, Faithful, Resume, Nameable;
    var page := PageKeys(text, rows, r.filter, r.excluded, Query(r.limit, r.direction, cursor));
    forall k | k in page.items ensures (k.inbox, k.id) in rows && SortKey(rows[(k.inbox, k.id)]) == k {
      SelectedKeysAreRows(rows, r.filter, r.excluded, k);
    }
    KeysOfRowsOf(rows, page.items);
    if page.next.Some? {
      IssuedTokensResume(codec, rows, r, page.next.value);
    }
  }

  lemma EndpointIsHonest(codec: Codec, text: (string, string) -> bool, rows: Table, r: Request)
    requires Faithful(codec) && Keyset.StrictOrder(text) && Proper(r) && ValidTable(rows)
    requires Keyset.StrictOrder(Directed(text, r.direction))
    ensures Keyset.Honest(Directed(text, r.direction), SelectedKeys(rows, r.filter, r.excluded), r.limit,
                          Endpoint(codec, text, rows, r), Resume(codec, r), Nameable())
  {
    hide Keyset.StrictOrder, Keyset.PageOf, Faithful, ListOf, Keyset.AnswersPage, DecodeCursor, KeysOfRows,
        SelectedKeys, Nameable;
    EndpointAnswers(codec, text, rows, r, None);
    forall t | Resume(codec, r)(t).Some?
      ensures Keyset.AnswersPage(Endpoint(codec, text, rows, r)(Some(t)),
        Keyset.PageOf(Directed(text, r.direction), SelectedKeys(rows, r.filter, r.excluded),
                      Resume(codec, r)(t), r.limit),
        Resume(codec, r), Nameable())
    {
      var c := DecodeCursor(codec, t, r.filter.inbox).value;
      EndpointAnswers(codec, text, rows, r, Some(c));
    }
    forall t | Resume(codec, r)(t).None? ensures Endpoint(codec, text, rows, r)(Some(t)).None? {
      UnresumedIsRefused(codec, text, rows, r, t);
    }
  }

  lemma UnresumedIsRefused(codec: Codec, text: (string, string) -> bool, rows: Table, r: Request, token: string)
    requires Keyset.StrictOrder(text) && Proper(r) && ValidTable(rows) && Resume(codec, r)(token).None?
    ensures Endpoint(codec, text, rows, r)(Some(token)).None?
  {
    hide Keyset.StrictOrder, DecodeCursor;
  }

  /** The keys of a set in the requested direction. */
  ghost function InOrder(text: (string, string) -> bool, dir: Direction, keys: set<MsgKey>): seq<MsgKey>
    requires Keyset.StrictOrder(text)
  {
    DirectedIsTotal(text, dir);
    Keyset.InOrder(Directed(text, dir), keys)
  }

  /** Strictly oldest first, or strictly newest first. */
  ghost predicate KeysInOrder(text: (string, string) -> bool, dir: Direction, keys: seq<MsgKey>) {
    forall i, j :: 0 <= i < j < |keys| ==>
      && (if dir.Ascending? then keys[i].nanos <= keys[j].nanos else keys[i].nanos >= keys[j].nanos)
      && Precedes(text, dir, keys[i], keys[j]) && keys[i] != keys[j]
  }

  lemma OrderedAscends(text: (string, string) -> bool, dir: Direction, keys: set<MsgKey>)
    requires Keyset.StrictOrder(text)
    ensures KeysInOrder(text, dir, InOrder(text, dir, keys))
  {
    DirectedIsTotal(text, dir);
    AscendsInOrder(text, dir, InOrder(text, dir, keys));
  }

  lemma AscendsInOrder(text: (string, string) -> bool, dir: Direction, keys: seq<MsgKey>)
    requires Keyset.StrictOrder(text) && Keyset.Ascending(Directed(text, dir), keys)
    ensures KeysInOrder(text, dir, keys)
  {
    DirectedIsTotal(text, dir);
    DirectionMeans(text, dir);
    Keyset.ListedOnce(Directed(text, dir), keys);
    hide Keyset.StrictOrder, Directed;
  }

  lemma PartInOrder(text: (string, string) -> bool, dir: Direction, keys: seq<MsgKey>, part: seq<MsgKey>)
    requires KeysInOrder(text, dir, keys)
    ensures part <= keys ==> KeysInOrder(text, dir, part)
  {
    hide Precedes;
  }

  /** Following `next` over an unchanging table ends with exactly the selected rows in sort order, each
      once, iff the last row of every page but the last has a four-digit year; otherwise the client is
      refused with a proper part of them. */
  lemma ClientWalkIsComplete(codec: Codec, text: (string, string) -> bool, rows: Table, r: Request)
    requires Faithful(codec) && Keyset.StrictOrder(text) && Proper(r) && ValidTable(rows)
    requires r.limit < I64_MAX || |SelectedKeys(rows, r.filter, r.excluded)| <= I64_MAX
    ensures var keys := SelectedKeys(rows, r.filter, r.excluded);
      var s := InOrder(text, r.direction, keys);
      var c := Keyset.ClientAt((_: nat) => Endpoint(codec, text, rows, r), |keys| + 1);
      && (if Keyset.PageEndsNamed(s, r.limit, Nameable()) then c == Keyset.Client(s, Keyset.Complete)
          else c.state.Refused? && c.received < s)
      && KeysInOrder(text, r.direction, c.received)
  {
    OrderedAscends(text, r.direction, SelectedKeys(rows, r.filter, r.excluded));
    hide Keyset.StrictOrder, Keyset.ClientAt, Faithful, Keyset.Honest, Keyset.PageEndsNamed, Keyset.InOrder,
        SelectedKeys, Endpoint, Resume, Nameable, Directed, ValidTable, KeysInOrder;
    DirectedIsTotal(text, r.direction);
    EndpointIsHonest(codec, text, rows, r);
    Keyset.HonestClientCompletes(Directed(text, r.direction), SelectedKeys(rows, r.filter, r.excluded), r.limit,
                                 Endpoint(codec, text, rows, r), Resume(codec, r), Nameable());
    var keys := SelectedKeys(rows, r.filter, r.excluded);
    PartInOrder(text, r.direction, InOrder(text, r.direction, keys),
                Keyset.ClientAt((_: nat) => Endpoint(codec, text, rows, r), |keys| + 1).received);
  }

  ghost function Endpoints(codec: Codec, text: (string, string) -> bool, tables: nat -> Table,
      r: Request): nat -> Keyset.Server<MsgKey>
    requires Keyset.StrictOrder(text) && forall j: nat :: ValidTable(tables(j))
  {
    (i: nat) => Endpoint(codec, text, tables(i), r)
  }

  lemma EndpointsAreHonest(codec: Codec, text: (string, string) -> bool, tables: nat -> Table, r: Request)
    requires Faithful(codec) && Keyset.StrictOrder(text) && Proper(r) && forall j: nat :: ValidTable(tables(j))
    requires Keyset.StrictOrder(Directed(text, r.direction))
    ensures forall j: nat ::
      Keyset.Honest(Directed(text, r.direction), KeyTables(tables, r)(j), r.limit,
                    Endpoints(codec, text, tables, r)(j), Resume(codec, r), Nameable())
  {
    hide Keyset.StrictOrder, Faithful, Keyset.Honest;
    forall j: nat
      ensures Keyset.Honest(Directed(text, r.direction), KeyTables(tables, r)(j), r.limit,
                            Endpoints(codec, text, tables, r)(j), Resume(codec, r), Nameable())
    {
      EndpointIsHonest(codec, text, tables(j), r);
    }
  }

  /** Every row the walk can meet has a four-digit year. */
  ghost predicate AllDatable(tables: nat -> Table, r: Request) {
    forall j: nat, k :: k in KeyTables(tables, r)(j) ==> Nameable()(k)
  }

  /** The walk's resting places up to request i, in keys no client sees, all have four-digit years. */
  ghost predicate RestsNamed(text: (string, string) -> bool, tables: nat -> Table, r: Request, i: nat)
    requires Keyset.StrictOrder(text)
  {
    DirectedIsTotal(text, r.direction);
    Keyset.NamedTo(Directed(text, r.direction), KeyTables(tables, r), r.limit, Nameable(), i)
  }

  /** Whatever is inserted, deleted or relabelled between requests, no row is received twice, the keys
      received are strictly monotone, and a walk that completes missed no row selected throughout. It is
      refused iff it comes to rest on a row no token can name, so never while all years have four digits. */
  lemma ClientWalkIsStable(codec: Codec, text: (string, string) -> bool, tables: nat -> Table, r: Request, i: nat)
    requires Faithful(codec) && Keyset.StrictOrder(text) && Proper(r) && forall j: nat :: ValidTable(tables(j))
    requires Keyset.Fits(KeyTables(tables, r), r.limit)
    ensures var c := Keyset.ClientAt(Endpoints(codec, text, tables, r), i);
      && (c.state.Refused? <==> !RestsNamed(text, tables, r, i))
      && (AllDatable(tables, r) ==> !c.state.Refused?)
      && KeysInOrder(text, r.direction, c.received)
      && (c.state.Complete? ==>
            forall k :: (forall j: nat :: j < i ==> k in KeyTables(tables, r)(j)) ==> k in c.received)
  {
    hide Keyset.StrictOrder, Keyset.ClientAt, Faithful, Keyset.Fits, Keyset.Honest, Keyset.NamedTo, Nameable;
    DirectedIsTotal(text, r.direction);
    EndpointsAreHonest(codec, text, tables, r);
    Keyset.HonestClientIsStable(Directed(text, r.direction), KeyTables(tables, r), r.limit,
                                Endpoints(codec, text, tables, r), Resume(codec, r), Nameable(), i);
    AscendsInOrder(text, r.direction, Keyset.ClientAt(Endpoints(codec, text, tables, r), i).received);
    if AllDatable(tables, r) {
      Keyset.NameableTablesAreNamed(Directed(text, r.direction), KeyTables(tables, r), r.limit, Nameable(), i);
    }
  }

  /** With deletions only, including of the very row a token names, the walk still ends: complete, unless
      it came to rest on a row no token can name. */
  lemma ClientWalkEnds(codec: Codec, text: (string, string) -> bool, tables: nat -> Table, r: Request)
    requires Faithful(codec) && Keyset.StrictOrder(text) && Proper(r) && forall j: nat :: ValidTable(tables(j))
    requires Keyset.Fits(KeyTables(tables, r), r.limit) && Keyset.OnlyDeletions(KeyTables(tables, r))
    ensures var n := |KeyTables(tables, r)(0)| + 1;
      Keyset.ClientAt(Endpoints(codec, text, tables, r), n).state
      == if RestsNamed(text, tables, r, n) then Keyset.Complete else Keyset.Refused
  {
    hide Keyset.StrictOrder, Keyset.ClientAt, Faithful, Keyset.Fits, Keyset.Honest, Keyset.NamedTo;
    DirectedIsTotal(text, r.direction);
    EndpointsAreHonest(codec, text, tables, r);
    Keyset.HonestClientEnds(Directed(text, r.direction), KeyTables(tables, r), r.limit,
                            Endpoints(codec, text, tables, r), Resume(codec, r), Nameable());
  }

  // ---- what hidden rows can influence ----------------------------------------------------------

  /** The in-memory verdict: inside the window and no label withheld. */
  predicate Visible(m: Message, filter: Scopes.ScopeFilter, access: Labels.Access) {
    Scopes.Admits(filter, Scopes.PlaceOf(m)) && Labels.Admits(m.labels, access)
  }

  function VisibleRows(rows: Table, filter: Scopes.ScopeFilter, access: Labels.Access): Table {
    map k | k in rows && Visible(rows[k], filter, access) :: rows[k]
  }

  /** The pushed-down predicate is the verdict, on every stored row. */
  lemma PushdownIsTheVerdict(rows: Table, k: PrimaryKey, filter: Scopes.ScopeFilter, access: Labels.Access)
    requires ValidTable(rows) && k in rows
    requires filter.inbox.Some? ==> Lower(filter.inbox.value) == filter.inbox.value
    ensures Selected(rows[k], filter, Labels.ExcludedLabels(access)) <==> Visible(rows[k], filter, access)
  {
    Scopes.PinsAreAdmission(filter, rows[k]);
    Labels.ExclusionIsAdmission(rows[k].labels, access);
  }

  lemma SelectedKeysAreVisible(rows: Table, filter: Scopes.ScopeFilter, access: Labels.Access)
    requires ValidTable(rows)
    requires filter.inbox.Some? ==> Lower(filter.inbox.value) == filter.inbox.value
    ensures SelectedKeys(rows, filter, Labels.ExcludedLabels(access)) ==
            set k | k in VisibleRows(rows, filter, access) :: SortKey(VisibleRows(rows, filter, access)[k])
  {
    forall k | k in rows ensures Selected(rows[k], filter, Labels.ExcludedLabels(access))
        <==> Visible(rows[k], filter, access) {
      PushdownIsTheVerdict(rows, k, filter, access);
    }
    var visible := VisibleRows(rows, filter, access);
    forall k | k in visible ensures SortKey(visible[k]) in SelectedKeys(rows, filter, Labels.ExcludedLabels(access)) {
      assert k in rows && SortKey(rows[k]) == SortKey(visible[k]);
    }
    forall key | key in SelectedKeys(rows, filter, Labels.ExcludedLabels(access))
      ensures exists k :: k in visible && SortKey(visible[k]) == key
    {
      SelectedKeysAreRows(rows, filter, Labels.ExcludedLabels(access), key);
      assert (key.inbox, key.id) in visible;
    }
  }

  lemma {:induction false} RowsOfVisible(a: Table, b: Table, keys: seq<MsgKey>)
    requires forall k :: k in keys ==>
      (k.inbox, k.id) in a && (k.inbox, k.id) in b && a[(k.inbox, k.id)] == b[(k.inbox, k.id)]
    ensures RowsOf(a, keys) == RowsOf(b, keys)
  {
    if keys == [] {
    } else {
      RowsOfVisible(a, b, keys[1..]);
    }
  }

  /** Non-interference: tables that agree on the visible rows give the same answer to every request,
      token included, so nothing hidden is counted, paged over or named in a cursor. */
  lemma HiddenRowsAreUnobservable(codec: Codec, text: (string, string) -> bool, a: Table, b: Table, r: Request,
      access: Labels.Access, token: Option<string>)
    requires Keyset.StrictOrder(text) && ValidTable(a) && ValidTable(b) && Proper(r)
    requires r.excluded == Labels.ExcludedLabels(access)
    requires VisibleRows(a, r.filter, access) == VisibleRows(b, r.filter, access)
    ensures Serve(codec, text, a, r, token) == Serve(codec, text, b, r, token)
  {
    hide Keyset.StrictOrder, Labels.ExcludedLabels, DecodeCursor;
    SelectedKeysAreVisible(a, r.filter, access);
    SelectedKeysAreVisible(b, r.filter, access);
    forall q ensures ListOf(codec, text, a, r.filter, r.excluded, q)
        == ListOf(codec, text, b, r.filter, r.excluded, q) {
      var keys := PageKeys(text, a, r.filter, r.excluded, q).items;
      forall k | k in keys
        ensures (k.inbox, k.id) in a && (k.inbox, k.id) in b && a[(k.inbox, k.id)] == b[(k.inbox, k.id)]
      {
        SelectedKeysAreRows(a, r.filter, r.excluded, k);
        PushdownIsTheVerdict(a, (k.inbox, k.id), r.filter, access);
        assert (k.inbox, k.id) in VisibleRows(a, r.filter, access);
      }
      RowsOfVisible(a, b, keys);
    }
  }
}
