/** Credential scope, request mount and the window they resolve to. */
module Scopes {
  import opened Prelude
  import opened Mail

  datatype ScopeType = OrganizationScope | PodScope | InboxScope

  datatype Identity = Identity(org: string, scopeId: string, kind: ScopeType, pod: Option<int>, inbox: Option<string>)

  datatype Scope =
    | Organization(org: string)
    | Pod(org: string, pod: int)
    | Inbox(org: string, pod: int, inbox: string)

  datatype Mount = AtOrganization | AtPod(pod: int) | AtInbox(inbox: string)

  /** Always pins an organization; pins the pod and the (lower-cased) inbox when known. */
  datatype ScopeFilter = ScopeFilter(org: string, pod: Option<int>, inbox: Option<string>)

  datatype ResourceKind = PodResource | InboxResource

  /** The one denial: it carries no reason. */
  datatype Denial = NotFound(kind: ResourceKind)

  datatype Resolved =
    | Ready(filter: ScopeFilter)
    | Probe(filter: ScopeFilter, kind: ResourceKind)

  /** Where a row lives; an unknown coordinate is None. */
  datatype Place = Place(org: Option<string>, pod: Option<int>, inbox: Option<string>)

  /** Rendering and parsing of a pod's UUID; several texts may parse to one pod. */
  datatype UuidText = UuidText(render: int -> string, parse: string -> Option<int>)

  ghost predicate Faithful(u: UuidText) {
    forall p :: u.parse(u.render(p)) == Some(p)
  }

  datatype IdentityError = MissingPodId | MissingInboxId | NarrowerIdThanScope | ScopeIdMismatch

  function FromIdentity(u: UuidText, id: Identity): Result<Scope, IdentityError> {
    match id.kind
    case OrganizationScope =>
      if id.pod.Some? || id.inbox.Some? then Err(NarrowerIdThanScope)
      else if id.scopeId != id.org then Err(ScopeIdMismatch)
      else Ok(Organization(id.org))
    case PodScope =>
      if id.inbox.Some? then Err(NarrowerIdThanScope)
      else if id.pod.None? then Err(MissingPodId)
      else if u.parse(id.scopeId) != id.pod then Err(ScopeIdMismatch)
      else Ok(Pod(id.org, id.pod.value))
    case InboxScope =>
      if id.pod.None? then Err(MissingPodId)
      else if id.inbox.None? then Err(MissingInboxId)
      else if !EqFold(id.scopeId, id.inbox.value) then Err(ScopeIdMismatch)
      else Ok(Inbox(id.org, id.pod.value, id.inbox.value))
  }

  /** The identity spells out exactly this scope, its scope id in any spelling of the narrowest coordinate. */
  predicate Spells(u: UuidText, id: Identity, scope: Scope) {
    && id.org == scope.org
    && (match scope
        case Organization(org) =>
          id.kind.OrganizationScope? && id.scopeId == org && id.pod.None? && id.inbox.None?
        case Pod(_, pod) =>
          id.kind.PodScope? && u.parse(id.scopeId) == Some(pod) == id.pod && id.inbox.None?
        case Inbox(_, pod, inbox) =>
          id.kind.InboxScope? && id.pod == Some(pod) && id.inbox == Some(inbox) && EqFold(id.scopeId, inbox))
  }

  /** An identity is accepted iff it spells out a scope, and then as that scope and no other; a refusal says
      what is missing, too narrow or contradictory. */
  lemma IdentityIsAcceptedIff(u: UuidText, id: Identity, scope: Scope)
    ensures FromIdentity(u, id) == Ok(scope) <==> Spells(u, id, scope)
    ensures var r := FromIdentity(u, id);
      r.Err? ==>
        match r.error
        case MissingPodId => id.pod.None? && !id.kind.OrganizationScope?
        case MissingInboxId => id.inbox.None? && id.kind.InboxScope?
        case NarrowerIdThanScope =>
          (id.kind.OrganizationScope? && (id.pod.Some? || id.inbox.Some?)) || (id.kind.PodScope? && id.inbox.Some?)
        case ScopeIdMismatch =>
          match id.kind
          case OrganizationScope => id.scopeId != id.org
          case PodScope => id.pod.Some? && u.parse(id.scopeId) != id.pod
          case InboxScope => id.inbox.Some? && !EqFold(id.scopeId, id.inbox.value)
  {
  }

  function Window(scope: Scope, pod: Option<int>, inbox: Option<string>): ScopeFilter {
    ScopeFilter(scope.org, pod, if inbox.Some? then Some(Lower(inbox.value)) else None)
  }

  function Resolve(scope: Scope, mount: Mount): Result<Resolved, Denial> {
    match (scope, mount)
    case (Organization(_), AtOrganization) => Ok(Ready(Window(scope, None, None)))
    case (Organization(_), AtPod(p)) => Ok(Probe(Window(scope, Some(p), None), PodResource))
    case (Organization(_), AtInbox(i)) => Ok(Probe(Window(scope, None, Some(i)), InboxResource))
    case (Pod(_, pod), AtOrganization) => Ok(Ready(Window(scope, Some(pod), None)))
    case (Pod(_, pod), AtPod(p)) =>
      if p == pod then Ok(Ready(Window(scope, Some(pod), None))) else Err(NotFound(PodResource))
    case (Pod(_, pod), AtInbox(i)) => Ok(Probe(Window(scope, Some(pod), Some(i)), InboxResource))
    case (Inbox(_, pod, inbox), AtOrganization) => Ok(Ready(Window(scope, Some(pod), Some(inbox))))
    case (Inbox(_, pod, inbox), AtPod(p)) =>
      if p == pod then Ok(Ready(Window(scope, Some(pod), Some(inbox)))) else Err(NotFound(PodResource))
    case (Inbox(_, pod, inbox), AtInbox(i)) =>
      if EqFold(i, inbox) then Ok(Ready(Window(scope, Some(pod), Some(inbox)))) else Err(NotFound(InboxResource))
  }

  predicate Admits(filter: ScopeFilter, at: Place) {
    && at.org == Some(filter.org)
    && (filter.pod.Some? ==> at.pod == filter.pod)
    && (filter.inbox.Some? ==> at.inbox.Some? && EqFold(at.inbox.value, filter.inbox.value))
  }

  function Settle(filter: ScopeFilter, kind: ResourceKind, row: Option<Place>): Result<ScopeFilter, Denial> {
    if row.Some? && Admits(filter, row.value) then Ok(filter) else Err(NotFound(kind))
  }

  // ---- the reference: what a scope and a mount each cover --------------------------------------

  predicate InScope(scope: Scope, at: Place) {
    && at.org == Some(scope.org)
    && (scope.Pod? ==> at.pod == Some(scope.pod))
    && (scope.Inbox? ==> at.pod == Some(scope.pod) && at.inbox.Some? && EqFold(at.inbox.value, scope.inbox))
  }

  predicate InMount(mount: Mount, at: Place) {
    match mount
    case AtOrganization => true
    case AtPod(p) => at.pod == Some(p)
    case AtInbox(i) => at.inbox.Some? && EqFold(at.inbox.value, i)
  }

  /** The window admits exactly the rows that lie in both the credential's scope and the mount. */
  lemma WindowIsIntersection(scope: Scope, mount: Mount, at: Place)
    requires Resolve(scope, mount).Ok?
    ensures Admits(Resolve(scope, mount).value.filter, at) <==> InScope(scope, at) && InMount(mount, at)
  {
    if mount.AtInbox? {
      LowerIdempotent(mount.inbox);
    }
    if scope.Inbox? {
      LowerIdempotent(scope.inbox);
    }
  }

  /** A denial on ids alone means, and is forced by, an empty intersection. */
  lemma DenialMeansEmpty(scope: Scope, mount: Mount)
    ensures Resolve(scope, mount).Err? <==> forall at :: !(InScope(scope, at) && InMount(mount, at))
  {
    var pod := if scope.Organization? then (if mount.AtPod? then mount.pod else 0) else scope.pod;
    var inbox := if scope.Inbox? then scope.inbox else if mount.AtInbox? then mount.inbox else "";
    var witnessed := Place(Some(scope.org), Some(pod), Some(inbox));
    if Resolve(scope, mount).Ok? {
      assert InScope(scope, witnessed) && InMount(mount, witnessed);
    }
  }

  // ---- discharging a probe against the store ---------------------------------------------------

  /** The pods and inboxes tables, keyed by their primary keys; inbox keys are stored lower-cased. */
  datatype Directory = Directory(pods: map<int, string>, inboxes: map<string, (string, int)>)

  predicate WellFormed(dir: Directory) {
    forall i :: i in dir.inboxes ==> Lower(i) == i && !HasNul(i)
  }

  function PodsGet(dir: Directory, org: string, pod: int): Option<Place> {
    if pod in dir.pods && dir.pods[pod] == org then Some(Place(Some(org), Some(pod), None)) else None
  }

  function InboxesGet(dir: Directory, org: string, podPin: Option<int>, inbox: string): Option<Place> {
    var key := Lower(inbox);
    if HasNul(inbox) then None
    else if key in dir.inboxes && dir.inboxes[key].0 == org && (podPin.Some? ==> dir.inboxes[key].1 == podPin.value)
    then Some(Place(Some(org), Some(dir.inboxes[key].1), Some(key)))
    else None
  }

  function SettlePodMount(dir: Directory, scope: Scope, pod: int): Result<ScopeFilter, Denial> {
    match Resolve(scope, AtPod(pod))
    case Err(d) => Err(d)
    case Ok(Ready(f)) => Ok(f)
    case Ok(Probe(f, kind)) => Settle(f, kind, PodsGet(dir, f.org, pod))
  }

  function SettleInboxMount(dir: Directory, scope: Scope, inbox: string): Result<ScopeFilter, Denial> {
    match Resolve(scope, AtInbox(inbox))
    case Err(d) => Err(d)
    case Ok(Ready(f)) => Ok(f)
    case Ok(Probe(f, kind)) => Settle(f, kind, InboxesGet(dir, f.org, f.pod, inbox))
  }

  function SettleMount(dir: Directory, scope: Scope, mount: Mount): Result<ScopeFilter, Denial> {
    match mount
    case AtOrganization => Ok(Resolve(scope, AtOrganization).value.filter)
    case AtPod(p) => SettlePodMount(dir, scope, p)
    case AtInbox(i) => SettleInboxMount(dir, scope, i)
  }

  /** The row of the resource a mount names, wherever in the store it lives. */
  function NamedRow(dir: Directory, mount: Mount): Option<Place> {
    match mount
    case AtOrganization => None
    case AtPod(p) => if p in dir.pods then Some(Place(Some(dir.pods[p]), Some(p), None)) else None
    case AtInbox(i) =>
      var key := Lower(i);
      if key in dir.inboxes then Some(Place(Some(dir.inboxes[key].0), Some(dir.inboxes[key].1), Some(key))) else None
  }

  /** The credential itself names the mount's resource, so no lookup is needed. */
  predicate SelfProving(scope: Scope, mount: Mount) {
    match mount
    case AtOrganization => true
    case AtPod(p) => !scope.Organization? && scope.pod == p
    case AtInbox(i) => scope.Inbox? && EqFold(i, scope.inbox)
  }

  predicate Reachable(dir: Directory, scope: Scope, mount: Mount) {
    || SelfProving(scope, mount)
    || (!scope.Inbox? && NamedRow(dir, mount).Some? && InScope(scope, NamedRow(dir, mount).value))
  }

  function MountKind(mount: Mount): ResourceKind {
    if mount.AtPod? then PodResource else InboxResource
  }

  /** A mount is served iff the credential proves it or the store holds its resource inside the scope;
      otherwise the denial depends on the URL's shape alone, so foreign and absent are one answer. */
  lemma MountIsServedIffReachable(dir: Directory, scope: Scope, mount: Mount)
    requires WellFormed(dir)
    ensures SettleMount(dir, scope, mount) ==
      if Reachable(dir, scope, mount) then Ok(Resolve(scope, mount).value.filter) else Err(NotFound(MountKind(mount)))
  {
    if mount.AtInbox? {
      LowerIdempotent(mount.inbox);
      LowerKeepsNul(mount.inbox);
    }
  }

  /** Two stores that differ only in whether a foreign resource exists answer alike. */
  lemma ForeignIsAbsent(dir: Directory, other: Directory, scope: Scope, mount: Mount)
    requires WellFormed(dir) && WellFormed(other)
    requires !Reachable(dir, scope, mount) && !Reachable(other, scope, mount)
    ensures SettleMount(dir, scope, mount) == SettleMount(other, scope, mount)
  {
    MountIsServedIffReachable(dir, scope, mount);
    MountIsServedIffReachable(other, scope, mount);
  }

  // ---- the identity the auth layer builds ------------------------------------------------------

  /** An api_keys row's coordinates: a row never names both a pod and an inbox. */
  datatype KeyRow = KeyRow(org: string, pod: Option<int>, inbox: Option<string>)

  function ScopeTypeOf(key: KeyRow): ScopeType {
    if key.inbox.Some? then InboxScope else if key.pod.Some? then PodScope else OrganizationScope
  }

  /** None is the auth layer's 403: the key's inbox is gone. */
  function BuildIdentity(dir: Directory, u: UuidText, key: KeyRow): Option<Identity> {
    var kind := ScopeTypeOf(key);
    if key.pod.None? && key.inbox.Some? then
      var row := InboxesGet(dir, key.org, None, key.inbox.value);
      if row.None? then None
      else Some(Identity(key.org, key.inbox.value, kind, row.value.pod, key.inbox))
    else
      var scopeId :=
        if kind.InboxScope? then key.inbox.value else if kind.PodScope? then u.render(key.pod.value) else key.org;
      Some(Identity(key.org, scopeId, kind, key.pod, key.inbox))
  }

  function AuthScope(dir: Directory, u: UuidText, key: KeyRow): Option<Scope> {
    var id := BuildIdentity(dir, u, key);
    if id.None? then None
    else match FromIdentity(u, id.value) case Ok(s) => Some(s) case Err(_) => None
  }

  /** The scope a key row's own columns name. */
  function OwnScope(dir: Directory, key: KeyRow): Scope
    requires key.inbox.Some? ==> InboxesGet(dir, key.org, None, key.inbox.value).Some?
  {
    if key.inbox.Some?
    then Inbox(key.org, InboxesGet(dir, key.org, None, key.inbox.value).value.pod.value, key.inbox.value)
    else if key.pod.Some? then Pod(key.org, key.pod.value) else Organization(key.org)
  }

  /** The identity built for a key is accepted, and resolves to the row's own coordinates, exactly
      when the key is not bound to an inbox that is gone. */
  lemma AuthResolvesToTheRow(dir: Directory, u: UuidText, key: KeyRow)
    requires Faithful(u) && !(key.pod.Some? && key.inbox.Some?)
    ensures AuthScope(dir, u, key).Some?
      <==> (key.inbox.Some? ==> InboxesGet(dir, key.org, None, key.inbox.value).Some?)
    ensures AuthScope(dir, u, key).Some? ==> AuthScope(dir, u, key).value == OwnScope(dir, key)
  {
    if key.pod.Some? {
      var pod := key.pod.value;
      assert u.parse(u.render(pod)) == Some(pod);
    }
  }

  /** A row of a table whose inbox column refers to the inboxes table. */
  predicate Lives(dir: Directory, at: Place) {
    && at.org.Some? && at.pod.Some? && at.inbox.Some? && Lower(at.inbox.value) in dir.inboxes
    && dir.inboxes[Lower(at.inbox.value)] == (at.org.value, at.pod.value)
  }

  /** What the row's own key covers, read off the api_keys columns. */
  predicate KeyCovers(key: KeyRow, at: Place) {
    && at.org == Some(key.org)
    && (key.pod.Some? ==> at.pod == key.pod)
    && (key.inbox.Some? ==> at.inbox.Some? && EqFold(at.inbox.value, key.inbox.value))
  }

  /** End to end: key row, auth layer, mount, window. */
  lemma ServedRowsAreCoveredByKeyAndMount(dir: Directory, u: UuidText, key: KeyRow, mount: Mount, at: Place)
    requires Faithful(u) && WellFormed(dir) && !(key.pod.Some? && key.inbox.Some?) && Lives(dir, at)
    requires AuthScope(dir, u, key).Some? && SettleMount(dir, AuthScope(dir, u, key).value, mount).Ok?
    ensures Admits(SettleMount(dir, AuthScope(dir, u, key).value, mount).value, at) <==>
      KeyCovers(key, at) && InMount(mount, at)
  {
    AuthResolvesToTheRow(dir, u, key);
    MountIsServedIffReachable(dir, AuthScope(dir, u, key).value, mount);
    WindowIsIntersection(AuthScope(dir, u, key).value, mount, at);
  }

  // ---- pushing the window into a query ---------------------------------------------------------

  function PlaceOf(m: Message): Place {
    Place(Some(m.org), Some(m.pod), Some(m.inbox))
  }

  /** The pinned columns of the WHERE clause, compared byte for byte. */
  predicate PinsMatch(filter: ScopeFilter, m: Message) {
    && m.org == filter.org
    && (filter.pod.Some? ==> m.pod == filter.pod.value)
    && (filter.inbox.Some? ==> m.inbox == filter.inbox.value)
  }

  /** On stored (lower-cased) rows and resolved windows the byte comparison is the folded one. */
  lemma PinsAreAdmission(filter: ScopeFilter, m: Message)
    requires Lower(m.inbox) == m.inbox
    requires filter.inbox.Some? ==> Lower(filter.inbox.value) == filter.inbox.value
    ensures PinsMatch(filter, m) <==> Admits(filter, PlaceOf(m))
  {
  }

  lemma WindowsAreLowered(scope: Scope, mount: Mount)
    requires Resolve(scope, mount).Ok?
    ensures var f := Resolve(scope, mount).value.filter; f.inbox.Some? ==> Lower(f.inbox.value) == f.inbox.value
  {
    if mount.AtInbox? {
      LowerIdempotent(mount.inbox);
    }
    if scope.Inbox? {
      LowerIdempotent(scope.inbox);
    }
  }
}
