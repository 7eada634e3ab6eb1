/** The command loop over one connection, and the connection across its STARTTLS upgrade. */
module SmtpSession {
  import opened Prelude
  import opened Smtp

  datatype Dest = Dest(org: string, pod: int, inbox: string)

  datatype Envelope = Envelope(mailFrom: string, clientIp: string, ehloHost: string)

  datatype Call = Call(body: seq<Byte>, envelope: Envelope, dest: Dest)

  /** A parsed command; `Other` is AUTH and everything else that is answered 502. */
  datatype Request =
    | Ehlo(host: string) | Mail(address: string, size: nat) | Rcpt(address: string) | Data | Rset | Noop | Quit
    | StartTls | Other | Malformed

  /** The EHLO capability list, or a code with the last two parts of its enhanced status. */
  datatype Reply = Hello(starttls: bool) | Coded(code: int, subject: int, detail: int)

  const SYNTAX := Coded(500, 5, 2)
  const BAD_SEQUENCE := Coded(503, 5, 1)
  const TOO_BIG := Coded(552, 3, 4)
  const MAIL_OK := Coded(250, 1, 0)
  const RCPT_OK := Coded(250, 1, 5)
  const RELAY_DENIED := Coded(550, 7, 1)
  const USER_UNKNOWN := Coded(550, 1, 1)
  const START_INPUT := Coded(354, 0, 0)
  const OK := Coded(250, 0, 0)
  const BYE := Coded(221, 0, 0)
  const READY_FOR_TLS := Coded(220, 0, 0)
  const NO_TLS := Coded(454, 7, 0)
  const NOT_IMPLEMENTED := Coded(502, 5, 1)

  /** What a connection did: the banner or its refusal, answered commands, deliveries handed to storage
      with the error code each got, and the reply that closes a DATA. */
  datatype Event = Banner(code: int) | Answered(request: Request, reply: Reply)
      | Persisted(call: Call, error: Option<int>) | Concluded(reply: Reply)

  /** Everything outside the session: the parser, the inbox lookup and the storage, which may answer
      differently each time they are asked, and the configuration. */
  datatype World = World(
    parse: seq<Byte> -> Request, lookup: (seq<Event>, string) -> Option<Dest>,
    persist: (seq<Event>, Call) -> Option<int>, localDomains: seq<string>, cap: nat, tls: bool, clientIp: string)

  datatype Session = Session(greeted: bool, mailFrom: Option<string>, rcpts: seq<Dest>, host: string)

  const FRESH := Session(false, None, [], "")

  datatype Next = Continue | Hang | Upgrade | Receive

  datatype End = Closed | Upgraded | Aborted | LineTooLong

  // ---- recipients ------------------------------------------------------------------------------

  predicate DomainIsLocal(localDomains: seq<string>, rcpt: string) {
    var split := SplitLast(rcpt, '@');
    split.Some? && Lower(split.value.1) in localDomains
  }

  /** What follows the last `@` is the i-th configured domain, in any case. */
  predicate NamesDomain(configured: seq<string>, rcpt: string, user: string, domain: string, i: int) {
    rcpt == user + ['@'] + domain && '@' !in domain && 0 <= i < |configured| && EqFold(domain, configured[i])
  }

  /** With the configured domains lower-cased once, what follows the last `@` decides, in any case. */
  lemma LocalMeans(configured: seq<string>, stored: seq<string>, rcpt: string)
    requires |stored| == |configured| && forall i :: 0 <= i < |stored| ==> stored[i] == Lower(configured[i])
    ensures DomainIsLocal(stored, rcpt)
            <==> exists user, domain, i :: NamesDomain(configured, rcpt, user, domain, i)
  {
    var split := SplitLast(rcpt, '@');
    if DomainIsLocal(stored, rcpt) {
      var (user, domain) := split.value;
      var i :| 0 <= i < |stored| && stored[i] == Lower(domain);
      assert NamesDomain(configured, rcpt, user, domain, i);
    }
    forall user, domain, i | NamesDomain(configured, rcpt, user, domain, i)
      ensures DomainIsLocal(stored, rcpt)
    {
      SplitLastIsUnique(rcpt, '@', user, domain);
      assert stored[i] == Lower(domain);
    }
  }

  // ---- the session as a function of bytes ------------------------------------------------------

  /** One command, DATA's body aside. */
  function Respond(world: World, secure: bool, s: Session, past: seq<Event>, request: Request): (Session, Reply, Next) {
    match request
    case Malformed => (s, SYNTAX, Continue)
    case Ehlo(host) => (Session(true, None, [], host), Hello(world.tls && !secure), Continue)
    case Mail(address, size) =>
      if !s.greeted then (s, BAD_SEQUENCE, Continue)
      else if size > 0 && size > world.cap then (s, TOO_BIG, Continue)
      else (s.(mailFrom := Some(address), rcpts := []), MAIL_OK, Continue)
    case Rcpt(address) =>
      if s.mailFrom.None? then (s, BAD_SEQUENCE, Continue)
      else if !DomainIsLocal(world.localDomains, address) then (s, RELAY_DENIED, Continue)
      else
        (match world.lookup(past, address)
         case Some(dest) => (s.(rcpts := s.rcpts + [dest]), RCPT_OK, Continue)
         case None => (s, USER_UNKNOWN, Continue))
    case Data =>
      if s.mailFrom.None? || s.rcpts == [] then (s, BAD_SEQUENCE, Continue)
      else (s.(mailFrom := None, rcpts := []), START_INPUT, Receive)
    case Rset => (s.(mailFrom := None, rcpts := []), OK, Continue)
    case Noop => (s, OK, Continue)
    case Quit => (s, BYE, Hang)
    case StartTls =>
      if secure then (s, BAD_SEQUENCE, Continue)
      else if world.tls then (s, READY_FOR_TLS, Upgrade)
      else (s, NO_TLS, Continue)
    case Other => (s, NOT_IMPLEMENTED, Continue)
  }

  /** Hand a body to storage once per recipient; the last error, if any, is the answer. */
  function Batch(world: World, past: seq<Event>, body: seq<Byte>, envelope: Envelope, rcpts: seq<Dest>,
      error: Option<int>): seq<Event>
    decreases |rcpts|
  {
    if rcpts == [] then past + [Concluded(if error.Some? then Coded(error.value, 0, 0) else OK)]
    else
      var call := Call(body, envelope, rcpts[0]);
      var e := world.persist(past, call);
      Batch(world, past + [Persisted(call, e)], body, envelope, rcpts[1..], if e.Some? then e else error)
  }

  /** The whole command loop on the bytes a peer sends, extending the trace so far. */
  function Run(world: World, secure: bool, bytes: seq<Byte>, s: Session, past: seq<Event>): (seq<Event>, End)
    decreases |bytes|
  {
    match NextLine(bytes)
    case None => (past, Closed)
    case Some((line, rest)) =>
      var request := world.parse(line);
      var (next, reply, step) := Respond(world, secure, s, past, request);
      var told := past + [Answered(request, reply)];
      match step
      case Continue => Run(world, secure, rest, next, told)
      case Hang => (told, Closed)
      case Upgrade => (told, Upgraded)
      case Receive =>
        match Unstuffed(rest)
        case None => (told, Aborted)
        case Some((body, after)) =>
          Run(world, secure, after, next, Received(world, told, body, EnvelopeOf(world, s), s.rcpts))
  }

  function EnvelopeOf(world: World, s: Session): Envelope {
    Envelope(if s.mailFrom.Some? then s.mailFrom.value else "", world.clientIp, s.host)
  }

  function Received(world: World, told: seq<Event>, body: seq<Byte>, envelope: Envelope, rcpts: seq<Dest>): seq<Event> {
    if |body| > world.cap then told + [Concluded(TOO_BIG)] else Batch(world, told, body, envelope, rcpts, None)
  }

  // ---- the imperative loop ---------------------------------------------------------------------

  /** Every line is short enough for any chunking. */
  predicate Bounded(bytes: seq<Byte>)
    decreases |bytes|
  {
    match NextLine(bytes)
    case None => |bytes| <= SAFE_LINE
    case Some((line, rest)) => |line| <= SAFE_LINE && Bounded(rest)
  }

  lemma {:induction false} BoundedData(bytes: seq<Byte>)
    requires Bounded(bytes)
    ensures DataBounded(bytes) && (Unstuffed(bytes).Some? ==> Bounded(Unstuffed(bytes).value.1))
    decreases |bytes|
  {
    var n := NextLine(bytes);
    if n.None? {
    } else {
      BoundedData(n.value.1);
    }
  }

  ghost predicate Tracks(world: World, secure: bool, whole: seq<Byte>, past: seq<Event>, bytes: seq<Byte>,
      s: Session, trace: seq<Event>) {
    && Run(world, secure, whole, FRESH, past) == Run(world, secure, bytes, s, trace)
    && (Bounded(whole) ==> Bounded(bytes))
  }

  /** One command keeps the loop on the track of `Run`, or ends it where `Run` ends. */
  lemma Steps(world: World, secure: bool, whole: seq<Byte>, past: seq<Event>, bytes: seq<Byte>, s: Session,
      trace: seq<Event>, line: seq<Byte>, rest: seq<Byte>)
    requires Tracks(world, secure, whole, past, bytes, s, trace) && NextLine(bytes) == Some((line, rest))
    ensures var (next, reply, step) := Respond(world, secure, s, trace, world.parse(line));
      var told := trace + [Answered(world.parse(line), reply)];
      var all := Run(world, secure, whole, FRESH, past);
      && told <= all.0
      && (step.Continue? ==> Tracks(world, secure, whole, past, rest, next, told))
      && (step.Hang? ==> all == (told, Closed))
      && (step.Upgrade? ==> all == (told, Upgraded))
      && (step.Receive? ==> (Bounded(whole) ==> DataBounded(rest)))
      && (step.Receive? && Unstuffed(rest).None? ==> all == (told, Aborted))
      && (step.Receive? && Unstuffed(rest).Some? ==>
            Tracks(world, secure, whole, past, Unstuffed(rest).value.1, next,
                Received(world, told, Unstuffed(rest).value.0, EnvelopeOf(world, s), s.rcpts)))
  {
    hide Respond, Unstuffed, Received, NextLine, DataBounded;
    var (next, reply, step) := Respond(world, secure, s, trace, world.parse(line));
    var told := trace + [Answered(world.parse(line), reply)];
    if step.Continue? {
      RunExtends(world, secure, rest, next, told);
    } else if step.Receive? {
      ReceivingExtends(world, secure, rest, s, next, told);
      if Bounded(whole) {
        BoundedData(rest);
      }
    }
  }

  /** Whatever the chunking, the loop does what `Run` says of the bytes, or stops early at a line of more
      than 15361 bytes. The line buffer lives and dies with the call. */
  method RunCommands(socket: Socket, world: World, secure: bool, past: seq<Event>) returns (trace: seq<Event>, end: End)
    requires socket.Valid()
    modifies socket
    ensures end != LineTooLong ==> (trace, end) == Run(world, secure, Flat(old(socket.chunks)), FRESH, past)
    ensures end == LineTooLong ==>
      trace <= Run(world, secure, Flat(old(socket.chunks)), FRESH, past).0 && !Bounded(Flat(old(socket.chunks)))
  {
    var buf: seq<Byte> := [];
    var greeted := false;
    var mailFrom: Option<string> := None;
    var rcpts: seq<Dest> := [];
    var host := "";
    trace := past;
    ghost var whole := Flat(socket.chunks);
    assert Bytes(Wire(buf, socket.chunks)) == whole;
    assert Tracks(world, secure, whole, past, whole, FRESH, past);
    hide FrameLine, Unstuffed, DataBounded, Bounded, Run, Sound, Received, Flat, Tracks, NextLine, Respond;
    while true
      invariant Sound(Wire(buf, socket.chunks))
      invariant Tracks(world, secure, whole, past, Bytes(Wire(buf, socket.chunks)),
        Session(greeted, mailFrom, rcpts, host), trace)
      decreases |Bytes(Wire(buf, socket.chunks))|
    {
      ghost var s := Session(greeted, mailFrom, rcpts, host);
      ghost var bytes := Bytes(Wire(buf, socket.chunks));
      FrameLineMeans(Wire(buf, socket.chunks));
      var line;
      line, buf := ReadLine(socket, buf);
      if line.Eof? {
        NothingMore(world, secure, whole, past, bytes, s, trace);
        return trace, Closed;
      }
      if line.TooLong? {
        NothingMore(world, secure, whole, past, bytes, s, trace);
        return trace, LineTooLong;
      }
      ghost var rest := Bytes(Wire(buf, socket.chunks));
      FirstLine(bytes, line.text, rest);
      Steps(world, secure, whole, past, bytes, s, trace, line.text, rest);
      var request := world.parse(line.text);
      var envelope := Envelope(if mailFrom.Some? then mailFrom.value else "", world.clientIp, host);
      var recipients := rcpts;
      var reply, next;
      greeted, mailFrom, rcpts, host, reply, next :=
        Answer(world, secure, trace, request, greeted, mailFrom, rcpts, host);
      trace := trace + [Answered(request, reply)];
      match next {
        case Continue =>
        case Hang =>
          return trace, Closed;
        case Upgrade =>
          return trace, Upgraded;
        case Receive =>
          var fault;
          trace, buf, fault := TakeMail(socket, buf, world, trace, envelope, recipients);
          if fault.Some? {
            return trace, fault.value;
          }
      }
    }
  }

  /** One command against the loop's variables. */
  method Answer(world: World, secure: bool, past: seq<Event>, request: Request, greeted0: bool,
      mailFrom0: Option<string>, rcpts0: seq<Dest>, host0: string)
    returns (greeted: bool, mailFrom: Option<string>, rcpts: seq<Dest>, host: string, reply: Reply, next: Next)
    ensures (Session(greeted, mailFrom, rcpts, host), reply, next)
            == Respond(world, secure, Session(greeted0, mailFrom0, rcpts0, host0), past, request)
  {
    greeted, mailFrom, rcpts, host, next := greeted0, mailFrom0, rcpts0, host0, Continue;
    match request {
      case Malformed =>
        reply := SYNTAX;
      case Ehlo(h) =>
        greeted := true;
        host := h;
        mailFrom := None;
        rcpts := [];
        reply := Hello(world.tls && !secure);
      case Mail(address, size) =>
        if !greeted {
          reply := BAD_SEQUENCE;
          return;
        }
        if size > 0 && size > world.cap {
          reply := TOO_BIG;
          return;
        }
        mailFrom := Some(address);
        rcpts := [];
        reply := MAIL_OK;
      case Rcpt(address) =>
        if mailFrom.None? {
          reply := BAD_SEQUENCE;
          return;
        }
        if !DomainIsLocal(world.localDomains, address) {
          reply := RELAY_DENIED;
          return;
        }
        var found := world.lookup(past, address);
        if found.Some? {
          rcpts := rcpts + [found.value];
          reply := RCPT_OK;
        } else {
          reply := USER_UNKNOWN;
        }
      case Data =>
        if mailFrom.None? || rcpts == [] {
          reply := BAD_SEQUENCE;
          return;
        }
        mailFrom := None;
        rcpts := [];
        reply := START_INPUT;
        next := Receive;
      case Rset =>
        mailFrom := None;
        rcpts := [];
        reply := OK;
      case Noop =>
        reply := OK;
      case Quit =>
        reply := BYE;
        next := Hang;
      case StartTls =>
        if secure {
          reply := BAD_SEQUENCE;
        } else if world.tls {
          reply := READY_FOR_TLS;
          next := Upgrade;
        } else {
          reply := NO_TLS;
        }
      case Other =>
        reply := NOT_IMPLEMENTED;
    }
  }

  /** Collect a body and hand it over, or refuse it; a fault is a stream that ends or a line too long. */
  method TakeMail(socket: Socket, buffered: seq<Byte>, world: World, told: seq<Event>, envelope: Envelope,
      rcpts: seq<Dest>)
    returns (trace: seq<Event>, buf: seq<Byte>, fault: Option<End>)
    requires Sound(Wire(buffered, socket.chunks))
    modifies socket
    ensures var body := Unstuffed(old(Bytes(Wire(buffered, socket.chunks))));
      && (fault.None? ==>
            && body.Some? && Bytes(Wire(buf, socket.chunks)) == body.value.1 && Sound(Wire(buf, socket.chunks))
            && trace == Received(world, told, body.value.0, envelope, rcpts))
      && (fault.Some? ==> trace == told)
      && (fault == Some(Aborted) ==> body.None?)
      && (fault.Some? && fault.value != Aborted ==>
            fault == Some(LineTooLong) && !DataBounded(old(Bytes(Wire(buffered, socket.chunks)))))
  {
    CollectMeans(Wire(buffered, socket.chunks), world.cap);
    hide Collect, Unstuffed, DataBounded;
    var collected;
    collected, buf := ReadData(socket, buffered, world.cap);
    if collected.Cut? {
      return told, buf, Some(Aborted);
    }
    if collected.Overlong? {
      return told, buf, Some(LineTooLong);
    }
    if collected.oversize {
      return told + [Concluded(TOO_BIG)], buf, None;
    }
    trace := PersistAll(world, told, collected.data, envelope, rcpts);
    return trace, buf, None;
  }

  /** Drain the recipients, storing for each, and answer with the last error. */
  method PersistAll(world: World, past: seq<Event>, body: seq<Byte>, envelope: Envelope,
      rcpts: seq<Dest>) returns (trace: seq<Event>)
    ensures trace == Batch(world, past, body, envelope, rcpts, None)
  {
    trace := past;
    var error: Option<int> := None;
    var i := 0;
    while i < |rcpts|
      invariant 0 <= i <= |rcpts|
      invariant Batch(world, trace, body, envelope, rcpts[i..], error)
        == Batch(world, past, body, envelope, rcpts, None)
    {
      var call := Call(body, envelope, rcpts[i]);
      var e := world.persist(trace, call);
      trace := trace + [Persisted(call, e)];
      if e.Some? {
        error := e;
      }
      assert rcpts[i..][1..] == rcpts[i + 1..];
      i := i + 1;
    }
    trace := trace + [Concluded(if error.Some? then Coded(error.value, 0, 0) else OK)];
  }

  lemma {:induction false} BatchExtends(world: World, past: seq<Event>, body: seq<Byte>, envelope: Envelope,
      rcpts: seq<Dest>, error: Option<int>)
    ensures past <= Batch(world, past, body, envelope, rcpts, error)
    decreases |rcpts|
  {
    if rcpts == [] {
    } else {
      var call := Call(body, envelope, rcpts[0]);
      var e := world.persist(past, call);
      BatchExtends(world, past + [Persisted(call, e)], body, envelope, rcpts[1..], if e.Some? then e else error);
    }
  }

  lemma {:induction false} RunExtends(world: World, secure: bool, bytes: seq<Byte>, s: Session, past: seq<Event>)
    ensures past <= Run(world, secure, bytes, s, past).0
    decreases |bytes|, 1
  {
    hide Respond, Unstuffed, Received;
    var n := NextLine(bytes);
    if n.None? {
    } else {
      var request := world.parse(n.value.0);
      var (next, reply, step) := Respond(world, secure, s, past, request);
      var told := past + [Answered(request, reply)];
      if step.Continue? {
        RunExtends(world, secure, n.value.1, next, told);
      } else if step.Receive? {
        ReceivingExtends(world, secure, n.value.1, s, next, told);
      }
    }
  }

  lemma {:induction false} ReceivingExtends(world: World, secure: bool, bytes: seq<Byte>, s: Session,
      next: Session, told: seq<Event>)
    ensures var body := Unstuffed(bytes);
      body.Some? ==> told <= Run(world, secure, body.value.1, next,
          Received(world, told, body.value.0, EnvelopeOf(world, s), s.rcpts)).0
    decreases |bytes|, 0
  {
    var body := Unstuffed(bytes);
    hide Unstuffed, Run;
    if body.Some? {
      BatchExtends(world, told, body.value.0, EnvelopeOf(world, s), s.rcpts, None);
      RunExtends(world, secure, body.value.1, next, Received(world, told, body.value.0, EnvelopeOf(world, s), s.rcpts));
    }
  }

  lemma FirstLine(bytes: seq<Byte>, line: seq<Byte>, rest: seq<Byte>)
    requires NewlineAt(bytes) < |bytes| && line == bytes[..NewlineAt(bytes) + 1]
      && rest == bytes[NewlineAt(bytes) + 1..]
    ensures NextLine(bytes) == Some((line, rest))
  {
  }

  lemma NothingMore(world: World, secure: bool, whole: seq<Byte>, past: seq<Event>, bytes: seq<Byte>, s: Session,
      trace: seq<Event>)
    requires Tracks(world, secure, whole, past, bytes, s, trace)
    ensures NewlineAt(bytes) == |bytes| ==> Run(world, secure, whole, FRESH, past) == (trace, Closed)
    ensures NewlineAt(bytes) >= SAFE_LINE && |bytes| > LINE_LIMIT ==> !Bounded(whole)
    ensures trace <= Run(world, secure, whole, FRESH, past).0
  {
    RunExtends(world, secure, bytes, s, trace);
  }

  // ---- safety of every trace -------------------------------------------------------------------

  /** Accepted MAIL, EHLO, RSET, an accepted DATA and the upgrade each end the mail transaction before them. */
  predicate Resets(e: Event) {
    e.Answered? &&
    match e.request
    case Ehlo(_) => true
    case Rset => true
    case Mail(_, _) => e.reply == MAIL_OK
    case Data => e.reply == START_INPUT
    case StartTls => e.reply == READY_FOR_TLS
    case _ => false
  }

  predicate Greets(e: Event) {
    e.Answered? && (e.request.Ehlo? || (e.request.StartTls? && e.reply == READY_FOR_TLS))
  }

  /** Event m accepted this MAIL address, and it still stands before event n. */
  ghost predicate CurrentMail(t: seq<Event>, m: nat, n: nat, address: string) {
    && m < n <= |t| && t[m].Answered? && t[m].request.Mail? && t[m].request.address == address && t[m].reply == MAIL_OK
    && forall k :: m < k < n ==> !Resets(t[k])
  }

  /** Event h is the latest EHLO of the TLS phase before event n. */
  ghost predicate CurrentHost(t: seq<Event>, h: nat, n: nat, host: string) {
    && h < n <= |t| && t[h].Answered? && t[h].request.Ehlo? && t[h].request.host == host
    && forall k :: h < k < n ==> !Greets(t[k])
  }

  /** Event r accepted a recipient of a local domain that the lookup, as of then, resolved to this inbox. */
  ghost predicate Vouched(world: World, t: seq<Event>, r: nat, dest: Dest) {
    && r < |t| && t[r].Answered? && t[r].request.Rcpt? && t[r].reply == RCPT_OK
    && DomainIsLocal(world.localDomains, t[r].request.address)
    && world.lookup(t[..r], t[r].request.address) == Some(dest)
  }

  ghost predicate VouchedAfter(world: World, t: seq<Event>, m: nat, n: nat, dest: Dest) {
    exists r :: m < r < n && Vouched(world, t, r, dest)
  }

  /** Before event d stand a MAIL, an EHLO ahead of it, and accepted recipients behind it. */
  ghost predicate Transaction(world: World, t: seq<Event>, h: nat, m: nat, d: nat, address: string, host: string,
      rcpts: seq<Dest>) {
    && h < m && CurrentMail(t, m, d, address) && CurrentHost(t, h, d, host)
    && forall x :: x in rcpts ==> VouchedAfter(world, t, m, d, x)
  }

  ghost predicate Batched(t: seq<Event>, d: nat, i: nat) {
    d < i < |t| && t[d] == Answered(Data, START_INPUT) && forall k :: d < k < i ==> t[k].Persisted?
  }

  /** A delivery is handed over right behind an accepted DATA, under the MAIL, EHLO and a recipient that
      stood before it. */
  ghost predicate Justified(world: World, t: seq<Event>, i: nat)
    requires i < |t|
  {
    t[i].Persisted? ==>
      var call := t[i].call;
      && |call.body| <= world.cap && call.envelope.clientIp == world.clientIp
      && exists h, m, d :: Batched(t, d, i)
            && Transaction(world, t, h, m, d, call.envelope.mailFrom, call.envelope.ehloHost, [call.dest])
  }

  /** No accepted DATA without a MAIL of its own: each DATA ends the transaction it uses. */
  ghost predicate Opened(t: seq<Event>, d: nat)
    requires d < |t|
  {
    t[d] == Answered(Data, START_INPUT) ==> exists m, address :: CurrentMail(t, m, d, address)
  }

  ghost predicate Safe(world: World, t: seq<Event>) {
    forall i: nat :: i < |t| ==> Justified(world, t, i) && Opened(t, i)
  }

  ghost predicate Standing(world: World, t: seq<Event>, s: Session) {
    && (s.greeted ==> exists h :: CurrentHost(t, h, |t|, s.host))
    && (s.mailFrom.Some? ==> s.greeted && exists h, m ::
          Transaction(world, t, h, m, |t|, s.mailFrom.value, s.host, s.rcpts))
    && (s.mailFrom.None? ==> s.rcpts == [])
  }

  lemma Later(world: World, t: seq<Event>, u: seq<Event>, h: nat, m: nat, d: nat, address: string, host: string,
      rcpts: seq<Dest>)
    requires t <= u && Transaction(world, t, h, m, d, address, host, rcpts)
    ensures Transaction(world, u, h, m, d, address, host, rcpts)
  {
    forall x | x in rcpts ensures VouchedAfter(world, u, m, d, x) {
      var r :| m < r < d && Vouched(world, t, r, x);
      assert t[..r] == u[..r];
      assert Vouched(world, u, r, x);
    }
  }

  lemma SafeLater(world: World, t: seq<Event>, e: Event)
    requires Safe(world, t)
    ensures forall i: nat :: i < |t| ==> Justified(world, t + [e], i) && Opened(t + [e], i)
  {
    var u := t + [e];
    forall i: nat | i < |t| ensures Justified(world, u, i) && Opened(u, i) {
      assert Justified(world, t, i) && Opened(t, i);
      if t[i].Persisted? {
        var call := t[i].call;
        var h, m, d :| Batched(t, d, i)
            && Transaction(world, t, h, m, d, call.envelope.mailFrom, call.envelope.ehloHost, [call.dest]);
        Later(world, t, u, h, m, d, call.envelope.mailFrom, call.envelope.ehloHost, [call.dest]);
        assert Batched(u, d, i);
      }
      if t[i] == Answered(Data, START_INPUT) {
        var m, address :| CurrentMail(t, m, i, address);
        assert CurrentMail(u, m, i, address);
      }
    }
  }

  lemma HostStands(t: seq<Event>, e: Event, h: nat, host: string)
    requires CurrentHost(t, h, |t|, host) && !Greets(e)
    ensures CurrentHost(t + [e], h, |t| + 1, host)
  {
  }

  lemma TransactionStands(world: World, t: seq<Event>, e: Event, h: nat, m: nat, address: string, host: string,
      rcpts: seq<Dest>)
    requires Transaction(world, t, h, m, |t|, address, host, rcpts) && !Resets(e)
    ensures Transaction(world, t + [e], h, m, |t| + 1, address, host, rcpts)
  {
    Later(world, t, t + [e], h, m, |t|, address, host, rcpts);
    HostStands(t, e, h, host);
    forall x | x in rcpts ensures VouchedAfter(world, t + [e], m, |t| + 1, x) {
      var r :| m < r < |t| && Vouched(world, t + [e], r, x);
    }
  }

  lemma StandsThrough(world: World, t: seq<Event>, s: Session, e: Event)
    requires Standing(world, t, s)
    ensures !Resets(e) ==> Standing(world, t + [e], s)
    ensures !Greets(e) ==> Standing(world, t + [e], s.(mailFrom := None, rcpts := []))
  {
    hide Transaction, CurrentHost;
    if s.greeted && !Greets(e) {
      var h :| CurrentHost(t, h, |t|, s.host);
      HostStands(t, e, h, s.host);
    }
    if s.mailFrom.Some? && !Resets(e) {
      var h, m :| Transaction(world, t, h, m, |t|, s.mailFrom.value, s.host, s.rcpts);
      TransactionStands(world, t, e, h, m, s.mailFrom.value, s.host, s.rcpts);
    }
  }

  lemma MailStands(world: World, t: seq<Event>, s: Session, e: Event)
    requires Standing(world, t, s) && s.greeted
    requires e.Answered? && e.request.Mail? && e.reply == MAIL_OK
    ensures Standing(world, t + [e], s.(mailFrom := Some(e.request.address), rcpts := []))
  {
    var h :| CurrentHost(t, h, |t|, s.host);
    HostStands(t, e, h, s.host);
    assert CurrentMail(t + [e], |t|, |t| + 1, e.request.address);
    assert Transaction(world, t + [e], h, |t|, |t| + 1, e.request.address, s.host, []);
  }

  lemma RecipientStands(world: World, t: seq<Event>, s: Session, e: Event, dest: Dest)
    requires Standing(world, t, s) && s.mailFrom.Some?
    requires e.Answered? && e.request.Rcpt? && e.reply == RCPT_OK
    requires DomainIsLocal(world.localDomains, e.request.address)
      && world.lookup(t, e.request.address) == Some(dest)
    ensures Standing(world, t + [e], s.(rcpts := s.rcpts + [dest]))
  {
    var h, m :| Transaction(world, t, h, m, |t|, s.mailFrom.value, s.host, s.rcpts);
    TransactionStands(world, t, e, h, m, s.mailFrom.value, s.host, s.rcpts);
    var u := t + [e];
    assert u[..|t|] == t;
    assert Vouched(world, u, |t|, dest);
    assert VouchedAfter(world, u, m, |u|, dest);
    hide VouchedAfter, Vouched;
    assert Transaction(world, u, h, m, |u|, s.mailFrom.value, s.host, s.rcpts + [dest]);
    assert CurrentHost(u, h, |u|, s.host);
  }

  /** One command keeps the session's variables truthful about the trace. */
  lemma AnswerStands(world: World, secure: bool, t: seq<Event>, s: Session, request: Request)
    requires Standing(world, t, s)
    ensures var (next, reply, step) := Respond(world, secure, s, t, request);
      !step.Upgrade? ==> Standing(world, t + [Answered(request, reply)], next)
  {
    var (next, reply, step) := Respond(world, secure, s, t, request);
    var e := Answered(request, reply);
    hide Transaction, CurrentHost;
    StandsThrough(world, t, s, e);
    if request.Ehlo? {
      HostNow(world, t, e);
    } else if reply == MAIL_OK && request.Mail? {
      MailStands(world, t, s, e);
    } else if reply == RCPT_OK && request.Rcpt? {
      var found := world.lookup(t, request.address);
      RecipientStands(world, t, s, e, found.value);
    } else {
      hide Standing;
    }
  }

  lemma HostNow(world: World, t: seq<Event>, e: Event)
    requires e.Answered? && e.request.Ehlo?
    ensures Standing(world, t + [e], Session(true, None, [], e.request.host))
  {
    assert CurrentHost(t + [e], |t|, |t| + 1, e.request.host);
  }

  lemma AnswerIsSafe(world: World, secure: bool, t: seq<Event>, s: Session, request: Request)
    requires Standing(world, t, s) && Safe(world, t)
    ensures var (next, reply, step) := Respond(world, secure, s, t, request);
      Safe(world, t + [Answered(request, reply)])
  {
    var (next, reply, step) := Respond(world, secure, s, t, request);
    var e := Answered(request, reply);
    SafeLater(world, t, e);
    if e == Answered(Data, START_INPUT) {
      var h, m :| Transaction(world, t, h, m, |t|, s.mailFrom.value, s.host, s.rcpts);
      Later(world, t, t + [e], h, m, |t|, s.mailFrom.value, s.host, s.rcpts);
      assert CurrentMail(t + [e], m, |t|, s.mailFrom.value);
    }
    hide Respond, Justified;
    assert Justified(world, t + [e], |t|) by { NotPersisted(world, t + [e], |t|); }
  }

  lemma NotPersisted(world: World, t: seq<Event>, i: nat)
    requires i < |t| && !t[i].Persisted?
    ensures Justified(world, t, i)
  {
  }

  /** A batch keeps the trace safe, and the session as it was after DATA. */
  lemma {:induction false} BatchIsSafe(world: World, t: seq<Event>, h: nat, m: nat, d: nat, body: seq<Byte>,
      s: Session, rcpts: seq<Dest>, error: Option<int>, next: Session)
    requires Safe(world, t) && Standing(world, t, next) && next.mailFrom.None? && |body| <= world.cap
      && s.mailFrom.Some?
    requires d < |t| && t[d] == Answered(Data, START_INPUT) && forall k :: d < k < |t| ==> t[k].Persisted?
    requires Transaction(world, t, h, m, d, s.mailFrom.value, s.host, rcpts)
    ensures var u := Batch(world, t, body, EnvelopeOf(world, s), rcpts, error);
      Safe(world, u) && Standing(world, u, next)
    decreases |rcpts|
  {
    var closing := if error.Some? then Coded(error.value, 0, 0) else OK;
    var e := if rcpts == [] then Concluded(closing)
             else Persisted(Call(body, EnvelopeOf(world, s), rcpts[0]),
                 world.persist(t, Call(body, EnvelopeOf(world, s), rcpts[0])));
    var u := t + [e];
    SafeLater(world, t, e);
    StandsThrough(world, t, next, e);
    Later(world, t, u, h, m, d, s.mailFrom.value, s.host, rcpts);
    if rcpts == [] {
      NotPersisted(world, u, |t|);
      hide Justified, Transaction, Standing;
      assert Safe(world, u);
    } else {
      assert Batched(u, d, |t|);
      assert Transaction(world, u, h, m, d, s.mailFrom.value, s.host, [rcpts[0]]);
      assert Justified(world, u, |t|);
      assert Transaction(world, u, h, m, d, s.mailFrom.value, s.host, rcpts[1..]);
      hide Justified, Transaction, Standing;
      BatchIsSafe(world, u, h, m, d, body, s, rcpts[1..], if e.error.Some? then e.error else error, next);
    }
  }

  /** Every trace of the command loop is safe, over every byte stream. */
  lemma {:induction false} RunIsSafe(world: World, secure: bool, bytes: seq<Byte>, s: Session, past: seq<Event>)
    requires Safe(world, past) && Standing(world, past, s)
    ensures Safe(world, Run(world, secure, bytes, s, past).0)
    decreases |bytes|
  {
    hide Safe, Standing, NextLine, Unstuffed, Received, EnvelopeOf;
    var n := NextLine(bytes);
    if n.None? {
    } else {
      var (line, rest) := n.value;
      var request := world.parse(line);
      var (next, reply, step) := Respond(world, secure, s, past, request);
      var told := past + [Answered(request, reply)];
      AnswerIsSafe(world, secure, past, s, request);
      AnswerStands(world, secure, past, s, request);
      if step.Receive? && Unstuffed(rest).Some? {
        var body := Unstuffed(rest).value.0;
        ReceivedIsSafe(world, secure, past, body, s);
        RunIsSafe(world, secure, Unstuffed(rest).value.1, next,
            Received(world, told, body, EnvelopeOf(world, s), s.rcpts));
      } else if step.Continue? {
        RunIsSafe(world, secure, rest, next, told);
      }
    }
  }

  lemma ReceivedIsSafe(world: World, secure: bool, past: seq<Event>, body: seq<Byte>, s: Session)
    requires Safe(world, past) && Standing(world, past, s)
    requires Respond(world, secure, s, past, Data).2 == Receive
    ensures var told := past + [Answered(Data, START_INPUT)];
      var next := Respond(world, secure, s, past, Data).0;
      var u := Received(world, told, body, EnvelopeOf(world, s), s.rcpts);
      Safe(world, u) && Standing(world, u, next)
  {
    var told := past + [Answered(Data, START_INPUT)];
    var next := Respond(world, secure, s, past, Data).0;
    AnswerIsSafe(world, secure, past, s, Data);
    AnswerStands(world, secure, past, s, Data);
    var h, m :| Transaction(world, past, h, m, |past|, s.mailFrom.value, s.host, s.rcpts);
    Later(world, past, told, h, m, |past|, s.mailFrom.value, s.host, s.rcpts);
    hide Transaction, Standing, Safe;
    if |body| <= world.cap {
      BatchIsSafe(world, told, h, m, |past|, body, s, s.rcpts, None, next);
    } else {
      TooBigIsSafe(world, told, next);
    }
  }

  lemma TooBigIsSafe(world: World, t: seq<Event>, s: Session)
    requires Safe(world, t) && Standing(world, t, s)
    ensures Safe(world, t + [Concluded(TOO_BIG)]) && Standing(world, t + [Concluded(TOO_BIG)], s)
  {
    var e := Concluded(TOO_BIG);
    SafeLater(world, t, e);
    StandsThrough(world, t, s, e);
    NotPersisted(world, t + [e], |t|);
    hide Justified;
  }

  lemma Earlier(world: World, t: seq<Event>, u: seq<Event>, h: nat, m: nat, d: nat, address: string, host: string,
      dest: Dest)
    requires t <= u && d <= |t| && Transaction(world, u, h, m, d, address, host, [dest])
    ensures Transaction(world, t, h, m, d, address, host, [dest])
  {
    assert VouchedAfter(world, u, m, d, dest);
    var r: nat :| m < r < d && Vouched(world, u, r, dest);
    assert t[..r] == u[..r];
    assert Vouched(world, t, r, dest);
  }

  lemma SafePrefix(world: World, t: seq<Event>, u: seq<Event>)
    requires Safe(world, u) && t <= u
    ensures Safe(world, t)
  {
    forall i: nat | i < |t| ensures Justified(world, t, i) && Opened(t, i) {
      assert Justified(world, u, i) && Opened(u, i);
      if t[i].Persisted? {
        var call := t[i].call;
        var h: nat, m: nat, d: nat :| Batched(u, d, i)
            && Transaction(world, u, h, m, d, call.envelope.mailFrom, call.envelope.ehloHost, [call.dest]);
        Earlier(world, t, u, h, m, d, call.envelope.mailFrom, call.envelope.ehloHost, call.dest);
        hide Transaction;
        assert Batched(t, d, i);
      }
      if t[i] == Answered(Data, START_INPUT) {
        var m: nat, address :| CurrentMail(u, m, i, address);
        assert CurrentMail(t, m, i, address);
      }
    }
  }

  /** No accepted MAIL feeds two DATA: in a trace of the server, between two accepted DATA stands an
      accepted MAIL, the one that the second of them uses. */
  lemma OneDataPerMail(world: World, t: seq<Event>, d: nat, e: nat) returns (m: nat)
    requires Safe(world, t) && d < e < |t| && t[d] == Answered(Data, START_INPUT) == t[e]
    ensures d < m < e && t[m].Answered? && t[m].request.Mail? && t[m].reply == MAIL_OK
    ensures CurrentMail(t, m, e, t[m].request.address)
  {
    assert Opened(t, e);
    var current: nat, address :| CurrentMail(t, current, e, address);
    m := current;
    assert Resets(t[d]);
  }

  function LastError(events: seq<Event>): Option<int> {
    if events == [] then None
    else
      var last := events[|events| - 1];
      if last.Persisted? && last.error.Some? then last.error else LastError(events[..|events| - 1])
  }

  lemma {:induction false} LastErrorCons(e: Event, events: seq<Event>)
    ensures LastError([e] + events)
            == if LastError(events).Some? then LastError(events) else if e.Persisted? then e.error else None
  {
    var all := [e] + events;
    if events != [] {
      assert all[..|all| - 1] == [e] + events[..|events| - 1];
      LastErrorCons(e, events[..|events| - 1]);
    } else {
      assert all[..0] == [];
    }
  }

  /** Event k hands the body to one recipient, and records what storage answered then. */
  predicate Handed(world: World, t: seq<Event>, k: nat, body: seq<Byte>, envelope: Envelope, dest: Dest) {
    k < |t| && t[k] == Persisted(Call(body, envelope, dest), world.persist(t[..k], Call(body, envelope, dest)))
  }

  /** Every recipient of the transaction is handed the same body and envelope, in order and once, and the
      closing reply carries the last error, or is 250 when there was none. */
  lemma BatchMeans(world: World, past: seq<Event>, body: seq<Byte>, envelope: Envelope, rcpts: seq<Dest>)
    ensures var t := Batch(world, past, body, envelope, rcpts, None);
      && past <= t && |t| == |past| + |rcpts| + 1
      && (forall j :: 0 <= j < |rcpts| ==> Handed(world, t, |past| + j, body, envelope, rcpts[j]))
      && t[|t| - 1] == Concluded(Closing(LastError(t[|past|..|t| - 1]), None))
  {
    BatchHands(world, past, body, envelope, rcpts, None);
    BatchCloses(world, past, body, envelope, rcpts, None);
  }

  lemma {:induction false} BatchHands(world: World, past: seq<Event>, body: seq<Byte>, envelope: Envelope,
      rcpts: seq<Dest>, error: Option<int>)
    ensures var t := Batch(world, past, body, envelope, rcpts, error);
      && past <= t && |t| == |past| + |rcpts| + 1
      && forall j :: 0 <= j < |rcpts| ==> Handed(world, t, |past| + j, body, envelope, rcpts[j])
    decreases |rcpts|
  {
    if rcpts == [] {
    } else {
      var n := |past|;
      var call := Call(body, envelope, rcpts[0]);
      var e := world.persist(past, call);
      var told := past + [Persisted(call, e)];
      var error' := if e.Some? then e else error;
      BatchHands(world, told, body, envelope, rcpts[1..], error');
      var t := Batch(world, told, body, envelope, rcpts[1..], error');
      assert t[..n] == past && t[n] == told[n];
      assert Handed(world, t, n, body, envelope, rcpts[0]);
      hide Handed, Batch;
      forall j | 0 <= j < |rcpts| ensures Handed(world, t, n + j, body, envelope, rcpts[j]) {
        if j > 0 {
          assert Handed(world, t, |told| + (j - 1), body, envelope, rcpts[1..][j - 1]);
        }
      }
    }
  }

  lemma SliceFrom(t: seq<Event>, i: nat, j: nat)
    requires i < j <= |t|
    ensures t[i..j] == [t[i]] + t[i + 1..j]
  {
  }

  lemma {:induction false} BatchCloses(world: World, past: seq<Event>, body: seq<Byte>, envelope: Envelope,
      rcpts: seq<Dest>, error: Option<int>)
    ensures var t := Batch(world, past, body, envelope, rcpts, error);
      && past <= t && |past| < |t| && t[|t| - 1] == Concluded(Closing(LastError(t[|past|..|t| - 1]), error))
    decreases |rcpts|
  {
    if rcpts == [] {
    } else {
      var n := |past|;
      var call := Call(body, envelope, rcpts[0]);
      var e := world.persist(past, call);
      var told := past + [Persisted(call, e)];
      var error' := if e.Some? then e else error;
      BatchCloses(world, told, body, envelope, rcpts[1..], error');
      var t := Batch(world, told, body, envelope, rcpts[1..], error');
      assert t[n] == told[n];
      SliceFrom(t, n, |t| - 1);
      LastErrorCons(t[n], t[n + 1..|t| - 1]);
    }
  }

  function Closing(last: Option<int>, earlier: Option<int>): Reply {
    if last.Some? then Coded(last.value, 0, 0) else if earlier.Some? then Coded(earlier.value, 0, 0) else OK
  }

  // ---- what each command must be answered, read off the history --------------------------------

  /** An EHLO stands in this TLS phase. */
  ghost predicate Greeted(t: seq<Event>) {
    exists h: nat, host :: CurrentHost(t, h, |t|, host)
  }

  /** An accepted MAIL stands. */
  ghost predicate InMail(t: seq<Event>) {
    exists m: nat, address :: CurrentMail(t, m, |t|, address)
  }

  /** What the lookups of the RCPTs accepted since then resolved to, in order. */
  function Accepted(world: World, t: seq<Event>): seq<Dest> {
    if t == [] then []
    else
      var e, before := t[|t| - 1], t[..|t| - 1];
      if Resets(e) then []
      else if e.Answered? && e.request.Rcpt? && e.reply == RCPT_OK && world.lookup(before, e.request.address).Some?
      then Accepted(world, before) + [world.lookup(before, e.request.address).value]
      else Accepted(world, before)
  }

  predicate Positive(reply: Reply) {
    reply.Hello? || 200 <= reply.code < 400
  }

  /** What a command must be answered after a history, without reference to any variable of the session. */
  ghost predicate Due(world: World, secure: bool, past: seq<Event>, request: Request, reply: Reply) {
    match request
    case Ehlo(_) => reply == Hello(world.tls && !secure)
    case Mail(_, size) =>
      && (Positive(reply) <==> Greeted(past) && (size == 0 || size <= world.cap))
      && reply == (if Positive(reply) then MAIL_OK else if !Greeted(past) then BAD_SEQUENCE else TOO_BIG)
    case Rcpt(address) =>
      var isLocal := DomainIsLocal(world.localDomains, address);
      && (Positive(reply) <==> InMail(past) && isLocal && world.lookup(past, address).Some?)
      && reply == (if Positive(reply) then RCPT_OK else if !InMail(past) then BAD_SEQUENCE
                   else if !isLocal then RELAY_DENIED else USER_UNKNOWN)
    case Data =>
      && (Positive(reply) <==> InMail(past) && Accepted(world, past) != [])
      && reply == (if Positive(reply) then START_INPUT else BAD_SEQUENCE)
    case StartTls =>
      && (Positive(reply) <==> world.tls && !secure)
      && reply == (if Positive(reply) then READY_FOR_TLS else if secure then BAD_SEQUENCE else NO_TLS)
    case Rset => reply == OK && Positive(reply)
    case Noop => reply == OK && Positive(reply)
    case Quit => reply == BYE && Positive(reply)
    case Malformed => reply == SYNTAX && !Positive(reply)
    case Other => reply == NOT_IMPLEMENTED && !Positive(reply)
  }

  /** Behind the accepted DATA at d the body goes to every accepted recipient, in order and once, and the
      reply at n - 1 closes it; or it is too big and goes to none. */
  ghost predicate HandedOver(world: World, t: seq<Event>, d: nat, body: seq<Byte>, n: nat) {
    d < n <= |t| &&
    if |body| > world.cap then n == d + 2 && t[d + 1] == Concluded(TOO_BIG)
    else
      var rcpts := Accepted(world, t[..d]);
      && n == d + |rcpts| + 2
      && t[n - 1] == Concluded(Closing(LastError(t[d + 1..n - 1]), None))
      && exists m: nat, h: nat, envelope :: Enveloped(world, t, m, h, d, envelope)
           && forall k :: 0 <= k < |rcpts| ==> Handed(world, t, d + 1 + k, body, envelope, rcpts[k])
  }

  /** The envelope of the MAIL and EHLO that stand before event d. */
  ghost predicate Enveloped(world: World, t: seq<Event>, m: nat, h: nat, d: nat, envelope: Envelope) {
    && CurrentMail(t, m, d, envelope.mailFrom) && CurrentHost(t, h, d, envelope.ehloHost)
    && envelope.clientIp == world.clientIp
  }

  /** From event i on the trace is the conversation these bytes demand, and `end` is how it ends: every line
      is answered as due, and every body that arrives is handed over as due. */
  ghost predicate Conforms(world: World, secure: bool, bytes: seq<Byte>, t: seq<Event>, i: nat, end: End)
    decreases |bytes|
  {
    match NextLine(bytes)
    case None => i == |t| && end == Closed
    case Some((line, rest)) =>
      && i < |t| && t[i].Answered? && t[i].request == world.parse(line)
      && Due(world, secure, t[..i], t[i].request, t[i].reply)
      && if t[i].request.Quit? then i + 1 == |t| && end == Closed
         else if t[i] == Answered(StartTls, READY_FOR_TLS) then i + 1 == |t| && end == Upgraded
         else if t[i] != Answered(Data, START_INPUT) then Conforms(world, secure, rest, t, i + 1, end)
         else if Unstuffed(rest).None? then i + 1 == |t| && end == Aborted
         else exists n :: HandedOver(world, t, i, Unstuffed(rest).value.0, n)
                && Conforms(world, secure, Unstuffed(rest).value.1, t, n, end)
  }

  /** The session's variables are what the history says. */
  ghost predicate Agrees(world: World, t: seq<Event>, s: Session) {
    && (s.greeted <==> Greeted(t)) && (s.greeted ==> exists h: nat :: CurrentHost(t, h, |t|, s.host))
    && (s.mailFrom.Some? <==> InMail(t))
    && (s.mailFrom.Some? ==> s.greeted && exists m: nat :: CurrentMail(t, m, |t|, s.mailFrom.value))
    && s.rcpts == Accepted(world, t)
  }

  lemma HostSnoc(t: seq<Event>, e: Event, h: nat, host: string)
    ensures CurrentHost(t + [e], h, |t| + 1, host) <==>
      if h == |t| then e.Answered? && e.request.Ehlo? && e.request.host == host
      else CurrentHost(t, h, |t|, host) && !Greets(e)
  {
    var u := t + [e];
    assert forall k :: 0 <= k < |t| ==> u[k] == t[k];
    assert u[|t|] == e;
  }

  lemma MailSnoc(t: seq<Event>, e: Event, m: nat, address: string)
    ensures CurrentMail(t + [e], m, |t| + 1, address) <==>
      if m == |t| then e.Answered? && e.request.Mail? && e.request.address == address && e.reply == MAIL_OK
      else CurrentMail(t, m, |t|, address) && !Resets(e)
  {
    var u := t + [e];
    assert forall k :: 0 <= k < |t| ==> u[k] == t[k];
    assert u[|t|] == e;
  }

  lemma StandsSnoc(t: seq<Event>, e: Event)
    ensures Greeted(t + [e]) <==> (e.Answered? && e.request.Ehlo?) || (Greeted(t) && !Greets(e))
    ensures InMail(t + [e]) <==>
      (e.Answered? && e.request.Mail? && e.reply == MAIL_OK) || (InMail(t) && !Resets(e))
  {
    var u := t + [e];
    forall h: nat, host ensures CurrentHost(u, h, |u|, host) <==>
        if h == |t| then e.Answered? && e.request.Ehlo? && e.request.host == host
        else CurrentHost(t, h, |t|, host) && !Greets(e)
    {
      HostSnoc(t, e, h, host);
    }
    forall m: nat, address ensures CurrentMail(u, m, |u|, address) <==>
        if m == |t| then e.Answered? && e.request.Mail? && e.request.address == address && e.reply == MAIL_OK
        else CurrentMail(t, m, |t|, address) && !Resets(e)
    {
      MailSnoc(t, e, m, address);
    }
    hide CurrentHost, CurrentMail, Greets, Resets;
    if e.Answered? && e.request.Ehlo? { assert CurrentHost(u, |t|, |u|, e.request.host); }
    if e.Answered? && e.request.Mail? && e.reply == MAIL_OK { assert CurrentMail(u, |t|, |u|, e.request.address); }
    if Greeted(t) && !Greets(e) {
      var h: nat, host :| CurrentHost(t, h, |t|, host);
      assert h < |t| by { HostIsEarlier(t, h, host); }
      assert CurrentHost(u, h, |u|, host);
    }
    if InMail(t) && !Resets(e) {
      var m: nat, address :| CurrentMail(t, m, |t|, address);
      assert m < |t| by { MailIsEarlier(t, m, address); }
      assert CurrentMail(u, m, |u|, address);
    }
  }

  lemma HostIsEarlier(t: seq<Event>, h: nat, host: string)
    requires CurrentHost(t, h, |t|, host)
    ensures h < |t|
  {
  }

  lemma MailIsEarlier(t: seq<Event>, m: nat, address: string)
    requires CurrentMail(t, m, |t|, address)
    ensures m < |t|
  {
  }

  /** An event that begins and ends nothing and accepts nobody leaves the variables as they were. */
  lemma QuietAgrees(world: World, t: seq<Event>, s: Session, e: Event)
    requires Agrees(world, t, s) && !e.Answered?
    ensures Agrees(world, t + [e], s)
  {
    StandsSnoc(t, e);
    assert (t + [e])[..|t|] == t;
    if s.greeted {
      var h: nat :| CurrentHost(t, h, |t|, s.host);
      HostSnoc(t, e, h, s.host);
      HostIsEarlier(t, h, s.host);
    }
    if s.mailFrom.Some? {
      var m: nat :| CurrentMail(t, m, |t|, s.mailFrom.value);
      MailSnoc(t, e, m, s.mailFrom.value);
      MailIsEarlier(t, m, s.mailFrom.value);
    }
    hide CurrentHost, CurrentMail, Greeted, InMail, Resets, Greets;
  }

  /** The session answers as due and its variables follow. */
  lemma AnswersAsDue(world: World, secure: bool, t: seq<Event>, s: Session, request: Request)
    requires Agrees(world, t, s)
    ensures var (next, reply, step) := Respond(world, secure, s, t, request);
      && Due(world, secure, t, request, reply)
      && Agrees(world, t + [Answered(request, reply)], if step.Upgrade? then FRESH else next)
      && (step.Hang? <==> request.Quit?)
      && (step.Upgrade? <==> Answered(request, reply) == Answered(StartTls, READY_FOR_TLS))
      && (step.Receive? <==> Answered(request, reply) == Answered(Data, START_INPUT))
      && (step.Receive? ==> s.mailFrom.Some?)
  {
    var (next, reply, step) := Respond(world, secure, s, t, request);
    var e := Answered(request, reply);
    hide Greeted, InMail, CurrentHost, CurrentMail, DomainIsLocal;
    assert Due(world, secure, t, request, reply);
    StandsSnoc(t, e);
    assert (t + [e])[..|t|] == t;
    if s.greeted {
      var h: nat :| CurrentHost(t, h, |t|, s.host);
      HostSnoc(t, e, h, s.host);
      HostIsEarlier(t, h, s.host);
    }
    if s.mailFrom.Some? {
      var m: nat :| CurrentMail(t, m, |t|, s.mailFrom.value);
      MailSnoc(t, e, m, s.mailFrom.value);
      MailIsEarlier(t, m, s.mailFrom.value);
    }
    if request.Ehlo? { HostSnoc(t, e, |t|, request.host); }
    if request.Mail? { MailSnoc(t, e, |t|, request.address); }
  }

  lemma {:induction false} BatchAgrees(world: World, t: seq<Event>, s: Session, body: seq<Byte>, envelope: Envelope,
      rcpts: seq<Dest>, error: Option<int>)
    requires Agrees(world, t, s)
    ensures Agrees(world, Batch(world, t, body, envelope, rcpts, error), s)
    decreases |rcpts|
  {
    hide Agrees;
    if rcpts == [] {
      QuietAgrees(world, t, s, Concluded(if error.Some? then Coded(error.value, 0, 0) else OK));
    } else {
      var call := Call(body, envelope, rcpts[0]);
      var e := world.persist(t, call);
      QuietAgrees(world, t, s, Persisted(call, e));
      BatchAgrees(world, t + [Persisted(call, e)], s, body, envelope, rcpts[1..], if e.Some? then e else error);
    }
  }

  lemma EnvelopeStands(world: World, t: seq<Event>, s: Session)
    requires Agrees(world, t, s) && s.mailFrom.Some?
    ensures exists m: nat, h: nat :: Enveloped(world, t, m, h, |t|, EnvelopeOf(world, s))
  {
    var h: nat :| CurrentHost(t, h, |t|, s.host);
    var m: nat :| CurrentMail(t, m, |t|, s.mailFrom.value);
    hide CurrentHost, CurrentMail;
    assert Enveloped(world, t, m, h, |t|, EnvelopeOf(world, s));
  }

  lemma HandedLater(world: World, t: seq<Event>, u: seq<Event>, k: nat, body: seq<Byte>, envelope: Envelope, dest: Dest)
    requires t <= u && Handed(world, t, k, body, envelope, dest)
    ensures Handed(world, u, k, body, envelope, dest)
  {
    assert t[..k] == u[..k];
  }

  /** What DATA is followed by, in any trace that goes on from there. */
  lemma ReceivedIsHandedOver(world: World, past: seq<Event>, s: Session, body: seq<Byte>, t: seq<Event>)
    requires Agrees(world, past, s) && s.mailFrom.Some?
    requires Received(world, past + [Answered(Data, START_INPUT)], body, EnvelopeOf(world, s), s.rcpts) <= t
    ensures var u := Received(world, past + [Answered(Data, START_INPUT)], body, EnvelopeOf(world, s), s.rcpts);
      past + [Answered(Data, START_INPUT)] <= u && HandedOver(world, t, |past|, body, |u|)
  {
    var d, told, envelope := |past|, past + [Answered(Data, START_INPUT)], EnvelopeOf(world, s);
    EnvelopeStands(world, past, s);
    var m: nat, h: nat :| Enveloped(world, past, m, h, d, envelope);
    assert s.rcpts == Accepted(world, past);
    hide Agrees, Handed, EnvelopeOf, Batch, Accepted, Enveloped;
    if |body| <= world.cap {
      BatchIsHandedOver(world, past, body, envelope, m, h, t);
    } else {
      assert told + [Concluded(TOO_BIG)] <= t;
    }
  }

  lemma BatchIsHandedOver(world: World, past: seq<Event>, body: seq<Byte>, envelope: Envelope, m: nat, h: nat,
      t: seq<Event>)
    requires Enveloped(world, past, m, h, |past|, envelope) && |body| <= world.cap
    requires Batch(world, past + [Answered(Data, START_INPUT)], body, envelope, Accepted(world, past), None) <= t
    ensures var u := Batch(world, past + [Answered(Data, START_INPUT)], body, envelope, Accepted(world, past), None);
      past + [Answered(Data, START_INPUT)] <= u && HandedOver(world, t, |past|, body, |u|)
  {
    var d, told, rcpts := |past|, past + [Answered(Data, START_INPUT)], Accepted(world, past);
    var u := Batch(world, told, body, envelope, rcpts, None);
    BatchMeans(world, told, body, envelope, rcpts);
    hide Batch, Handed, Accepted, Enveloped, LastError;
    assert past <= told <= u <= t;
    assert t[..d] == past;
    EnvelopedLater(world, past, t, m, h, d, envelope);
    assert u[|told|..|u| - 1] == t[d + 1..|u| - 1];
    forall k | 0 <= k < |rcpts| ensures Handed(world, t, d + 1 + k, body, envelope, rcpts[k]) {
      assert Handed(world, u, |told| + k, body, envelope, rcpts[k]);
      HandedLater(world, u, t, |told| + k, body, envelope, rcpts[k]);
    }
  }

  lemma EnvelopedLater(world: World, t: seq<Event>, u: seq<Event>, m: nat, h: nat, d: nat, envelope: Envelope)
    requires t <= u && Enveloped(world, t, m, h, d, envelope)
    ensures Enveloped(world, u, m, h, d, envelope)
  {
  }

  /** Every run is the conversation its bytes demand. Nothing here speaks of the session's variables: a body
      goes to all accepted recipients and to nobody else, and a command is refused only when it is due. */
  lemma {:induction false} RunConforms(world: World, secure: bool, bytes: seq<Byte>, s: Session, past: seq<Event>)
    requires Agrees(world, past, s)
    ensures var (t, end) := Run(world, secure, bytes, s, past);
      past <= t && Conforms(world, secure, bytes, t, |past|, end)
      && (end.Upgraded? ==> Agrees(world, t, FRESH))
    decreases |bytes|
  {
    hide Agrees, NextLine, Unstuffed, Received, EnvelopeOf, HandedOver, Due, Accepted, Respond;
    var (t, end) := Run(world, secure, bytes, s, past);
    var n := NextLine(bytes);
    if n.None? {
    } else {
      var (line, rest) := n.value;
      var request := world.parse(line);
      var (next, reply, step) := Respond(world, secure, s, past, request);
      var told := past + [Answered(request, reply)];
      AnswersAsDue(world, secure, past, s, request);
      if step.Continue? {
        RunConforms(world, secure, rest, next, told);
      } else if step.Receive? && Unstuffed(rest).Some? {
        var (body, after) := Unstuffed(rest).value;
        var u := Received(world, told, body, EnvelopeOf(world, s), s.rcpts);
        ReceivedAgrees(world, told, body, EnvelopeOf(world, s), s.rcpts, next);
        RunConforms(world, secure, after, next, u);
        ReceivedIsHandedOver(world, past, s, body, t);
      }
      assert told <= t && t[..|past|] == past && t[|past|] == Answered(request, reply);
    }
  }

  lemma ReceivedAgrees(world: World, told: seq<Event>, body: seq<Byte>, envelope: Envelope, rcpts: seq<Dest>,
      s: Session)
    requires Agrees(world, told, s)
    ensures Agrees(world, Received(world, told, body, envelope, rcpts), s)
  {
    hide Agrees;
    BatchAgrees(world, told, s, body, envelope, rcpts, None);
    QuietAgrees(world, told, s, Concluded(TOO_BIG));
  }

  // ---- what the outside can learn and be offered -----------------------------------------------

  ghost predicate AgreeOnLocal(world: World, other: World) {
    && other == world.(lookup := other.lookup)
    && forall past, address :: DomainIsLocal(world.localDomains, address) ==>
          world.lookup(past, address) == other.lookup(past, address)
  }

  lemma {:induction false} BatchIgnoresLookup(world: World, other: World, past: seq<Event>, body: seq<Byte>,
      envelope: Envelope, rcpts: seq<Dest>, error: Option<int>)
    requires AgreeOnLocal(world, other)
    ensures Batch(world, past, body, envelope, rcpts, error) == Batch(other, past, body, envelope, rcpts, error)
    decreases |rcpts|
  {
    if rcpts == [] {
    } else {
      var call := Call(body, envelope, rcpts[0]);
      var e := world.persist(past, call);
      BatchIgnoresLookup(world, other, past + [Persisted(call, e)], body, envelope, rcpts[1..],
                         if e.Some? then e else error);
    }
  }

  /** Relay denial comes before the lookup: which foreign addresses the lookup knows changes nothing a peer
      can see and nothing that is stored. */
  lemma {:induction false} ForeignLookupsAreIrrelevant(world: World, other: World, secure: bool, bytes: seq<Byte>,
      s: Session, past: seq<Event>)
    requires AgreeOnLocal(world, other)
    ensures Run(world, secure, bytes, s, past) == Run(other, secure, bytes, s, past)
    decreases |bytes|
  {
    hide Respond, NextLine, Unstuffed, AgreeOnLocal, Received, EnvelopeOf;
    var n := NextLine(bytes);
    if n.None? {
    } else {
      var (line, rest) := n.value;
      var request := world.parse(line);
      RespondIgnoresLookup(world, other, secure, s, past, request);
      var (next, reply, step) := Respond(world, secure, s, past, request);
      var told := past + [Answered(request, reply)];
      if step.Continue? {
        ForeignLookupsAreIrrelevant(world, other, secure, rest, next, told);
      } else if step.Receive? && Unstuffed(rest).Some? {
        var (body, after) := Unstuffed(rest).value;
        ReceivedIgnoresLookup(world, other, told, body, s);
        ForeignLookupsAreIrrelevant(world, other, secure, after, next,
            Received(world, told, body, EnvelopeOf(world, s), s.rcpts));
      }
    }
  }

  lemma RespondIgnoresLookup(world: World, other: World, secure: bool, s: Session, past: seq<Event>, request: Request)
    requires AgreeOnLocal(world, other)
    ensures Respond(world, secure, s, past, request) == Respond(other, secure, s, past, request)
      && world.parse == other.parse
  {
  }

  lemma ReceivedIgnoresLookup(world: World, other: World, told: seq<Event>, body: seq<Byte>, s: Session)
    requires AgreeOnLocal(world, other)
    ensures Received(world, told, body, EnvelopeOf(world, s), s.rcpts)
      == Received(other, told, body, EnvelopeOf(other, s), s.rcpts)
  {
    BatchIgnoresLookup(world, other, told, body, EnvelopeOf(world, s), s.rcpts, None);
  }

  /** The event offers or starts TLS. */
  predicate OffersTls(e: Event) {
    e.Answered? && (e.reply == Hello(true) || (e.request.StartTls? && e.reply == READY_FOR_TLS))
  }

  ghost predicate NoOfferFrom(t: seq<Event>, n: nat) {
    forall k :: n <= k < |t| ==> !OffersTls(t[k])
  }

  lemma {:induction false} BatchOffersNothing(world: World, past: seq<Event>, n: nat, body: seq<Byte>,
      envelope: Envelope, rcpts: seq<Dest>, error: Option<int>)
    requires NoOfferFrom(past, n)
    ensures NoOfferFrom(Batch(world, past, body, envelope, rcpts, error), n)
    decreases |rcpts|
  {
    if rcpts == [] {
    } else {
      var call := Call(body, envelope, rcpts[0]);
      var e := world.persist(past, call);
      BatchOffersNothing(world, past + [Persisted(call, e)], n, body, envelope, rcpts[1..],
                         if e.Some? then e else error);
    }
  }

  /** Once TLS is active, or without a certificate, it is neither advertised nor started, so a connection
      is upgraded at most once (section 4.2 of RFC 3207). */
  lemma {:induction false} TlsIsOfferedOnlyInTheClear(world: World, secure: bool, bytes: seq<Byte>, s: Session,
      past: seq<Event>, n: nat)
    requires (secure || !world.tls) && NoOfferFrom(past, n)
    ensures var (t, end) := Run(world, secure, bytes, s, past); NoOfferFrom(t, n) && !end.Upgraded?
    decreases |bytes|
  {
    var framed := NextLine(bytes);
    if framed.Some? {
      var (line, rest) := framed.value;
      var request := world.parse(line);
      var (next, reply, step) := Respond(world, secure, s, past, request);
      var told := past + [Answered(request, reply)];
      assert !OffersTls(Answered(request, reply)) && !step.Upgrade?;
      assert NoOfferFrom(told, n);
      hide Respond, NextLine, Unstuffed, OffersTls, NoOfferFrom;
      if step.Continue? {
        TlsIsOfferedOnlyInTheClear(world, secure, rest, next, told, n);
      } else if step.Receive? && Unstuffed(rest).Some? {
        var (body, after) := Unstuffed(rest).value;
        ReceivedOffersNothing(world, told, n, body, EnvelopeOf(world, s), s.rcpts);
        TlsIsOfferedOnlyInTheClear(world, secure, after, next,
            Received(world, told, body, EnvelopeOf(world, s), s.rcpts), n);
      }
    }
  }

  lemma ReceivedOffersNothing(world: World, told: seq<Event>, n: nat, body: seq<Byte>, envelope: Envelope,
      rcpts: seq<Dest>)
    requires NoOfferFrom(told, n)
    ensures NoOfferFrom(Received(world, told, body, envelope, rcpts), n)
  {
    BatchOffersNothing(world, told, n, body, envelope, rcpts, None);
  }

  // ---- the connection and its upgrade ----------------------------------------------------------

  /** A whole connection: refused when the peer talks first; else one plain phase and, after STARTTLS and
      a handshake that succeeds, one phase over TLS. */
  function Serve(world: World, early: bool, plain: seq<Byte>, tls: Option<seq<Byte>>): seq<Event> {
    if early then [Banner(421)]
    else
      var (t, end) := Run(world, false, plain, FRESH, [Banner(220)]);
      if end.Upgraded? && tls.Some? then Run(world, true, tls.value, FRESH, t).0 else t
  }

  method ServeSession(socket: Socket, tls: Option<Socket>, world: World, early: bool) returns (trace: seq<Event>)
    requires socket.Valid() && (tls.Some? ==> tls.value.Valid() && tls.value != socket)
    modifies socket, if tls.Some? then {tls.value} else {}
    ensures var secured := if tls.Some? then Some(Flat(old(tls.value.chunks))) else None;
      var whole := Serve(world, early, Flat(old(socket.chunks)), secured);
      && trace <= whole
      && (Bounded(Flat(old(socket.chunks))) && (tls.Some? ==> Bounded(Flat(old(tls.value.chunks)))) ==> trace == whole)
    ensures Safe(world, trace)
  {
    ServeIsSafe(world, early, Flat(socket.chunks), if tls.Some? then Some(Flat(tls.value.chunks)) else None);
    hide Run, Bounded, Safe;
    if early {
      return [Banner(421)];
    }
    ghost var whole := Serve(world, early, Flat(socket.chunks),
        if tls.Some? then Some(Flat(tls.value.chunks)) else None);
    ghost var secured: seq<Byte> := if tls.Some? then Flat(tls.value.chunks) else [];
    ghost var plain := Run(world, false, Flat(socket.chunks), FRESH, [Banner(220)]);
    RunExtends(world, true, secured, FRESH, plain.0);
    var end;
    trace, end := RunCommands(socket, world, false, [Banner(220)]);
    SafePrefix(world, trace, whole);
    if !end.Upgraded? || tls.None? {
      return;
    }
    trace, end := RunCommands(tls.value, world, true, trace);
    SafePrefix(world, trace, whole);
  }

  lemma ServeIsSafe(world: World, early: bool, plain: seq<Byte>, tls: Option<seq<Byte>>)
    ensures Safe(world, Serve(world, early, plain, tls))
  {
    RunIsSafe(world, false, plain, FRESH, [Banner(220)]);
    var (t, end) := Run(world, false, plain, FRESH, [Banner(220)]);
    if tls.Some? {
      RunIsSafe(world, true, tls.value, FRESH, t);
    }
  }

  /** A peer that does not talk first is greeted, and both phases are the conversations their bytes demand. */
  lemma ServeConforms(world: World, plain: seq<Byte>, tls: Option<seq<Byte>>)
    returns (n: nat, end: End, secured: End)
    ensures var t := Serve(world, false, plain, tls);
      && 1 <= n <= |t| && t[0] == Banner(220) && Conforms(world, false, plain, t[..n], 1, end)
      && if end.Upgraded? && tls.Some? then Conforms(world, true, tls.value, t, n, secured) else n == |t|
    ensures Serve(world, true, plain, tls) == [Banner(421)]
  {
    var (p, e) := Run(world, false, plain, FRESH, [Banner(220)]);
    GreetedByNobody(world);
    RunConforms(world, false, plain, FRESH, [Banner(220)]);
    n, end, secured := |p|, e, e;
    hide Run, Conforms;
    assert p[..|p|] == p && p[0] == [Banner(220)][0];
    if e.Upgraded? && tls.Some? {
      RunConforms(world, true, tls.value, FRESH, p);
      secured := Run(world, true, tls.value, FRESH, p).1;
      assert Serve(world, false, plain, tls)[..n] == p;
    }
  }

  lemma GreetedByNobody(world: World)
    ensures Agrees(world, [Banner(220)], FRESH)
  {
    assert [Banner(220)][..0] == [];
  }

  lemma NextLineAppend(bytes: seq<Byte>, more: seq<Byte>)
    requires NextLine(bytes).Some?
    ensures NextLine(bytes + more) == Some((NextLine(bytes).value.0, NextLine(bytes).value.1 + more))
  {
    var (line, rest) := NextLine(bytes).value;
    assert line[..|line| - 1] == bytes[..NewlineAt(bytes)];
    assert bytes + more == line + (rest + more);
    LineThenRest(line, rest + more);
  }

  lemma {:induction false} UnstuffedAppend(bytes: seq<Byte>, more: seq<Byte>)
    requires Unstuffed(bytes).Some?
    ensures Unstuffed(bytes + more) == Some((Unstuffed(bytes).value.0, Unstuffed(bytes).value.1 + more))
    decreases |bytes|
  {
    NextLineAppend(bytes, more);
    if IsDataEnd(NextLine(bytes).value.0) {
    } else {
      UnstuffedAppend(NextLine(bytes).value.1, more);
    }
  }

  /** Plaintext buffered behind the STARTTLS command is neither parsed nor answered (section 4.2 of RFC 3207). */
  lemma {:induction false} PlaintextBehindTheUpgradeIsDiscarded(world: World, secure: bool, bytes: seq<Byte>,
      more: seq<Byte>, s: Session, past: seq<Event>)
    ensures Run(world, secure, bytes, s, past).1 == Upgraded
            ==> Run(world, secure, bytes + more, s, past) == Run(world, secure, bytes, s, past)
    decreases |bytes|
  {
    hide Respond, Received, NextLine, Unstuffed, EnvelopeOf;
    if NextLine(bytes).Some? {
      NextLineAppend(bytes, more);
      var (line, rest) := NextLine(bytes).value;
      var request := world.parse(line);
      var (next, reply, step) := Respond(world, secure, s, past, request);
      var told := past + [Answered(request, reply)];
      if step.Continue? {
        PlaintextBehindTheUpgradeIsDiscarded(world, secure, rest, more, next, told);
      } else if step.Receive? && Unstuffed(rest).Some? {
        UnstuffedAppend(rest, more);
        var (body, after) := Unstuffed(rest).value;
        PlaintextBehindTheUpgradeIsDiscarded(world, secure, after, more, next,
            Received(world, told, body, EnvelopeOf(world, s), s.rcpts));
      }
    }
  }

  predicate SameFrom(p: seq<Event>, t: seq<Event>, q: seq<Event>, u: seq<Event>) {
    p <= t && q <= u && t[|p|..] == u[|q|..]
  }

  lemma SameFromStep(p: seq<Event>, q: seq<Event>, e: Event, t: seq<Event>, u: seq<Event>)
    requires SameFrom(p + [e], t, q + [e], u)
    ensures SameFrom(p, t, q, u)
  {
    assert t[|p|..] == [e] + t[|p| + 1..];
    assert u[|q|..] == [e] + u[|q| + 1..];
  }

  function CallsOf(trace: seq<Event>): seq<Call> {
    if trace == [] then []
    else
      var last := trace[|trace| - 1];
      CallsOf(trace[..|trace| - 1]) + (if last.Persisted? then [last.call] else [])
  }

  /** The lookup and the storage answer by what has been stored so far, whatever else was said. */
  ghost predicate AnswersByStorage(world: World) {
    forall p, q :: CallsOf(p) == CallsOf(q) ==>
      && (forall address :: world.lookup(p, address) == world.lookup(q, address))
      && (forall call :: world.persist(p, call) == world.persist(q, call))
  }

  lemma CallsSnoc(p: seq<Event>, e: Event)
    ensures CallsOf(p + [e]) == CallsOf(p) + (if e.Persisted? then [e.call] else [])
  {
    assert (p + [e])[..|p|] == p;
  }

  lemma {:induction false} BatchIsIndependent(world: World, p: seq<Event>, q: seq<Event>, body: seq<Byte>,
      envelope: Envelope, rcpts: seq<Dest>, error: Option<int>)
    requires AnswersByStorage(world) && CallsOf(p) == CallsOf(q)
    ensures var t, u := Batch(world, p, body, envelope, rcpts, error), Batch(world, q, body, envelope, rcpts, error);
      SameFrom(p, t, q, u) && CallsOf(t) == CallsOf(u)
    decreases |rcpts|
  {
    if rcpts == [] {
      var e := Concluded(if error.Some? then Coded(error.value, 0, 0) else OK);
      CallsSnoc(p, e);
      CallsSnoc(q, e);
      SameFromStep(p, q, e, p + [e], q + [e]);
    } else {
      var call := Call(body, envelope, rcpts[0]);
      var e := world.persist(p, call);
      var event, error' := Persisted(call, e), if e.Some? then e else error;
      CallsSnoc(p, event);
      CallsSnoc(q, event);
      BatchIsIndependent(world, p + [event], q + [event], body, envelope, rcpts[1..], error');
      SameFromStep(p, q, event, Batch(world, p + [event], body, envelope, rcpts[1..], error'),
          Batch(world, q + [event], body, envelope, rcpts[1..], error'));
    }
  }

  lemma SameFromTrans(p: seq<Event>, p': seq<Event>, t: seq<Event>, q: seq<Event>, q': seq<Event>, u: seq<Event>)
    requires SameFrom(p, p', q, q') && SameFrom(p', t, q', u)
    ensures SameFrom(p, t, q, u)
  {
    assert t == p' + t[|p'|..] && u == q' + u[|q'|..];
    assert t[|p|..] == p'[|p|..] + t[|p'|..];
    assert u[|q|..] == q'[|q|..] + u[|q'|..];
  }

  /** A phase depends on what came before it only through what was stored. */
  lemma {:induction false} PhaseIsIndependent(world: World, secure: bool, bytes: seq<Byte>, s: Session,
      p: seq<Event>, q: seq<Event>)
    requires AnswersByStorage(world) && CallsOf(p) == CallsOf(q)
    ensures var a, b := Run(world, secure, bytes, s, p), Run(world, secure, bytes, s, q);
      SameFrom(p, a.0, q, b.0) && a.1 == b.1
    decreases |bytes|
  {
    hide Respond, NextLine, CallsOf, SameFrom, Received, Unstuffed, EnvelopeOf, AnswersByStorage;
    var n := NextLine(bytes);
    if n.Some? {
      var (line, rest) := n.value;
      var request := world.parse(line);
      var (next, reply, step) := Respond(world, secure, s, p, request);
      RespondByStorage(world, secure, s, p, q, request);
      var e := Answered(request, reply);
      CallsSnoc(p, e);
      CallsSnoc(q, e);
      var body := Unstuffed(rest);
      if step.Continue? {
        PhaseIsIndependent(world, secure, rest, next, p + [e], q + [e]);
      } else if step.Receive? && body.Some? {
        var p', q' := Received(world, p + [e], body.value.0, EnvelopeOf(world, s), s.rcpts),
            Received(world, q + [e], body.value.0, EnvelopeOf(world, s), s.rcpts);
        ReceivedIsIndependent(world, p + [e], q + [e], body.value.0, EnvelopeOf(world, s), s.rcpts);
        PhaseIsIndependent(world, secure, body.value.1, next, p', q');
        SameFromTrans(p + [e], p', Run(world, secure, body.value.1, next, p').0, q + [e], q',
            Run(world, secure, body.value.1, next, q').0);
      } else {
        SameFromSelf(p + [e], q + [e]);
      }
      SameFromStep(p, q, e, Run(world, secure, bytes, s, p).0, Run(world, secure, bytes, s, q).0);
    } else {
      SameFromSelf(p, q);
    }
  }

  lemma RespondByStorage(world: World, secure: bool, s: Session, p: seq<Event>, q: seq<Event>, request: Request)
    requires AnswersByStorage(world) && CallsOf(p) == CallsOf(q)
    ensures Respond(world, secure, s, p, request) == Respond(world, secure, s, q, request)
  {
    hide CallsOf;
  }

  lemma SameFromSelf(p: seq<Event>, q: seq<Event>)
    ensures SameFrom(p, p, q, q)
  {
  }

  lemma ReceivedIsIndependent(world: World, p: seq<Event>, q: seq<Event>, body: seq<Byte>, envelope: Envelope,
      rcpts: seq<Dest>)
    requires AnswersByStorage(world) && CallsOf(p) == CallsOf(q)
    ensures var t, u := Received(world, p, body, envelope, rcpts), Received(world, q, body, envelope, rcpts);
      SameFrom(p, t, q, u) && CallsOf(t) == CallsOf(u)
  {
    hide AnswersByStorage, CallsOf, Batch, SameFrom;
    BatchIsIndependent(world, p, q, body, envelope, rcpts, None);
    var e := Concluded(TOO_BIG);
    CallsSnoc(p, e);
    CallsSnoc(q, e);
    SaidAlike(p, q, e);
  }

  lemma SaidAlike(p: seq<Event>, q: seq<Event>, e: Event)
    ensures SameFrom(p, p + [e], q, q + [e])
  {
  }

  /** Two connections whose plain phases stored the same mail behave alike under TLS on the same bytes,
      whatever else the plain phases said. */
  lemma TlsPhaseDependsOnTlsBytes(world: World, plain: seq<Byte>, other: seq<Byte>, tls: seq<Byte>)
    ensures var (p, end) := Run(world, false, plain, FRESH, [Banner(220)]);
      var (q, end') := Run(world, false, other, FRESH, [Banner(220)]);
      AnswersByStorage(world) && end == end' == Upgraded && CallsOf(p) == CallsOf(q)
      ==> SameFrom(p, Serve(world, false, plain, Some(tls)), q, Serve(world, false, other, Some(tls)))
  {
    hide Run, CallsOf, SameFrom, AnswersByStorage;
    var p, q := Run(world, false, plain, FRESH, [Banner(220)]).0, Run(world, false, other, FRESH, [Banner(220)]).0;
    if AnswersByStorage(world) && CallsOf(p) == CallsOf(q) {
      PhaseIsIndependent(world, true, tls, FRESH, p, q);
    }
  }
}
