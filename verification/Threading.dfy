/** Which thread an inbound message belongs to: Message-ID linkage, per inbox. */
module Threading {
  import opened Prelude

  // ---- header text -----------------------------------------------------------------------------

  /** Unicode White_Space, which `str::trim` strips. */
  predicate IsSpace(c: char) {
    var n := c as int;
    9 <= n <= 13 || n == 0x20 || n == 0x85 || n == 0xA0 || n == 0x1680 || 0x2000 <= n <= 0x200A
    || n == 0x2028 || n == 0x2029 || n == 0x202F || n == 0x205F || n == 0x3000
  }

  predicate AllSpace(s: string) {
    forall i :: 0 <= i < |s| ==> IsSpace(s[i])
  }

  function TrimStart(s: string): string {
    if s != [] && IsSpace(s[0]) then TrimStart(s[1..]) else s
  }

  function TrimEnd(s: string): string {
    if s != [] && IsSpace(s[|s| - 1]) then TrimEnd(s[..|s| - 1]) else s
  }

  function Trim(s: string): string {
    TrimEnd(TrimStart(s))
  }

  predicate IsBracketed(s: string) {
    s != [] && s[0] == '<' && s[|s| - 1] == '>'
  }

  function Bracketed(s: string): string {
    if IsBracketed(s) then s else "<" + s + ">"
  }

  /** Blank and `<>` carry no linkage. */
  predicate Blank(trimmed: string) {
    trimmed == "" || trimmed == "<>"
  }

  /** A linkage header value as it is compared: trimmed and bracketed. */
  function CanonicalLink(id: string): Option<string> {
    var t := Trim(id);
    if Blank(t) then None else Some(Bracketed(t))
  }

  /** A stored id as it is indexed: trimmed only. */
  function IndexKey(id: string): Option<string> {
    var t := Trim(id);
    if Blank(t) then None else Some(t)
  }

  lemma {:induction false} TrimStartPadding(pre: string, s: string)
    requires AllSpace(pre)
    ensures TrimStart(pre + s) == TrimStart(s)
  {
    if pre == [] {
      assert pre + s == s;
    } else {
      assert (pre + s)[0] == pre[0] && (pre + s)[1..] == pre[1..] + s;
      TrimStartPadding(pre[1..], s);
    }
  }

  lemma {:induction false} TrimEndPadding(s: string, post: string)
    requires AllSpace(post)
    ensures TrimEnd(s + post) == TrimEnd(s)
  {
    if post == [] {
      assert s + post == s;
    } else {
      var n := |post| - 1;
      assert (s + post)[|s + post| - 1] == post[n] && (s + post)[..|s + post| - 1] == s + post[..n];
      TrimEndPadding(s, post[..n]);
    }
  }

  lemma {:induction false} TrimStartAll(s: string)
    requires AllSpace(s)
    ensures TrimStart(s) == ""
  {
    if s == [] {
    } else {
      TrimStartAll(s[1..]);
    }
  }

  lemma {:induction false} TrimStartAppend(s: string, post: string)
    requires !AllSpace(s)
    ensures TrimStart(s + post) == TrimStart(s) + post
  {
    assert s != [] && (s + post)[0] == s[0] && (s + post)[1..] == s[1..] + post;
    if IsSpace(s[0]) {
      TrimStartAppend(s[1..], post);
    }
  }

  /** Folding whitespace around a value is invisible. */
  lemma PaddingIsIgnored(pre: string, s: string, post: string)
    requires AllSpace(pre) && AllSpace(post)
    ensures Trim(pre + s + post) == Trim(s)
    ensures CanonicalLink(pre + s + post) == CanonicalLink(s)
  {
    assert pre + s + post == pre + (s + post);
    TrimStartPadding(pre, s + post);
    if AllSpace(s) {
      TrimStartAll(s);
      TrimStartAll(s + post);
    } else {
      TrimStartAppend(s, post);
      TrimEndPadding(TrimStart(s), post);
    }
  }

  /** Angle brackets around an unbracketed, trimmed value are invisible too. */
  lemma BracketsAreIgnored(id: string)
    requires Trim(id) == id && !IsBracketed(id)
    ensures CanonicalLink("<" + id + ">") == CanonicalLink(id)
  {
    EndsAreFixed("<" + id + ">");
  }

  lemma EndsAreFixed(s: string)
    requires s == [] || (!IsSpace(s[0]) && !IsSpace(s[|s| - 1]))
    ensures Trim(s) == s
  {
  }

  lemma {:induction false} TrimStartMeans(s: string) returns (pre: string)
    ensures s == pre + TrimStart(s) && AllSpace(pre)
    ensures TrimStart(s) != "" ==> !IsSpace(TrimStart(s)[0])
  {
    pre := "";
    if s != [] && IsSpace(s[0]) {
      var more := TrimStartMeans(s[1..]);
      pre := [s[0]] + more;
    }
  }

  lemma {:induction false} TrimEndMeans(s: string) returns (post: string)
    ensures s == TrimEnd(s) + post && AllSpace(post)
    ensures TrimEnd(s) != "" ==> !IsSpace(TrimEnd(s)[|TrimEnd(s)| - 1])
  {
    post := "";
    if s != [] && IsSpace(s[|s| - 1]) {
      var more := TrimEndMeans(s[..|s| - 1]);
      post := more + [s[|s| - 1]];
    }
  }

  /** Trimming takes whitespace off both ends, all of it, and nothing else. */
  lemma TrimMeans(s: string) returns (pre: string, post: string)
    ensures s == pre + Trim(s) + post && AllSpace(pre) && AllSpace(post)
    ensures Trim(s) != "" ==> !IsSpace(Trim(s)[0]) && !IsSpace(Trim(s)[|Trim(s)| - 1])
  {
    pre := TrimStartMeans(s);
    post := TrimEndMeans(TrimStart(s));
    assert Trim(s) != "" ==> Trim(s)[0] == TrimStart(s)[0];
  }

  /** The canonical link of a text is what is left of it between angle brackets, its own or added ones; a
      text that leaves nothing, or an empty pair of brackets, has none. */
  lemma CanonicalLinkMeans(text: string)
    ensures var t := Trim(text);
      CanonicalLink(text) ==
        if t == "" || t == "<>" then None
        else if t[0] == '<' && t[|t| - 1] == '>' then Some(t) else Some("<" + t + ">")
  {
  }

  /** A canonical link is its own canonical link and its own index key. */
  lemma LinkIsFixed(id: string)
    requires CanonicalLink(id).Some?
    ensures var l := CanonicalLink(id).value;
      Trim(l) == l && !Blank(l) && Bracketed(l) == l && CanonicalLink(l) == Some(l) && IndexKey(l) == Some(l)
  {
    var l := CanonicalLink(id).value;
    EndsAreFixed(l);
    if Bracketed(Trim(id)) != Trim(id) {
      assert |l| > 2;
    }
  }

  // ---- the index -------------------------------------------------------------------------------

  /** (folded inbox, index key) to thread. */
  type Index = map<(string, string), int>

  function ThreadOf(index: Index, inbox: string, id: string): Option<int> {
    var key := IndexKey(id);
    if key.Some? && (Lower(inbox), key.value) in index then Some(index[(Lower(inbox), key.value)]) else None
  }

  function Inserted(index: Index, inbox: string, id: string, thread: int): Index {
    var key := IndexKey(id);
    if key.Some? then index[(Lower(inbox), key.value) := thread] else index
  }

  // ---- assignment ------------------------------------------------------------------------------

  datatype Candidate = Candidate(inbox: string, own: Option<string>, inReplyTo: Option<string>, references: seq<string>)

  datatype NewReason = NoLinkage | UnknownLinkage | AmbiguousLinkage

  datatype Assignment = Existing(thread: int, linkedBy: string) | New(reason: NewReason)

  /** The canonical link of a header value, unless it names the message itself. */
  function Usable(c: Candidate, raw: string): Option<string> {
    var link := CanonicalLink(raw);
    var own := if c.own.Some? then CanonicalLink(c.own.value) else None;
    if link.Some? && own == link then None else link
  }

  /** The distinct links a list of references carries. */
  function Links(c: Candidate, refs: seq<string>): set<string> {
    set r | r in refs && Usable(c, r).Some? :: Usable(c, r).value
  }

  /** The threads a set of links reaches in one inbox. */
  function Reached(index: Index, inbox: string, links: set<string>): set<int> {
    set l | l in links && ThreadOf(index, inbox, l).Some? :: ThreadOf(index, inbox, l).value
  }

  /** The first reference, in header order, that resolves. */
  function FirstResolving(index: Index, c: Candidate, refs: seq<string>): Option<(int, string)> {
    if refs == [] then None
    else
      var earlier := FirstResolving(index, c, refs[..|refs| - 1]);
      var link := Usable(c, refs[|refs| - 1]);
      if earlier.Some? then earlier
      else if link.Some? && ThreadOf(index, c.inbox, link.value).Some?
      then Some((ThreadOf(index, c.inbox, link.value).value, link.value))
      else None
  }

  function Parent(c: Candidate): Option<string> {
    if c.inReplyTo.Some? then Usable(c, c.inReplyTo.value) else None
  }

  /** The rule as sets: the parent if it resolves; else join iff the references reach exactly one thread. */
  function AssignmentOf(index: Index, c: Candidate): Assignment {
    var parent := Parent(c);
    var reached := Reached(index, c.inbox, Links(c, c.references));
    var first := FirstResolving(index, c, c.references);
    if parent.Some? && ThreadOf(index, c.inbox, parent.value).Some?
    then Existing(ThreadOf(index, c.inbox, parent.value).value, parent.value)
    else if |reached| >= 2 then New(AmbiguousLinkage)
    else if first.Some? then Existing(first.value.0, first.value.1)
    else if parent.Some? || Links(c, c.references) != {} then New(UnknownLinkage)
    else New(NoLinkage)
  }

  lemma LinksSnoc(c: Candidate, refs: seq<string>, r: string)
    ensures Links(c, refs + [r]) == Links(c, refs) + (if Usable(c, r).Some? then {Usable(c, r).value} else {})
  {
    assert forall x :: x in refs + [r] <==> x in refs || x == r;
  }

  lemma ReachedGrows(index: Index, inbox: string, links: set<string>, l: string)
    ensures Reached(index, inbox, links + {l}) ==
      Reached(index, inbox, links) + (if ThreadOf(index, inbox, l).Some? then {ThreadOf(index, inbox, l).value} else {})
  {
  }

  lemma TwoMembers<T>(s: set<T>, a: T, b: T)
    requires a in s && b in s && a != b
    ensures |s| >= 2
  {
    assert {a, b} <= s;
    assert s == {a, b} + (s - {a, b});
    assert |{a, b}| == 2;
  }

  lemma NotJustOne<T>(s: set<T>, a: T)
    requires a in s
    ensures |s| >= 2 <==> s != {a}
  {
    if s != {a} {
      assert s - {a} != {} by { assert s == (s - {a}) + {a}; }
      var b := Pick(s - {a});
      TwoMembers(s, a, b);
    }
  }

  lemma Pick<T>(s: set<T>) returns (t: T)
    requires s != {}
    ensures t in s
  {
    t :| t in s;
  }

  lemma SizeClasses(s: set<int>)
    ensures |s| >= 2 <==> exists t, u :: t in s && u in s && t != u
    ensures (exists t :: s == {t}) <==> s != {} && |s| < 2
    ensures forall t :: t in s && |s| < 2 ==> s == {t}
  {
    forall t, u | t in s && u in s && t != u ensures |s| >= 2 {
      TwoMembers(s, t, u);
    }
    if s != {} {
      var t := Pick(s);
      NotJustOne(s, t);
      if s != {t} {
        assert s - {t} != {} by { assert s == (s - {t}) + {t}; }
        var u := Pick(s - {t});
        assert t in s && u in s && t != u;
      }
    }
    forall t | t in s ensures |s| < 2 ==> s == {t} {
      NotJustOne(s, t);
    }
  }

  /** What the accumulators say about the references read so far. */
  ghost predicate Scanned(index: Index, c: Candidate, refs: seq<string>, visited: set<string>,
      resolved: Option<(int, string)>, ambiguous: bool) {
    && visited == Links(c, refs)
    && resolved == FirstResolving(index, c, refs)
    && (resolved.None? ==> !ambiguous && Reached(index, c.inbox, visited) == {})
    && (resolved.Some? ==>
          && resolved.value.0 in Reached(index, c.inbox, visited)
          && (ambiguous <==> Reached(index, c.inbox, visited) != {resolved.value.0}))
  }

  lemma ScanUnusable(index: Index, c: Candidate, refs: seq<string>, raw: string, visited: set<string>,
      resolved: Option<(int, string)>, ambiguous: bool)
    requires Scanned(index, c, refs, visited, resolved, ambiguous)
    requires Usable(c, raw).None? || Usable(c, raw).value in visited
    ensures Scanned(index, c, refs + [raw], visited, resolved, ambiguous)
  {
    LinksSnoc(c, refs, raw);
    assert (refs + [raw])[..|refs|] == refs;
    if Usable(c, raw).Some? {
      RepeatResolvesNothingNew(index, c, refs, Usable(c, raw).value);
      assert visited + {Usable(c, raw).value} == visited;
    }
    hide Usable, ThreadOf, Links, Reached;
  }

  lemma ScanLink(index: Index, c: Candidate, refs: seq<string>, raw: string, visited: set<string>,
      resolved: Option<(int, string)>, ambiguous: bool)
    requires Scanned(index, c, refs, visited, resolved, ambiguous)
    requires Usable(c, raw).Some?
    ensures var link := Usable(c, raw).value;
      var t := ThreadOf(index, c.inbox, link);
      Scanned(index, c, refs + [raw], visited + {link},
        if t.Some? && resolved.None? then Some((t.value, link)) else resolved,
        ambiguous || (t.Some? && resolved.Some? && resolved.value.0 != t.value))
  {
    LinksSnoc(c, refs, raw);
    assert (refs + [raw])[..|refs|] == refs;
    ReachedGrows(index, c.inbox, visited, Usable(c, raw).value);
    hide Usable, ThreadOf, Links, Reached;
  }

  /** The loop with its accumulators: visited links, first resolution, ambiguity, any link at all. */
  method Assign(index: Index, c: Candidate) returns (r: Assignment)
    ensures r == AssignmentOf(index, c)
  {
    hide Usable, ThreadOf, Links, Reached, FirstResolving;
    var hadLink := false;
    var parent := if c.inReplyTo.Some? then Usable(c, c.inReplyTo.value) else None;
    if parent.Some? {
      hadLink := true;
      var t := ThreadOf(index, c.inbox, parent.value);
      if t.Some? {
        return Existing(t.value, parent.value);
      }
    }
    var visited: set<string> := {};
    var resolved: Option<(int, string)> := None;
    var ambiguous := false;
    ScanNothing(index, c);
    var i := 0;
    while i < |c.references|
      invariant 0 <= i <= |c.references|
      invariant Scanned(index, c, c.references[..i], visited, resolved, ambiguous)
      invariant hadLink <==> parent.Some? || visited != {}
    {
      var raw := c.references[i];
      assert c.references[..i + 1] == c.references[..i] + [raw];
      i := i + 1;
      var link := Usable(c, raw);
      if link.None? {
        ScanUnusable(index, c, c.references[..i - 1], raw, visited, resolved, ambiguous);
        continue;
      }
      hadLink := true;
      if link.value in visited {
        ScanUnusable(index, c, c.references[..i - 1], raw, visited, resolved, ambiguous);
        continue;
      }
      ScanLink(index, c, c.references[..i - 1], raw, visited, resolved, ambiguous);
      visited := visited + {link.value};
      var t := ThreadOf(index, c.inbox, link.value);
      if t.Some? {
        if resolved.None? {
          resolved := Some((t.value, link.value));
        } else if resolved.value.0 != t.value {
          ambiguous := true;
        }
      }
    }
    assert c.references[..i] == c.references;
    if resolved.Some? {
      NotJustOne(Reached(index, c.inbox, visited), resolved.value.0);
    }
    if ambiguous {
      return New(AmbiguousLinkage);
    }
    if resolved.Some? {
      return Existing(resolved.value.0, resolved.value.1);
    }
    if hadLink {
      return New(UnknownLinkage);
    }
    return New(NoLinkage);
  }

  lemma ScanNothing(index: Index, c: Candidate)
    ensures Scanned(index, c, c.references[..0], {}, None, false)
  {
  }

  lemma {:induction false} RepeatResolvesNothingNew(index: Index, c: Candidate, refs: seq<string>, l: string)
    requires l in Links(c, refs)
    ensures ThreadOf(index, c.inbox, l).Some? ==> FirstResolving(index, c, refs).Some?
  {
    var n := |refs| - 1;
    assert refs == refs[..n] + [refs[n]];
    LinksSnoc(c, refs[..n], refs[n]);
    if l in Links(c, refs[..n]) {
      RepeatResolvesNothingNew(index, c, refs[..n], l);
    }
  }

  lemma {:induction false} FirstResolvingMeans(index: Index, c: Candidate, refs: seq<string>)
    ensures FirstResolving(index, c, refs).Some? <==> Reached(index, c.inbox, Links(c, refs)) != {}
    ensures FirstResolving(index, c, refs).Some? ==>
      var (t, l) := FirstResolving(index, c, refs).value;
      l in Links(c, refs) && ThreadOf(index, c.inbox, l) == Some(t) && t in Reached(index, c.inbox, Links(c, refs))
  {
    if refs == [] {
    } else {
      var n := |refs| - 1;
      assert refs == refs[..n] + [refs[n]];
      LinksSnoc(c, refs[..n], refs[n]);
      FirstResolvingMeans(index, c, refs[..n]);
      if Usable(c, refs[n]).Some? {
        ReachedGrows(index, c.inbox, Links(c, refs[..n]), Usable(c, refs[n]).value);
      }
    }
  }

  /** Joining is always into a thread that a usable link of the candidate reaches; without a resolving
      parent it happens iff the references reach exactly one thread, and the outcome is ambiguous iff
      they reach two or more. */
  lemma AssignmentMeans(index: Index, c: Candidate)
    ensures var a := AssignmentOf(index, c);
      var reached := Reached(index, c.inbox, Links(c, c.references));
      && (a.Existing? ==> ThreadOf(index, c.inbox, a.linkedBy) == Some(a.thread)
                          && (Parent(c) == Some(a.linkedBy) || a.linkedBy in Links(c, c.references)))
      && (Parent(c).Some? && ThreadOf(index, c.inbox, Parent(c).value).Some? ==>
            a == Existing(ThreadOf(index, c.inbox, Parent(c).value).value, Parent(c).value))
      && (Parent(c).None? || ThreadOf(index, c.inbox, Parent(c).value).None? ==>
            && (a.Existing? <==> exists t :: reached == {t})
            && (a.Existing? ==> reached == {a.thread})
            && (a == New(AmbiguousLinkage) <==> exists t, u :: t in reached && u in reached && t != u)
            && (a == New(NoLinkage) <==> Parent(c).None? && Links(c, c.references) == {}))
  {
    FirstResolvingMeans(index, c, c.references);
    var reached := Reached(index, c.inbox, Links(c, c.references));
    var first := FirstResolving(index, c, c.references);
    SizeClasses(reached);
    hide Usable, ThreadOf, Links, Reached, FirstResolving;
  }

  // ---- what the outcome may depend on ----------------------------------------------------------

  /** Equal up to which of several agreeing references is credited. */
  predicate SameOutcome(a: Assignment, b: Assignment) {
    if a.Existing? then b.Existing? && a.thread == b.thread else a == b
  }

  lemma OutcomeDependsOnLinksOnly(index: Index, c: Candidate, refs: seq<string>)
    requires Links(c, c.references) == Links(c, refs)
    ensures SameOutcome(AssignmentOf(index, c), AssignmentOf(index, c.(references := refs)))
  {
    var d := c.(references := refs);
    assert forall r :: Usable(c, r) == Usable(d, r);
    assert Links(d, refs) == Links(c, refs);
    AssignmentMeans(index, c);
    AssignmentMeans(index, d);
  }

  /** Permuting or repeating references changes nothing. */
  lemma OrderAndRepetitionAreIgnored(index: Index, c: Candidate, refs: seq<string>)
    requires forall r :: r in refs <==> r in c.references
    ensures SameOutcome(AssignmentOf(index, c), AssignmentOf(index, c.(references := refs)))
  {
    OutcomeDependsOnLinksOnly(index, c, refs);
  }

  /** Nor does respelling each reference, by padding or brackets, into one with the same canonical link. */
  lemma SpellingIsIgnored(index: Index, c: Candidate, refs: seq<string>)
    requires |refs| == |c.references|
    requires forall i :: 0 <= i < |refs| ==> CanonicalLink(refs[i]) == CanonicalLink(c.references[i])
    ensures SameOutcome(AssignmentOf(index, c), AssignmentOf(index, c.(references := refs)))
  {
    forall l ensures l in Links(c, refs) <==> l in Links(c, c.references) {
      if l in Links(c, refs) {
        var i :| 0 <= i < |refs| && Usable(c, refs[i]) == Some(l);
        assert c.references[i] in c.references && Usable(c, c.references[i]) == Some(l);
      }
      if l in Links(c, c.references) {
        var i :| 0 <= i < |refs| && Usable(c, c.references[i]) == Some(l);
        assert refs[i] in refs && Usable(c, refs[i]) == Some(l);
      }
    }
    OutcomeDependsOnLinksOnly(index, c, refs);
  }

  lemma {:induction false} FirstResolvingAgrees(a: Index, b: Index, c: Candidate, refs: seq<string>)
    requires forall l :: l in Links(c, refs) ==> ThreadOf(a, c.inbox, l) == ThreadOf(b, c.inbox, l)
    ensures FirstResolving(a, c, refs) == FirstResolving(b, c, refs)
  {
    if refs == [] {
    } else {
      var n := |refs| - 1;
      assert refs == refs[..n] + [refs[n]];
      LinksSnoc(c, refs[..n], refs[n]);
      FirstResolvingAgrees(a, b, c, refs[..n]);
    }
  }

  /** Two indexes that agree on the links a candidate carries assign it alike. */
  lemma AssignmentIsLocal(a: Index, b: Index, c: Candidate)
    requires Parent(c).Some? ==> ThreadOf(a, c.inbox, Parent(c).value) == ThreadOf(b, c.inbox, Parent(c).value)
    requires forall l :: l in Links(c, c.references) ==> ThreadOf(a, c.inbox, l) == ThreadOf(b, c.inbox, l)
    ensures AssignmentOf(a, c) == AssignmentOf(b, c)
  {
    FirstResolvingAgrees(a, b, c, c.references);
    assert Reached(a, c.inbox, Links(c, c.references)) == Reached(b, c.inbox, Links(c, c.references));
  }
}
