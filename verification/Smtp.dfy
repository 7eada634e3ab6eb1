/** The inbound SMTP session: line framing over arbitrary reads, DATA, commands and STARTTLS. */
module Smtp {
  import opened Prelude

  const NL: Byte := 10
  const CR: Byte := 13
  const DOT: Byte := 46

  const READ_SIZE := 1024
  const LINE_LIMIT := 16 * 1024
  /** The longest line every chunking delivers: the limit is checked on the whole buffer after a read. */
  const SAFE_LINE := LINE_LIMIT - (READ_SIZE - 1)

  // ---- framing ---------------------------------------------------------------------------------

  /** Bytes already buffered, and what each later read of the socket will return. */
  datatype Wire = Wire(buf: seq<Byte>, chunks: seq<seq<Byte>>)

  predicate Sound(w: Wire) {
    |w.buf| <= LINE_LIMIT && forall i :: 0 <= i < |w.chunks| ==> 1 <= |w.chunks[i]| <= READ_SIZE
  }

  function Flat(parts: seq<seq<Byte>>): seq<Byte> {
    if parts == [] then [] else parts[0] + Flat(parts[1..])
  }

  function Bytes(w: Wire): seq<Byte> {
    w.buf + Flat(w.chunks)
  }

  /** Where the first newline is, or the length when there is none. */
  function NewlineAt(bytes: seq<Byte>): (at: nat)
    ensures at <= |bytes| && NL !in bytes[..at] && (at < |bytes| ==> bytes[at] == NL)
  {
    if bytes == [] then 0
    else if bytes[0] == NL then 0
    else
      var at := NewlineAt(bytes[1..]);
      assert bytes[..at + 1] == [bytes[0]] + bytes[1..][..at];
      at + 1
  }

  lemma NewlineIsFirst(bytes: seq<Byte>, at: nat)
    requires at <= |bytes| && NL !in bytes[..at] && (at < |bytes| ==> bytes[at] == NL)
    ensures NewlineAt(bytes) == at
  {
    var n := NewlineAt(bytes);
    assert forall i :: 0 <= i < at ==> bytes[..at][i] == bytes[i];
    assert forall i :: 0 <= i < n ==> bytes[..n][i] == bytes[i];
  }

  datatype Framed = Line(text: seq<Byte>) | Eof | TooLong

  function FrameLine(w: Wire): (r: (Framed, Wire))
    ensures r.0.Line? ==> r.0.text != [] && Bytes(w) == r.0.text + Bytes(r.1)
    decreases |w.chunks|
  {
    var at := NewlineAt(w.buf);
    if at < |w.buf| then (Line(w.buf[..at + 1]), Wire(w.buf[at + 1..], w.chunks))
    else if w.chunks == [] then (Eof, w)
    else
      var grown := Wire(w.buf + w.chunks[0], w.chunks[1..]);
      assert Bytes(grown) == Bytes(w);
      if |grown.buf| > LINE_LIMIT then (TooLong, grown) else FrameLine(grown)
  }

  /** What framing means on the bytes alone. */
  lemma {:induction false} FrameLineMeans(w: Wire)
    requires Sound(w)
    ensures var (f, after) := FrameLine(w);
      var at := NewlineAt(Bytes(w));
      && (f.Line? ==> Sound(after) && at < LINE_LIMIT && at < |Bytes(w)|
                      && f.text == Bytes(w)[..at + 1] && Bytes(after) == Bytes(w)[at + 1..])
      && (f.Eof? ==> at == |Bytes(w)| <= LINE_LIMIT)
      && (f.TooLong? ==> at >= SAFE_LINE && |Bytes(w)| > LINE_LIMIT)
    decreases |w.chunks|
  {
    var at := NewlineAt(w.buf);
    if at < |w.buf| {
      assert Bytes(w)[..at] == w.buf[..at];
      NewlineIsFirst(Bytes(w), at);
    } else if w.chunks == [] {
      assert Bytes(w) == w.buf;
    } else {
      var grown := Wire(w.buf + w.chunks[0], w.chunks[1..]);
      assert Bytes(grown) == Bytes(w);
      if |grown.buf| <= LINE_LIMIT {
        FrameLineMeans(grown);
      } else {
        assert w.buf[..at] == w.buf;
        forall i | 0 <= i < at ensures Bytes(w)[i] != NL {
          assert w.buf[i] in w.buf;
        }
      }
    }
  }

  function Singles(bytes: seq<Byte>): seq<seq<Byte>> {
    if bytes == [] then [] else [[bytes[0]]] + Singles(bytes[1..])
  }

  lemma {:induction false} FlatSingles(bytes: seq<Byte>)
    ensures Flat(Singles(bytes)) == bytes && Sound(Wire([], Singles(bytes)))
  {
    if bytes == [] {
    } else {
      FlatSingles(bytes[1..]);
    }
  }

  lemma {:induction false} FlatAppend(a: seq<seq<Byte>>, b: seq<seq<Byte>>)
    ensures Flat(a + b) == Flat(a) + Flat(b)
  {
    if a == [] {
      assert a + b == b;
    } else {
      assert (a + b)[0] == a[0] && (a + b)[1..] == a[1..] + b;
      FlatAppend(a[1..], b);
    }
  }

  /** One-byte reads of bytes without a newline only fill the buffer. */
  lemma {:induction false} SinglesFill(buf: seq<Byte>, bytes: seq<Byte>, chunks: seq<seq<Byte>>)
    requires NL !in buf && NL !in bytes && |buf| + |bytes| <= LINE_LIMIT
    ensures FrameLine(Wire(buf, Singles(bytes) + chunks)) == FrameLine(Wire(buf + bytes, chunks))
    decreases |bytes|
  {
    if bytes == [] {
      assert Singles(bytes) + chunks == chunks && buf + bytes == buf;
    } else {
      var all := Singles(bytes) + chunks;
      assert all[0] == [bytes[0]] && all[1..] == Singles(bytes[1..]) + chunks;
      SinglesFill(buf + [bytes[0]], bytes[1..], chunks);
      assert buf + [bytes[0]] + bytes[1..] == buf + bytes;
    }
  }

  predicate Delivers(w: Wire, bytes: seq<Byte>) {
    w.buf == [] && Sound(w) && Flat(w.chunks) == bytes
  }

  /** How the network splits a stream into reads changes the framing of its first line exactly when that
      line is longer than 15361 and at most 16384 bytes and more than 16384 bytes are sent. */
  lemma FramingDependsOnReadsIff(bytes: seq<Byte>)
    ensures (forall v, w :: Delivers(v, bytes) && Delivers(w, bytes) ==> FrameLine(v).0 == FrameLine(w).0)
            <==> !(SAFE_LINE <= NewlineAt(bytes) < LINE_LIMIT < |bytes|)
  {
    var at := NewlineAt(bytes);
    if SAFE_LINE <= at < LINE_LIMIT < |bytes| {
      var slow := SlowReads(bytes);
      var fast := FastReads(bytes);
      assert FrameLine(slow).0 != FrameLine(fast).0;
    } else {
      forall v, w | Delivers(v, bytes) && Delivers(w, bytes) ensures FrameLine(v).0 == FrameLine(w).0 {
        FrameLineMeans(v);
        FrameLineMeans(w);
        hide FrameLine;
        assert Bytes(v) == bytes && Bytes(w) == bytes;
      }
    }
  }

  lemma SlowReads(bytes: seq<Byte>) returns (w: Wire)
    requires NewlineAt(bytes) < LINE_LIMIT && NewlineAt(bytes) < |bytes|
    ensures Delivers(w, bytes) && FrameLine(w).0.Line?
  {
    hide Sound, Flat;
    var at := NewlineAt(bytes);
    w := Wire([], Singles(bytes));
    FlatSingles(bytes);
    SinglesAppend(bytes[..at], bytes[at..]);
    assert bytes[..at] + bytes[at..] == bytes;
    SinglesFill([], bytes[..at], Singles(bytes[at..]));
    assert [] + bytes[..at] == bytes[..at];
    var full := bytes[..at] + [NL];
    assert Singles(bytes[at..])[0] == [NL];
    NewlineIsFirst(bytes[..at], at);
    assert full[..at] == bytes[..at];
    NewlineIsFirst(full, at);
  }

  lemma {:induction false} SinglesAppend(a: seq<Byte>, b: seq<Byte>)
    ensures Singles(a + b) == Singles(a) + Singles(b)
  {
    if a == [] {
      assert a + b == b;
    } else {
      assert (a + b)[0] == a[0] && (a + b)[1..] == a[1..] + b;
      SinglesAppend(a[1..], b);
    }
  }

  lemma FastReads(bytes: seq<Byte>) returns (w: Wire)
    requires SAFE_LINE <= NewlineAt(bytes) && LINE_LIMIT < |bytes|
    ensures Delivers(w, bytes) && FrameLine(w).0 == TooLong
  {
    var first, second, rest := bytes[..SAFE_LINE], bytes[SAFE_LINE..LINE_LIMIT + 1], bytes[LINE_LIMIT + 1..];
    assert NL !in first by { assert first == bytes[..NewlineAt(bytes)][..SAFE_LINE]; }
    var tail := [second] + Singles(rest);
    w := Wire([], Singles(first) + tail);
    FastFlat(first, second, rest);
    assert first + (second + rest) == bytes;
    SinglesFill([], first, tail);
    assert [] + first == first;
    Overflows(first, second, Singles(rest));
  }

  lemma FastFlat(first: seq<Byte>, second: seq<Byte>, rest: seq<Byte>)
    requires 1 <= |second| <= READ_SIZE
    ensures var chunks := Singles(first) + ([second] + Singles(rest));
      Flat(chunks) == first + (second + rest) && Sound(Wire([], chunks))
  {
    FlatSingles(first);
    FlatSingles(rest);
    var tail := [second] + Singles(rest);
    FlatAppend(Singles(first), tail);
    assert tail[0] == second && tail[1..] == Singles(rest);
  }

  lemma Overflows(buf: seq<Byte>, chunk: seq<Byte>, chunks: seq<seq<Byte>>)
    requires NL !in buf && |buf| + |chunk| > LINE_LIMIT
    ensures FrameLine(Wire(buf, [chunk] + chunks)).0 == TooLong
  {
    assert buf[..|buf|] == buf;
    NewlineIsFirst(buf, |buf|);
  }

  // ---- DATA ------------------------------------------------------------------------------------

  predicate IsDataEnd(line: seq<Byte>) {
    line == [DOT, CR, NL] || line == [DOT, NL]
  }

  function Destuff(line: seq<Byte>): seq<Byte> {
    if |line| >= 2 && line[0] == DOT && line[1] == DOT then line[1..] else line
  }

  datatype Collected = Body(data: seq<Byte>, oversize: bool) | Cut | Overlong

  function Collect(w: Wire, cap: nat, data: seq<Byte>, oversize: bool): (Collected, Wire)
    decreases |Bytes(w)|
  {
    match FrameLine(w)
    case (Eof, after) => (Cut, after)
    case (TooLong, after) => (Overlong, after)
    case (Line(line), after) =>
      if IsDataEnd(line) then (Body(data, oversize), after)
      else if oversize then Collect(after, cap, data, true)
      else if |data| + |Destuff(line)| > cap then Collect(after, cap, [], true)
      else Collect(after, cap, data + Destuff(line), false)
  }

  function NextLine(bytes: seq<Byte>): (r: Option<(seq<Byte>, seq<Byte>)>)
    ensures r.Some? ==> r.value.0 != [] && bytes == r.value.0 + r.value.1
  {
    var at := NewlineAt(bytes);
    if at < |bytes| then Some((bytes[..at + 1], bytes[at + 1..])) else None
  }

  /** The body a stream carries, as the concatenation of its unstuffed lines, and what follows the
      terminator; nothing when the stream ends first. */
  function Unstuffed(bytes: seq<Byte>): (r: Option<(seq<Byte>, seq<Byte>)>)
    ensures r.Some? ==> |r.value.1| < |bytes|
    decreases |bytes|
  {
    match NextLine(bytes)
    case None => None
    case Some((line, rest)) =>
      if IsDataEnd(line) then Some(([], rest))
      else
        var more := Unstuffed(rest);
        if more.None? then None else Some((Destuff(line) + more.value.0, more.value.1))
  }

  /** Every line up to the end of DATA is short enough for any chunking. */
  predicate DataBounded(bytes: seq<Byte>)
    decreases |bytes|
  {
    match NextLine(bytes)
    case None => |bytes| <= SAFE_LINE
    case Some((line, rest)) => |line| <= SAFE_LINE && (IsDataEnd(line) || DataBounded(rest))
  }

  lemma FrameIsNextLine(w: Wire)
    requires Sound(w)
    ensures var (f, after) := FrameLine(w);
      && (f.Line? ==> Sound(after) && NextLine(Bytes(w)) == Some((f.text, Bytes(after))))
      && (f.Eof? ==> NextLine(Bytes(w)).None?)
      && (f.TooLong? ==> !DataBounded(Bytes(w)))
  {
    FrameLineMeans(w);
  }

  lemma {:induction false} CollectGoesOn(w: Wire, cap: nat, data: seq<Byte>, oversize: bool)
    requires Sound(w) && |data| <= cap && (oversize ==> data == [])
    ensures var (c, after) := Collect(w, cap, data, oversize);
      var body := Unstuffed(Bytes(w));
      && (c.Body? ==> Sound(after) && body.Some? && Bytes(after) == body.value.1
                      && c == if oversize || |data| + |body.value.0| > cap then Body([], true)
                              else Body(data + body.value.0, false))
      && (c.Cut? ==> body.None?)
      && (c.Overlong? ==> !DataBounded(Bytes(w)))
    decreases |Bytes(w)|
  {
    hide FrameLine, Sound, NextLine, Bytes, Destuff;
    FrameIsNextLine(w);
    var (f, after) := FrameLine(w);
    if f.Line? && !IsDataEnd(f.text) {
      if oversize || |data| + |Destuff(f.text)| > cap {
        CollectGoesOn(after, cap, [], true);
      } else {
        CollectGoesOn(after, cap, data + Destuff(f.text), false);
        if Unstuffed(Bytes(after)).Some? {
          var more := Unstuffed(Bytes(after)).value.0;
          assert data + Destuff(f.text) + more == data + (Destuff(f.text) + more);
        }
      }
    } else if f.Line? {
      assert data + [] == data;
    }
  }

  /** Collecting under any chunking: the body when it fits, nothing when it does not, and in both cases
      exactly the bytes behind the terminator are left. Only a line over 15361 bytes stops it early. */
  lemma CollectMeans(w: Wire, cap: nat)
    requires Sound(w)
    ensures var (c, after) := Collect(w, cap, [], false);
      var body := Unstuffed(Bytes(w));
      && (c.Body? ==> Sound(after) && body.Some? && Bytes(after) == body.value.1
                      && c == if |body.value.0| <= cap then Body(body.value.0, false) else Body([], true))
      && (c.Cut? ==> body.None?)
      && (c.Overlong? ==> !DataBounded(Bytes(w)))
  {
    hide Collect, Unstuffed, DataBounded, Sound, Bytes;
    CollectGoesOn(w, cap, [], false);
    assert Unstuffed(Bytes(w)).Some? ==> [] + Unstuffed(Bytes(w)).value.0 == Unstuffed(Bytes(w)).value.0;
  }

  // ---- the sender's side -----------------------------------------------------------------------

  predicate IsLine(line: seq<Byte>) {
    line != [] && line[|line| - 1] == NL && NL !in line[..|line| - 1]
  }

  /** Section 4.5.2 of RFC 5321: a line that begins with a period gets one more. */
  function Stuff(line: seq<Byte>): seq<Byte> {
    if line != [] && line[0] == DOT then [DOT] + line else line
  }

  function StuffAll(lines: seq<seq<Byte>>): seq<Byte> {
    if lines == [] then [] else Stuff(lines[0]) + StuffAll(lines[1..])
  }

  /** Section 4.5.2 of RFC 5321 for the receiver: any leading period goes, unless the line is just that. */
  function RfcDestuff(line: seq<Byte>): seq<Byte> {
    if line != [] && line[0] == DOT && !IsDataEnd(line) then line[1..] else line
  }

  /** The code departs from the standard's receiver exactly on lines no stuffing sender emits. */
  lemma DestuffDiffersIff(line: seq<Byte>)
    requires IsLine(line) && !IsDataEnd(line)
    ensures Destuff(line) == RfcDestuff(line) <==> !(line[0] == DOT && line[1] != DOT)
    ensures (exists l :: IsLine(l) && Stuff(l) == line) <==> !(line[0] == DOT && line[1] != DOT)
  {
    if line[0] == DOT && line[1] != DOT {
      assert |line[1..]| != |line|;
      forall l | IsLine(l) ensures Stuff(l) != line {
        if l[0] == DOT { assert Stuff(l)[1] == DOT; }
      }
    } else if line[0] == DOT {
      var l := line[1..];
      assert l[..|l| - 1] == line[..|line| - 1][1..];
      assert IsLine(l) && Stuff(l) == line;
    } else {
      assert IsLine(line) && Stuff(line) == line;
    }
  }

  lemma LineThenRest(line: seq<Byte>, rest: seq<Byte>)
    requires IsLine(line)
    ensures NextLine(line + rest) == Some((line, rest))
  {
    var at := |line| - 1;
    assert (line + rest)[..at] == line[..at];
    NewlineIsFirst(line + rest, at);
    assert (line + rest)[..at + 1] == line && (line + rest)[at + 1..] == rest;
  }

  lemma StuffedIsALine(line: seq<Byte>)
    requires IsLine(line)
    ensures IsLine(Stuff(line)) && !IsDataEnd(Stuff(line)) && Destuff(Stuff(line)) == line
  {
    if line[0] == DOT {
      var s := Stuff(line);
      assert s[..|s| - 1] == [DOT] + line[..|line| - 1];
      assert s[1] == DOT;
    }
  }

  /** The terminator is a period alone on its line, however the line ends. */
  predicate Terminates(line: seq<Byte>) {
    IsLine(line) && line[0] == DOT && (line[1..] == [NL] || line[1..] == [CR, NL])
  }

  lemma TerminatorIsShort(line: seq<Byte>)
    ensures Terminates(line) ==> IsLine(line) && |line| <= SAFE_LINE
  {
  }

  lemma TerminatorIsTheEnd(line: seq<Byte>)
    ensures IsDataEnd(line) <==> Terminates(line)
  {
    if Terminates(line) {
      assert line == [line[0]] + line[1..];
    }
    assert [DOT, CR, NL][..2] == [DOT, CR] && [DOT, NL][..1] == [DOT];
  }

  function DestuffAll(lines: seq<seq<Byte>>): seq<Byte> {
    if lines == [] then [] else Destuff(lines[0]) + DestuffAll(lines[1..])
  }

  predicate BodyLines(lines: seq<seq<Byte>>) {
    forall i :: 0 <= i < |lines| ==> IsLine(lines[i]) && !Terminates(lines[i])
  }

  /** Whatever the sender, a body is the lines before the first terminator, each unstuffed. */
  lemma {:induction false} UnstuffedMeans(lines: seq<seq<Byte>>, terminator: seq<Byte>, tail: seq<Byte>)
    requires BodyLines(lines) && Terminates(terminator)
    ensures Unstuffed(Flat(lines) + terminator + tail) == Some((DestuffAll(lines), tail))
  {
    var bytes := Flat(lines) + terminator + tail;
    TerminatorIsTheEnd(terminator);
    if lines == [] {
      assert bytes == terminator + tail;
      LineThenRest(terminator, tail);
    } else {
      var more := Flat(lines[1..]) + terminator + tail;
      assert bytes == lines[0] + more;
      TerminatorIsTheEnd(lines[0]);
      LineThenRest(lines[0], more);
      UnstuffedMeans(lines[1..], terminator, tail);
    }
  }

  lemma FlatCons(line: seq<Byte>, more: seq<seq<Byte>>, terminator: seq<Byte>, tail: seq<Byte>)
    ensures Flat([line] + more) + terminator + tail == line + (Flat(more) + terminator + tail)
  {
    assert ([line] + more)[1..] == more;
  }

  lemma NextLineIsALine(bytes: seq<Byte>)
    ensures NextLine(bytes).Some? ==> IsLine(NextLine(bytes).value.0)
  {
    var at := NewlineAt(bytes);
    if at < |bytes| {
      assert bytes[..at + 1][..at] == bytes[..at];
    }
  }

  /** And there is a body only where there is a terminator. */
  lemma {:induction false} BodiesAreTerminated(bytes: seq<Byte>)
    returns (lines: seq<seq<Byte>>, terminator: seq<Byte>, tail: seq<Byte>)
    ensures Unstuffed(bytes).Some? ==>
      BodyLines(lines) && Terminates(terminator) && bytes == Flat(lines) + terminator + tail
    decreases |bytes|
  {
    lines, terminator, tail := [], [], [];
    if Unstuffed(bytes).Some? {
      var (line, rest) := NextLine(bytes).value;
      NextLineIsALine(bytes);
      TerminatorIsTheEnd(line);
      hide NextLine, IsLine, Terminates, IsDataEnd, Destuff;
      if IsDataEnd(line) {
        terminator, tail := line, rest;
      } else {
        var more;
        more, terminator, tail := BodiesAreTerminated(rest);
        lines := [line] + more;
        FlatCons(line, more, terminator, tail);
      }
    }
  }

  lemma {:induction false} UnstuffingUndoesStuffing(lines: seq<seq<Byte>>, terminator: seq<Byte>, tail: seq<Byte>)
    requires forall i :: 0 <= i < |lines| ==> IsLine(lines[i])
    requires Terminates(terminator)
    ensures Unstuffed(StuffAll(lines) + terminator + tail) == Some((Flat(lines), tail))
    ensures (forall i :: 0 <= i < |lines| ==> |Stuff(lines[i])| <= SAFE_LINE)
            ==> DataBounded(StuffAll(lines) + terminator + tail)
  {
    hide IsLine, IsDataEnd, Terminates, Destuff, Stuff, NextLine;
    var bytes := StuffAll(lines) + terminator + tail;
    TerminatorIsTheEnd(terminator);
    TerminatorIsShort(terminator);
    if lines == [] {
      assert bytes == terminator + tail;
      LineThenRest(terminator, tail);
    } else {
      var more := StuffAll(lines[1..]) + terminator + tail;
      assert bytes == Stuff(lines[0]) + more;
      StuffedIsALine(lines[0]);
      LineThenRest(Stuff(lines[0]), more);
      UnstuffingUndoesStuffing(lines[1..], terminator, tail);
    }
  }

  /** What a conforming sender transmits arrives: the same body, or the oversize verdict, whatever the
      chunking and with pipelined bytes left untouched. */
  lemma DataRoundTrip(w: Wire, lines: seq<seq<Byte>>, terminator: seq<Byte>, tail: seq<Byte>, cap: nat)
    requires Sound(w) && Terminates(terminator) && Bytes(w) == StuffAll(lines) + terminator + tail
    requires forall i :: 0 <= i < |lines| ==> IsLine(lines[i]) && |Stuff(lines[i])| <= SAFE_LINE
    ensures var (c, after) := Collect(w, cap, [], false);
      && c == (if |Flat(lines)| <= cap then Body(Flat(lines), false) else Body([], true))
      && Bytes(after) == tail
  {
    UnstuffingUndoesStuffing(lines, terminator, tail);
    hide Collect, DataBounded, Unstuffed, StuffAll;
    CollectMeans(w, cap);
  }

  // ---- the socket and the two readers ----------------------------------------------------------

  class Socket {
    var chunks: seq<seq<Byte>>

    predicate Valid()
      reads this
    {
      Sound(Wire([], chunks))
    }

    constructor (arriving: seq<seq<Byte>>)
      requires Sound(Wire([], arriving))
      ensures chunks == arriving && Valid()
    {
      chunks := arriving;
    }

    /** Up to 1024 bytes, or none at the end of the stream. */
    method Read() returns (chunk: seq<Byte>)
      modifies this
      ensures old(chunks) == [] ==> chunk == [] && chunks == []
      ensures old(chunks) != [] ==> chunk == old(chunks)[0] && chunks == old(chunks)[1..]
    {
      if chunks == [] {
        return [];
      }
      chunk := chunks[0];
      chunks := chunks[1..];
    }
  }

  method ReadLine(socket: Socket, buffered: seq<Byte>) returns (r: Framed, buf: seq<Byte>)
    requires Sound(Wire(buffered, socket.chunks))
    modifies socket
    ensures (r, Wire(buf, socket.chunks)) == FrameLine(Wire(buffered, old(socket.chunks)))
    ensures socket.Valid()
  {
    buf := buffered;
    while true
      invariant Sound(Wire(buf, socket.chunks))
      invariant FrameLine(Wire(buf, socket.chunks)) == FrameLine(Wire(buffered, old(socket.chunks)))
      decreases |socket.chunks|
    {
      var pos := NewlineAt(buf);
      if pos < |buf| {
        return Line(buf[..pos + 1]), buf[pos + 1..];
      }
      var chunk := socket.Read();
      if chunk == [] {
        return Eof, buf;
      }
      buf := buf + chunk;
      if |buf| > LINE_LIMIT {
        return TooLong, buf;
      }
    }
  }

  method ReadData(socket: Socket, buffered: seq<Byte>, cap: nat) returns (r: Collected, buf: seq<Byte>)
    requires Sound(Wire(buffered, socket.chunks))
    modifies socket
    ensures (r, Wire(buf, socket.chunks)) == Collect(Wire(buffered, old(socket.chunks)), cap, [], false)
    ensures socket.Valid()
  {
    buf := buffered;
    var data: seq<Byte> := [];
    var oversize := false;
    while true
      invariant Sound(Wire(buf, socket.chunks))
      invariant Collect(Wire(buf, socket.chunks), cap, data, oversize)
        == Collect(Wire(buffered, old(socket.chunks)), cap, [], false)
      decreases |Bytes(Wire(buf, socket.chunks))|
    {
      FrameLineMeans(Wire(buf, socket.chunks));
      hide FrameLine;
      var line;
      line, buf := ReadLine(socket, buf);
      if line.Eof? {
        return Cut, buf;
      }
      if line.TooLong? {
        return Overlong, buf;
      }
      if IsDataEnd(line.text) {
        break;
      }
      if oversize {
        continue;
      }
      var unstuffed := Destuff(line.text);
      if |data| + |unstuffed| > cap {
        oversize := true;
        data := [];
        continue;
      }
      data := data + unstuffed;
    }
    return Body(data, oversize), buf;
  }
}
