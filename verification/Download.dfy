/** Signed download tokens: what is minted verifies, and nothing else does. Text is its UTF-8 bytes. */
module Download {
  import opened Prelude

  type Text = seq<Byte>

  const COLON: Byte := 58
  const PERIOD: Byte := 46
  const PLUS: Byte := 43

  datatype TokenError = Malformed | BadSignature | Expired | WrongResource

  // ---- base64url without padding, section 5 of RFC 4648 ----------------------------------------

  type Sextet = n: int | 0 <= n < 64

  function Symbol(n: Sextet): Byte {
    if n < 26 then 65 + n
    else if n < 52 then 97 + (n - 26)
    else if n < 62 then 48 + (n - 52)
    else if n == 62 then 45 else 95
  }

  function ValueOf(c: Byte): Option<Sextet> {
    if 65 <= c <= 90 then Some(c - 65)
    else if 97 <= c <= 122 then Some(c - 97 + 26)
    else if 48 <= c <= 57 then Some(c - 48 + 52)
    else if c == 45 then Some(62)
    else if c == 95 then Some(63)
    else None
  }

  lemma SymbolIsValue(n: Sextet)
    ensures ValueOf(Symbol(n)) == Some(n)
  {
  }

  lemma ValueIsSymbol(c: Byte)
    ensures ValueOf(c).Some? ==> Symbol(ValueOf(c).value) == c
  {
  }

  function High(a: Byte): Sextet { a / 4 }
  function Across(a: Byte, b: Byte): Sextet { a % 4 * 16 + b / 16 }
  function Middle(b: Byte, c: Byte): Sextet { b % 16 * 4 + c / 64 }
  function Low(c: Byte): Sextet { c % 64 }

  function First(w: Sextet, x: Sextet): Byte { w * 4 + x / 16 }
  function Second(x: Sextet, y: Sextet): Byte { x % 16 * 16 + y / 4 }
  function Third(y: Sextet, z: Sextet): Byte { y % 4 * 64 + z }

  predicate Clear16(x: Sextet) { x % 16 == 0 }
  predicate Clear4(y: Sextet) { y % 4 == 0 }

  lemma GroupsRegroup(a: Byte, b: Byte, c: Byte)
    ensures First(High(a), Across(a, b)) == a && Second(Across(a, b), Middle(b, c)) == b
      && Third(Middle(b, c), Low(c)) == c
    ensures Clear16(Across(a, 0)) && Clear4(Middle(b, 0))
  {
  }

  lemma SymbolsRegroup(w: Sextet, x: Sextet, y: Sextet, z: Sextet)
    ensures var (a, b, c) := (First(w, x), Second(x, y), Third(y, z));
      High(a) == w && Across(a, b) == x && Middle(b, c) == y && Low(c) == z
    ensures Clear16(x) ==> Across(First(w, x), 0) == x
    ensures Clear4(y) ==> Middle(Second(x, y), 0) == y
  {
  }

  /** The 64 symbols of table 2 of RFC 4648, in its order, and no others. */
  lemma AlphabetIsUrlSafe(n: Sextet, c: Byte)
    ensures Symbol(n) as char ==
      if n < 26 then 'A' + n as char else if n < 52 then 'a' + (n - 26) as char
      else if n < 62 then '0' + (n - 52) as char else if n == 62 then '-' else '_'
    ensures ValueOf(c).Some? <==> exists k: Sextet :: Symbol(k) == c
  {
    forall k: Sextet ensures ValueOf(Symbol(k)).Some? {
      SymbolIsValue(k);
    }
    ValueIsSymbol(c);
  }

  /** Three bytes and their four symbols are the same 24 bits, most significant first. */
  lemma GroupIsTheSameBits(a: Byte, b: Byte, c: Byte)
    ensures 0x10000 * a + 0x100 * b + c
      == 0x40000 * High(a) + 0x1000 * Across(a, b) + 0x40 * Middle(b, c) + Low(c)
  {
  }

  function Encode(bs: seq<Byte>): seq<Byte> {
    if bs == [] then []
    else if |bs| == 1 then [Symbol(High(bs[0])), Symbol(Across(bs[0], 0))]
    else if |bs| == 2 then [Symbol(High(bs[0])), Symbol(Across(bs[0], bs[1])), Symbol(Middle(bs[1], 0))]
    else
      [Symbol(High(bs[0])), Symbol(Across(bs[0], bs[1])), Symbol(Middle(bs[1], bs[2])), Symbol(Low(bs[2]))]
      + Encode(bs[3..])
  }

  /** Strict: foreign symbols, padding, a lone symbol and non-zero trailing bits are all refused. */
  function Decode(cs: seq<Byte>): Option<seq<Byte>> {
    if cs == [] then Some([])
    else if |cs| == 1 || ValueOf(cs[0]).None? || ValueOf(cs[1]).None? then None
    else
      var (w, x) := (ValueOf(cs[0]).value, ValueOf(cs[1]).value);
      if |cs| == 2 then (if Clear16(x) then Some([First(w, x)]) else None)
      else if ValueOf(cs[2]).None? then None
      else
        var y := ValueOf(cs[2]).value;
        if |cs| == 3 then (if Clear4(y) then Some([First(w, x), Second(x, y)]) else None)
        else if ValueOf(cs[3]).None? then None
        else
          var rest := Decode(cs[4..]);
          if rest.None? then None else Some([First(w, x), Second(x, y), Third(y, ValueOf(cs[3]).value)] + rest.value)
  }

  /** Decoding undoes encoding. */
  lemma {:induction false} DecodeInvertsEncode(bs: seq<Byte>)
    ensures Decode(Encode(bs)) == Some(bs)
    decreases |bs|
  {
    hide Decode, Symbol, High, Across, Middle, Low;
    if bs == [] {
      NothingDecodes();
    } else if |bs| == 1 {
      OneDecodes(bs[0]);
      assert bs == [bs[0]];
    } else if |bs| == 2 {
      TwoDecode(bs[0], bs[1]);
      assert bs == [bs[0], bs[1]];
    } else {
      GroupDecodes(bs[0], bs[1], bs[2], Encode(bs[3..]));
      DecodeInvertsEncode(bs[3..]);
      assert bs == [bs[0], bs[1], bs[2]] + bs[3..];
    }
  }

  lemma NothingDecodes()
    ensures Decode([]) == Some([])
  {
  }

  lemma GroupDecodes(a: Byte, b: Byte, c: Byte, more: seq<Byte>)
    ensures var rest := Decode(more);
      Decode([Symbol(High(a)), Symbol(Across(a, b)), Symbol(Middle(b, c)), Symbol(Low(c))] + more)
      == if rest.None? then None else Some([a, b, c] + rest.value)
  {
    SymbolIsValue(High(a));
    SymbolIsValue(Across(a, b));
    SymbolIsValue(Middle(b, c));
    SymbolIsValue(Low(c));
    GroupsRegroup(a, b, c);
    hide Symbol, ValueOf, High, Across, Middle, Low, First, Second, Third;
    var cs := [Symbol(High(a)), Symbol(Across(a, b)), Symbol(Middle(b, c)), Symbol(Low(c))] + more;
    assert cs[4..] == more;
  }

  lemma OneDecodes(a: Byte)
    ensures Decode([Symbol(High(a)), Symbol(Across(a, 0))]) == Some([a])
  {
    hide Symbol, ValueOf, High, Across, Middle, Low, First, Second, Third, Clear16, Clear4;
    SymbolIsValue(High(a));
    SymbolIsValue(Across(a, 0));
    GroupsRegroup(a, 0, 0);
  }

  lemma TwoDecode(a: Byte, b: Byte)
    ensures Decode([Symbol(High(a)), Symbol(Across(a, b)), Symbol(Middle(b, 0))]) == Some([a, b])
  {
    hide Symbol, ValueOf, High, Across, Middle, Low, First, Second, Third, Clear16, Clear4;
    SymbolIsValue(High(a));
    SymbolIsValue(Across(a, b));
    SymbolIsValue(Middle(b, 0));
    GroupsRegroup(a, b, 0);
  }

  /** And no other text decodes to the same bytes. */
  lemma {:induction false} DecodeIsStrict(cs: seq<Byte>)
    ensures Decode(cs).Some? ==> Encode(Decode(cs).value) == cs
    decreases |cs|
  {
    hide Symbol, ValueOf, High, Across, Middle, Low, First, Second, Third, Clear16, Clear4;
    if Decode(cs).Some? && |cs| >= 4 {
      var (w, x, y, z) := (ValueOf(cs[0]).value, ValueOf(cs[1]).value, ValueOf(cs[2]).value, ValueOf(cs[3]).value);
      DecodeIsStrict(cs[4..]);
      GroupEncodes(w, x, y, z, Decode(cs[4..]).value);
      ValueIsSymbol(cs[0]);
      ValueIsSymbol(cs[1]);
      ValueIsSymbol(cs[2]);
      ValueIsSymbol(cs[3]);
      assert cs == [cs[0], cs[1], cs[2], cs[3]] + cs[4..];
    } else if Decode(cs).Some? && |cs| >= 2 {
      TailIsStrict(cs);
    }
  }

  lemma GroupEncodes(w: Sextet, x: Sextet, y: Sextet, z: Sextet, more: seq<Byte>)
    ensures Encode([First(w, x), Second(x, y), Third(y, z)] + more)
      == [Symbol(w), Symbol(x), Symbol(y), Symbol(z)] + Encode(more)
  {
    SymbolsRegroup(w, x, y, z);
    hide Symbol, High, Across, Middle, Low, First, Second, Third;
    assert ([First(w, x), Second(x, y), Third(y, z)] + more)[3..] == more;
  }

  lemma TailIsStrict(cs: seq<Byte>)
    requires 2 <= |cs| <= 3
    ensures Decode(cs).Some? ==> Encode(Decode(cs).value) == cs
  {
    hide Symbol, ValueOf, High, Across, Middle, Low, First, Second, Third, Clear16, Clear4;
    if Decode(cs).Some? {
      var w, x := ValueOf(cs[0]).value, ValueOf(cs[1]).value;
      ValueIsSymbol(cs[0]);
      ValueIsSymbol(cs[1]);
      if |cs| == 3 {
        var y := ValueOf(cs[2]).value;
        ValueIsSymbol(cs[2]);
        SymbolsRegroup(w, x, y, 0);
        assert Encode([First(w, x), Second(x, y)]) == [cs[0], cs[1], cs[2]];
      } else {
        SymbolsRegroup(w, x, 0, 0);
        assert Encode([First(w, x)]) == [cs[0], cs[1]];
      }
    }
  }

  lemma {:induction false} EncodingHasNoPeriod(bs: seq<Byte>)
    ensures PERIOD !in Encode(bs)
    decreases |bs|
  {
    if |bs| < 3 {
    } else {
      EncodingHasNoPeriod(bs[3..]);
    }
  }

  // ---- decimal ---------------------------------------------------------------------------------

  function Print(n: nat): Text {
    if n < 10 then [48 + n] else Print(n / 10) + [48 + n % 10]
  }

  predicate Digits(s: Text) {
    forall i :: 0 <= i < |s| ==> 48 <= s[i] <= 57
  }

  function ValueOfDigits(s: Text): nat
    requires Digits(s)
  {
    if s == [] then 0 else ValueOfDigits(s[..|s| - 1]) * 10 + (s[|s| - 1] - 48)
  }

  /** Rust's `u64` parser: one leading plus, then digits, leading zeros welcome, overflow refused. */
  function Parse(s: Text): Option<nat> {
    var body := if s != [] && s[0] == PLUS then s[1..] else s;
    if body == [] || !Digits(body) || ValueOfDigits(body) > U64_MAX then None else Some(ValueOfDigits(body))
  }

  lemma {:induction false} PrintedDigits(n: nat)
    ensures Print(n) != [] && Digits(Print(n)) && ValueOfDigits(Print(n)) == n
  {
    if n < 10 {
    } else {
      PrintedDigits(n / 10);
      var s := Print(n);
      assert s[..|s| - 1] == Print(n / 10);
    }
  }

  /** Numbers are in base ten, most significant digit first. */
  lemma DecimalIsDecimal(s: Text, d: nat)
    requires Digits(s) && d < 10
    ensures ValueOfDigits([]) == 0 && Digits(s + [48 + d]) && ValueOfDigits(s + [48 + d]) == 10 * ValueOfDigits(s) + d
  {
    assert (s + [48 + d])[..|s|] == s;
  }

  lemma ParseInvertsPrint(n: nat)
    ensures Parse(Print(n)) == if n <= U64_MAX then Some(n) else None
    ensures COLON !in Print(n)
  {
    PrintedDigits(n);
  }

  // ---- UTF-8 -----------------------------------------------------------------------------------

  predicate Trail(b: Byte) {
    0x80 <= b <= 0xBF
  }

  /** How long the well-formed character at the front is; 0 when there is none. */
  function CharLength(s: Text): nat {
    if s == [] then 0
    else if s[0] < 0x80 then 1
    else if |s| >= 2 && 0xC2 <= s[0] <= 0xDF && Trail(s[1]) then 2
    else if |s| >= 3 && 0xE0 <= s[0] <= 0xEF && Trail(s[1]) && Trail(s[2])
            && (s[0] == 0xE0 ==> s[1] >= 0xA0) && (s[0] == 0xED ==> s[1] < 0xA0) then 3
    else if |s| >= 4 && 0xF0 <= s[0] <= 0xF4 && Trail(s[1]) && Trail(s[2]) && Trail(s[3])
            && (s[0] == 0xF0 ==> s[1] >= 0x90) && (s[0] == 0xF4 ==> s[1] < 0x90) then 4
    else 0
  }

  predicate Utf8(s: Text) {
    s == [] || (0 < CharLength(s) <= |s| && Utf8(s[CharLength(s)..]))
  }

  /** Unicode scalar values, and their UTF-8 encoding form in arithmetic (section 3 of RFC 3629). */
  predicate IsScalar(c: nat) {
    c < 0xD800 || 0xE000 <= c < 0x110000
  }

  function EncodeScalar(c: nat): Text
    requires IsScalar(c)
  {
    if c < 0x80 then [c]
    else if c < 0x800 then [0xC0 + c / 0x40, 0x80 + c % 0x40]
    else if c < 0x10000 then [0xE0 + c / 0x1000, 0x80 + c / 0x40 % 0x40, 0x80 + c % 0x40]
    else [0xF0 + c / 0x40000, 0x80 + c / 0x1000 % 0x40, 0x80 + c / 0x40 % 0x40, 0x80 + c % 0x40]
  }

  function EncodeScalars(cs: seq<nat>): Text
    requires forall i :: 0 <= i < |cs| ==> IsScalar(cs[i])
  {
    if cs == [] then [] else EncodeScalar(cs[0]) + EncodeScalars(cs[1..])
  }

  lemma LastSix(x: nat, y: nat)
    requires y < 0x40
    ensures (x * 0x40 + y) / 0x40 == x && (x * 0x40 + y) % 0x40 == y
  {
  }

  lemma SixAtATime(c: nat)
    ensures c / 0x1000 == c / 0x40 / 0x40 && c / 0x40000 == c / 0x40 / 0x40 / 0x40
    ensures c == c / 0x40 * 0x40 + c % 0x40
  {
  }

  lemma ScalarIsOneCharacter(c: nat, more: Text)
    requires IsScalar(c)
    ensures CharLength(EncodeScalar(c) + more) == |EncodeScalar(c)| > 0
  {
    var s := EncodeScalar(c);
    assert forall i :: 0 <= i < |s| ==> (s + more)[i] == s[i];
    SixAtATime(c);
    SixAtATime(c / 0x40);
  }

  lemma TwoBytes(a: Byte, b: Byte) returns (c: nat)
    requires 0xC2 <= a <= 0xDF && Trail(b)
    ensures IsScalar(c) && EncodeScalar(c) == [a, b]
  {
    c := (a as int - 0xC0) * 0x40 + (b as int - 0x80);
    LastSix(a as int - 0xC0, b as int - 0x80);
  }

  lemma ThreeBytes(a: Byte, b: Byte, d: Byte) returns (c: nat)
    requires 0xE0 <= a <= 0xEF && Trail(b) && Trail(d) && (a == 0xE0 ==> b >= 0xA0) && (a == 0xED ==> b < 0xA0)
    ensures IsScalar(c) && EncodeScalar(c) == [a, b, d]
  {
    var x := (a as int - 0xE0) * 0x40 + (b as int - 0x80);
    c := x * 0x40 + (d as int - 0x80);
    LastSix(a as int - 0xE0, b as int - 0x80);
    LastSix(x, d as int - 0x80);
    SixAtATime(c);
    assert 0x800 <= c < 0x10000 && !(0xD800 <= c < 0xE000);
  }

  lemma FourBytes(a: Byte, b: Byte, d: Byte, e: Byte) returns (c: nat)
    requires 0xF0 <= a <= 0xF4 && Trail(b) && Trail(d) && Trail(e)
    requires (a == 0xF0 ==> b >= 0x90) && (a == 0xF4 ==> b < 0x90)
    ensures IsScalar(c) && EncodeScalar(c) == [a, b, d, e]
  {
    var x := (a as int - 0xF0) * 0x40 + (b as int - 0x80);
    var y := x * 0x40 + (d as int - 0x80);
    c := y * 0x40 + (e as int - 0x80);
    LastSix(a as int - 0xF0, b as int - 0x80);
    LastSix(x, d as int - 0x80);
    LastSix(y, e as int - 0x80);
    SixAtATime(c);
    assert 0x10000 <= c < 0x110000;
  }

  lemma CharacterIsAScalar(s: Text) returns (c: nat)
    requires CharLength(s) > 0
    ensures CharLength(s) <= |s| && IsScalar(c) && s[..CharLength(s)] == EncodeScalar(c)
  {
    var n := CharLength(s);
    if n == 1 {
      c := s[0];
    } else if n == 2 {
      c := TwoBytes(s[0], s[1]);
    } else if n == 3 {
      c := ThreeBytes(s[0], s[1], s[2]);
    } else {
      c := FourBytes(s[0], s[1], s[2], s[3]);
    }
    hide IsScalar;
    assert n == 1 ==> EncodeScalar(c) == [s[0]];
  }

  ghost predicate Spells(cs: seq<nat>, s: Text) {
    (forall i :: 0 <= i < |cs| ==> IsScalar(cs[i])) && EncodeScalars(cs) == s
  }

  /** Well-formed UTF-8 is what encoding scalar values yields: nothing overlong, no surrogates, nothing cut. */
  lemma {:induction false} Utf8IffScalars(s: Text)
    ensures Utf8(s) <==> exists cs: seq<nat> :: Spells(cs, s)
    decreases |s|
  {
    hide IsScalar, EncodeScalar, CharLength;
    if s == [] {
      assert Spells([], s);
    } else {
      if Utf8(s) {
        var c := CharacterIsAScalar(s);
        var rest := s[CharLength(s)..];
        Utf8IffScalars(rest);
        var cs: seq<nat> :| Spells(cs, rest);
        assert ([c] + cs)[1..] == cs && s == EncodeScalar(c) + rest;
        assert Spells([c] + cs, s);
      }
      forall cs: seq<nat> | Spells(cs, s) ensures Utf8(s) {
        assert cs != [];
        var more := EncodeScalars(cs[1..]);
        ScalarIsOneCharacter(cs[0], more);
        assert s[|EncodeScalar(cs[0])|..] == more;
        assert Spells(cs[1..], more);
        Utf8IffScalars(more);
      }
    }
  }

  lemma {:induction false} Utf8Append(a: Text, b: Text)
    requires Utf8(a) && Utf8(b)
    ensures Utf8(a + b)
    decreases |a|
  {
    if a == [] {
      assert a + b == b;
    } else {
      var n := CharLength(a);
      assert CharLength(a + b) == n;
      assert (a + b)[n..] == a[n..] + b;
      Utf8Append(a[n..], b);
    }
  }

  lemma {:induction false} AsciiIsUtf8(s: Text)
    requires forall i :: 0 <= i < |s| ==> s[i] < 0x80
    ensures Utf8(s)
  {
    if s == [] {
    } else {
      AsciiIsUtf8(s[1..]);
    }
  }

  // ---- minting and verifying -------------------------------------------------------------------

  function Payload(blob: Text, expires: nat): Text {
    blob + [COLON] + Print(expires)
  }

  function Token(payload: Text, mac: seq<Byte>): Text {
    Encode(payload) + [PERIOD] + Encode(mac)
  }

  /** `sign` is the MAC under the server's key. */
  function Mint(sign: Text -> seq<Byte>, blob: Text, expires: nat): Text {
    Token(Payload(blob, expires), sign(Payload(blob, expires)))
  }

  function SplitFirst(s: Text, c: Byte): (r: Option<(Text, Text)>)
    ensures r.None? <==> c !in s
    ensures r.Some? ==> s == r.value.0 + [c] + r.value.1 && c !in r.value.0
  {
    if s == [] then None
    else if s[0] == c then Some(([], s[1..]))
    else
      var r := SplitFirst(s[1..], c);
      if r.None? then None else Some(([s[0]] + r.value.0, r.value.1))
  }

  /** Signature first, and nothing of the payload is read before it holds; then resource; then expiry. */
  function Verify(sign: Text -> seq<Byte>, token: Text, blob: Text, now: nat): Result<(), TokenError> {
    match SplitFirst(token, PERIOD)
    case None => Err(Malformed)
    case Some((payload64, mac64)) =>
      if Decode(payload64).None? || Decode(mac64).None? then Err(Malformed)
      else
        var payload := Decode(payload64).value;
        if sign(payload) != Decode(mac64).value then Err(BadSignature)
        else if !Utf8(payload) then Err(Malformed)
        else
          match SplitLast(payload, COLON)
          case None => Err(Malformed)
          case Some((signed, expires)) =>
            if Parse(expires).None? then Err(Malformed)
            else if signed != blob then Err(WrongResource)
            else if now >= Parse(expires).value then Err(Expired)
            else Ok(())
  }

  lemma {:induction false} SplitFirstIsUnique(s: Text, c: Byte, head: Text, tail: Text)
    requires s == head + [c] + tail && c !in head
    ensures SplitFirst(s, c) == Some((head, tail))
  {
    if head == [] {
      assert s[1..] == tail;
    } else {
      assert s[0] == head[0] && s[1..] == head[1..] + [c] + tail;
      SplitFirstIsUnique(s[1..], c, head[1..], tail);
      assert head == [head[0]] + head[1..];
    }
  }

  /** A token splits and decodes back into what it was made of. */
  lemma TokenParts(payload: Text, mac: seq<Byte>)
    ensures SplitFirst(Token(payload, mac), PERIOD) == Some((Encode(payload), Encode(mac)))
    ensures Decode(Encode(payload)) == Some(payload) && Decode(Encode(mac)) == Some(mac)
  {
    EncodingHasNoPeriod(payload);
    SplitFirstIsUnique(Token(payload, mac), PERIOD, Encode(payload), Encode(mac));
    DecodeInvertsEncode(payload);
    DecodeInvertsEncode(mac);
  }

  /** The outcome for a minted token, for every blob id, colons included, every expiry and every clock. */
  lemma MintThenVerify(sign: Text -> seq<Byte>, blob: Text, expires: nat, asked: Text, now: nat)
    requires Utf8(blob) && expires <= U64_MAX
    ensures Verify(sign, Mint(sign, blob, expires), asked, now)
            == if asked != blob then Err(WrongResource) else if now >= expires then Err(Expired) else Ok(())
  {
    hide Encode, Decode, Utf8, Print, Parse, SplitFirst, SplitLast;
    var payload := Payload(blob, expires);
    PayloadParts(blob, expires);
    TokenParts(payload, sign(payload));
    hide Payload, Token;
  }

  lemma PayloadParts(blob: Text, expires: nat)
    requires Utf8(blob) && expires <= U64_MAX
    ensures var payload := Payload(blob, expires);
      Utf8(payload) && SplitLast(payload, COLON) == Some((blob, Print(expires)))
      && Parse(Print(expires)) == Some(expires)
  {
    hide Utf8, Print, Parse, SplitLast;
    var payload := Payload(blob, expires);
    ParseInvertsPrint(expires);
    PrintedDigits(expires);
    AsciiIsUtf8([COLON] + Print(expires));
    Utf8Append(blob, [COLON] + Print(expires));
    assert payload == blob + ([COLON] + Print(expires));
    SplitLastIsUnique(payload, COLON, blob, Print(expires));
  }

  /** No two grants share a payload, so none shares a MAC input. */
  lemma PayloadsAreInjective(a: Text, m: nat, b: Text, n: nat)
    ensures Payload(a, m) == Payload(b, n) <==> a == b && m == n
  {
    PrintedDigits(m);
    PrintedDigits(n);
    SplitLastIsUnique(Payload(a, m), COLON, a, Print(m));
    SplitLastIsUnique(Payload(b, n), COLON, b, Print(n));
  }

  /** What a token must look like to pass. */
  ghost predicate Grants(sign: Text -> seq<Byte>, token: Text, blob: Text, digits: Text, now: nat) {
    var payload := blob + [COLON] + digits;
    && token == Token(payload, sign(payload)) && Utf8(payload)
    && COLON !in digits && Parse(digits).Some? && now < Parse(digits).value
  }

  /** Exactly the tokens that spell a payload naming this blob with a later expiry, and its own MAC, in the
      one spelling there is. */
  lemma AcceptedIff(sign: Text -> seq<Byte>, token: Text, blob: Text, now: nat)
    ensures Verify(sign, token, blob, now).Ok? <==> exists digits :: Grants(sign, token, blob, digits, now)
  {
    if Verify(sign, token, blob, now).Ok? {
      var (payload64, mac64) := SplitFirst(token, PERIOD).value;
      DecodeIsStrict(payload64);
      DecodeIsStrict(mac64);
      var payload := Decode(payload64).value;
      var digits := SplitLast(payload, COLON).value.1;
      assert Grants(sign, token, blob, digits, now);
    }
    forall digits | Grants(sign, token, blob, digits, now) ensures Verify(sign, token, blob, now).Ok? {
      var payload := blob + [COLON] + digits;
      TokenParts(payload, sign(payload));
      SplitLastIsUnique(payload, COLON, blob, digits);
    }
  }

  /** What a refusal tells. Nothing is said of a payload before its MAC holds: a token that is two parts of
      base64url with the wrong MAC is a bad signature whatever it says; only then come a payload that is no
      text or names no expiry, the resource, and last the expiry. */
  lemma RefusalsAreOrdered(sign: Text -> seq<Byte>, token: Text, blob: Text, now: nat)
    ensures Verify(sign, token, blob, now) == Err(BadSignature)
      <==> exists payload, mac :: token == Token(payload, mac) && mac != sign(payload)
    ensures Verify(sign, token, blob, now) == Err(WrongResource)
      <==> exists other, digits :: Signed(sign, token, other, digits) && other != blob
    ensures Verify(sign, token, blob, now) == Err(Expired)
      <==> exists digits :: Signed(sign, token, blob, digits) && Parse(digits).value <= now
  {
    hide Encode, Decode, Utf8, Parse;
    var r := Verify(sign, token, blob, now);
    if SplitFirst(token, PERIOD).Some? {
      var (payload64, mac64) := SplitFirst(token, PERIOD).value;
      if Decode(payload64).Some? && Decode(mac64).Some? {
        var payload, mac := Decode(payload64).value, Decode(mac64).value;
        DecodeIsStrict(payload64);
        DecodeIsStrict(mac64);
        assert token == Token(payload, mac);
        if mac == sign(payload) && Utf8(payload) && SplitLast(payload, COLON).Some? {
          var (other, digits) := SplitLast(payload, COLON).value;
          assert Parse(digits).Some? ==> Signed(sign, token, other, digits);
        }
      }
    }
    forall payload, mac | token == Token(payload, mac) && mac != sign(payload) ensures r == Err(BadSignature) {
      TokenParts(payload, mac);
    }
    forall other, digits | Signed(sign, token, other, digits)
      ensures r == if other != blob then Err(WrongResource)
        else if now >= Parse(digits).value then Err(Expired) else Ok(())
    {
      var payload := other + [COLON] + digits;
      TokenParts(payload, sign(payload));
      SplitLastIsUnique(payload, COLON, other, digits);
    }
  }

  /** A token of the server's for some blob and some expiry. */
  ghost predicate Signed(sign: Text -> seq<Byte>, token: Text, blob: Text, digits: Text) {
    var payload := blob + [COLON] + digits;
    token == Token(payload, sign(payload)) && Utf8(payload) && COLON !in digits && Parse(digits).Some?
  }

  /** Nobody but the server can make a MAC: a token that carries one carries an issued payload. */
  ghost predicate Unforged(sign: Text -> seq<Byte>, issued: set<(Text, nat)>, token: Text) {
    forall p :: token == Token(p, sign(p)) ==> exists g :: g in issued && p == Payload(g.0, g.1)
  }

  /** Whatever is accepted was then issued for this blob, has not expired, and is the issued token byte
      for byte. */
  lemma OnlyIssuedTokensPass(sign: Text -> seq<Byte>, issued: set<(Text, nat)>, token: Text, blob: Text, now: nat)
    requires Unforged(sign, issued, token) && forall g :: g in issued ==> g.1 <= U64_MAX
    ensures Verify(sign, token, blob, now).Ok? ==>
      exists e: nat :: (blob, e) in issued && now < e && token == Mint(sign, blob, e)
  {
    hide Verify, Token, Utf8, Parse, Print, SplitLast;
    if Verify(sign, token, blob, now).Ok? {
      AcceptedIff(sign, token, blob, now);
      var digits :| Grants(sign, token, blob, digits, now);
      var payload := blob + [COLON] + digits;
      var g :| g in issued && payload == Payload(g.0, g.1);
      ParseInvertsPrint(g.1);
      SplitLastIsUnique(payload, COLON, blob, digits);
      SplitLastIsUnique(payload, COLON, g.0, Print(g.1));
      assert g == (blob, g.1);
    }
  }
}
