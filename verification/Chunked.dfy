/** HTTP chunked transfer decoding, section 7.1 of RFC 9112. */
module Chunked {
  import opened Words
  import opened Options

  const CR: Byte := 13
  const LF: Byte := 10
  const SEMICOLON: Byte := 59
  const PLUS: Byte := 43
  const MAX_RESPONSE_BYTES := 1048576
  const CRLF: seq<Byte> := [CR, LF]

  /** Overflow: the announced size plus two leaves the machine word. */
  datatype ChunkError = SizeIncomplete | SizeNotUtf8 | InvalidSize | Overflow | BodyIncomplete | TooLarge

  // ----- the size line -----

  function FindCrlf(s: seq<Byte>): (r: Option<nat>)
    ensures r.Some? ==> r.value + 2 <= |s| && s[r.value] == CR && s[r.value + 1] == LF
    ensures r.Some? ==> forall i :: 0 <= i < r.value ==> !(s[i] == CR && s[i + 1] == LF)
    ensures r.None? ==> forall i :: 0 <= i < |s| - 1 ==> !(s[i] == CR && s[i + 1] == LF)
  {
    if |s| < 2 then None
    else if s[0] == CR && s[1] == LF then Some(0)
    else
      var rest := FindCrlf(s[1..]);
      assert forall i :: 0 <= i < |s| - 1 ==> s[1..][i] == s[i + 1];
      match rest
      case None =>
        assert forall i :: 1 <= i < |s| - 1 ==> !(s[i] == CR && s[i + 1] == LF) by {
          forall i | 1 <= i < |s| - 1 ensures !(s[i] == CR && s[i + 1] == LF) {
            assert s[1..][i - 1] == s[i] && s[1..][i] == s[i + 1];
          }
        }
        None
      case Some(i) =>
        assert forall k :: 1 <= k < i + 1 ==> !(s[k] == CR && s[k + 1] == LF) by {
          forall k | 1 <= k < i + 1 ensures !(s[k] == CR && s[k + 1] == LF) {
            assert s[1..][k - 1] == s[k] && s[1..][k] == s[k + 1];
          }
        }
        Some(i + 1)
  }

  predicate Continues(b: Byte) {
    0x80 <= b <= 0xBF
  }

  /** The length of the well-formed UTF-8 sequence at the front, or zero. */
  function CharLength(s: seq<Byte>): (n: nat)
    ensures n <= |s|
  {
    if s == [] then 0
    else if s[0] < 0x80 then 1
    else if 0xC2 <= s[0] <= 0xDF && |s| >= 2 && Continues(s[1]) then 2
    else if 0xE0 <= s[0] <= 0xEF && |s| >= 3 && Continues(s[1]) && Continues(s[2])
            && (s[0] == 0xE0 ==> s[1] >= 0xA0) && (s[0] == 0xED ==> s[1] <= 0x9F) then 3
    else if 0xF0 <= s[0] <= 0xF4 && |s| >= 4 && Continues(s[1]) && Continues(s[2]) && Continues(s[3])
            && (s[0] == 0xF0 ==> s[1] >= 0x90) && (s[0] == 0xF4 ==> s[1] <= 0x8F) then 4
    else 0
  }

  predicate IsUtf8(s: seq<Byte>)
    decreases |s|
  {
    s == [] || (CharLength(s) > 0 && IsUtf8(s[CharLength(s)..]))
  }

  /** White_Space characters by their UTF-8 encodings. */
  predicate IsSpace(c: seq<Byte>) {
    || (|c| == 1 && (9 <= c[0] <= 13 || c[0] == 32))
    || c == [0xC2, 0x85] || c == [0xC2, 0xA0] || c == [0xE1, 0x9A, 0x80]
    || (|c| == 3 && c[0] == 0xE2 && c[1] == 0x80 && (0x80 <= c[2] <= 0x8A || c[2] in [0xA8, 0xA9, 0xAF]))
    || c == [0xE2, 0x81, 0x9F] || c == [0xE3, 0x80, 0x80]
  }

  function TrimStart(s: seq<Byte>): seq<Byte>
    decreases |s|
  {
    var n := CharLength(s);
    if n > 0 && IsSpace(s[..n]) then TrimStart(s[n..]) else s
  }

  function TrimEnd(s: seq<Byte>): seq<Byte>
    decreases |s|
  {
    if |s| >= 1 && IsSpace(s[|s| - 1..]) then TrimEnd(s[..|s| - 1])
    else if |s| >= 2 && IsSpace(s[|s| - 2..]) then TrimEnd(s[..|s| - 2])
    else if |s| >= 3 && IsSpace(s[|s| - 3..]) then TrimEnd(s[..|s| - 3])
    else s
  }

  function UpTo(s: seq<Byte>, stop: Byte): seq<Byte> {
    if s == [] || s[0] == stop then [] else [s[0]] + UpTo(s[1..], stop)
  }

  predicate IsHex(b: Byte) {
    48 <= b <= 57 || 65 <= b <= 70 || 97 <= b <= 102
  }

  function HexDigit(b: Byte): nat
    requires IsHex(b)
  {
    if b <= 57 then b - 48 else if b <= 70 then b - 55 else b - 87
  }

  predicate AllHex(s: seq<Byte>) {
    forall i :: 0 <= i < |s| ==> IsHex(s[i])
  }

  function HexValue(s: seq<Byte>): nat
    requires AllHex(s)
  {
    if s == [] then 0 else 16 * HexValue(s[..|s| - 1]) + HexDigit(s[|s| - 1])
  }

  /** `usize::from_str_radix(_, 16)`. */
  function ParseHex(s: seq<Byte>): Option<nat> {
    var digits := if |s| > 1 && s[0] == PLUS then s[1..] else s;
    if digits == [] || !AllHex(digits) || HexValue(digits) > U64_MAX then None else Some(HexValue(digits))
  }

  function ParseSizeLine(line: seq<Byte>): Result<nat, ChunkError> {
    if !IsUtf8(line) then Err(SizeNotUtf8)
    else
      match ParseHex(TrimEnd(TrimStart(UpTo(line, SEMICOLON))))
      case None => Err(InvalidSize)
      case Some(n) => Ok(n)
  }

  // ----- decoding -----

  function Decode(encoded: seq<Byte>, out: seq<Byte>): Result<seq<Byte>, ChunkError>
    decreases |encoded|
  {
    match FindCrlf(encoded)
    case None => Err(SizeIncomplete)
    case Some(end) =>
      match ParseSizeLine(encoded[..end])
      case Err(e) => Err(e)
      case Ok(size) =>
        var body := encoded[end + 2..];
        if size == 0 then Ok(out)
        else if size + 2 > U64_MAX then Err(Overflow)
        else if |body| < size + 2 || body[size..size + 2] != CRLF then Err(BodyIncomplete)
        else if |out| + size > MAX_RESPONSE_BYTES then Err(TooLarge)
        else Decode(body[size + 2..], out + body[..size])
  }

  method DecodeChunked(input: seq<Byte>) returns (r: Result<seq<Byte>, ChunkError>)
    ensures r == Decode(input, [])
  {
    hide ParseSizeLine;
    var encoded, out: seq<Byte> := input, [];
    while true
      invariant Decode(input, []) == Decode(encoded, out)
      decreases |encoded|
    {
      var end := FindCrlf(encoded);
      if end.None? { return Err(SizeIncomplete); }
      var line := ParseSizeLine(encoded[..end.value]);
      if line.Err? { return Err(line.error); }
      var size := line.value;
      var body := encoded[end.value + 2..];
      if size == 0 { return Ok(out); }
      if size + 2 > U64_MAX { return Err(Overflow); }
      if |body| < size + 2 || body[size..size + 2] != CRLF { return Err(BodyIncomplete); }
      if |out| + size > MAX_RESPONSE_BYTES { return Err(TooLarge); }
      out := out + body[..size];
      encoded := body[size + 2..];
    }
  }

  // ----- sizes beyond the machine word -----

  /** The size that the next line announces. */
  function Announced(encoded: seq<Byte>): Option<nat> {
    match FindCrlf(encoded)
    case None => None
    case Some(end) =>
      match ParseSizeLine(encoded[..end])
      case Err(_) => None
      case Ok(size) => Some(size)
  }

  /** A whole chunk of that size follows its line, and still fits the response. */
  predicate HasChunk(encoded: seq<Byte>, size: nat, room: int) {
    var end := FindCrlf(encoded);
    end.Some? && 0 < size <= room
    && var body := encoded[end.value + 2..]; size + 2 <= |body| && size + 2 <= U64_MAX && body[size..size + 2] == CRLF
  }

  /** What is left when no further chunk can be read. */
  function Unread(encoded: seq<Byte>, room: int): seq<Byte>
    decreases |encoded|
  {
    var size := Announced(encoded);
    if size.Some? && HasChunk(encoded, size.value, room)
    then Unread(encoded[FindCrlf(encoded).value + 2..][size.value + 2..], room - size.value)
    else encoded
  }

  lemma AnnouncedFits(encoded: seq<Byte>)
    ensures Announced(encoded).Some? ==> Announced(encoded).value <= U64_MAX
  {
    hide FindCrlf, IsUtf8, TrimStart, TrimEnd, UpTo, HexValue;
  }

  /** The decoder overflows exactly when, after all it can read, a line announces one of the two largest sizes. */
  lemma {:induction false} OverflowsExactlyWhen(encoded: seq<Byte>, out: seq<Byte>)
    ensures Decode(encoded, out) == Err(Overflow) <==>
              Announced(Unread(encoded, MAX_RESPONSE_BYTES - |out|)) in [Some(U64_MAX - 1), Some(U64_MAX)]
    decreases |encoded|
  {
    AnnouncedFits(encoded);
    hide FindCrlf, ParseSizeLine;
    var size := Announced(encoded);
    if size.Some? && HasChunk(encoded, size.value, MAX_RESPONSE_BYTES - |out|) {
      var body := encoded[FindCrlf(encoded).value + 2..];
      OverflowsExactlyWhen(body[size.value + 2..], out + body[..size.value]);
    } else {
      OnlyReadErrors(encoded);
    }
  }

  lemma OnlyReadErrors(encoded: seq<Byte>)
    ensures FindCrlf(encoded).Some? ==> ParseSizeLine(encoded[..FindCrlf(encoded).value]) != Err(Overflow)
  {
    hide FindCrlf, IsUtf8, TrimStart, TrimEnd, UpTo, ParseHex;
  }

  // ----- encoding -----

  /** One chunk on the wire: hexadecimal size, optional blanks, optional extension, data. */
  datatype WireChunk = WireChunk(size: seq<Byte>, pad: seq<Byte>, ext: seq<Byte>, data: seq<Byte>)

  function SizeLine(c: WireChunk): seq<Byte> {
    c.size + c.pad + c.ext
  }

  function Wire(c: WireChunk): seq<Byte> {
    SizeLine(c) + CRLF + c.data + CRLF
  }

  predicate HasCrlf(s: seq<Byte>) {
    exists i :: 0 <= i < |s| - 1 && s[i] == CR && s[i + 1] == LF
  }

  /**
   * A size line as the grammar has it: hex digits, blanks, then nothing or an extension of any bytes
   * after a semicolon.
   */
  ghost predicate GoodLine(c: WireChunk) {
    && c.size != [] && AllHex(c.size)
    && (forall i :: 0 <= i < |c.pad| ==> c.pad[i] == 32 || c.pad[i] == 9)
    && (c.ext == [] || c.ext[0] == SEMICOLON) && !HasCrlf(c.ext)
  }

  ghost predicate GoodChunk(c: WireChunk) {
    GoodLine(c) && c.data != [] && HexValue(c.size) == |c.data|
  }

  ghost predicate LastChunk(c: WireChunk) {
    GoodLine(c) && HexValue(c.size) == 0 && c.data == []
  }

  function WireAll(chunks: seq<WireChunk>, last: WireChunk): seq<Byte> {
    if chunks == [] then SizeLine(last) + CRLF else Wire(chunks[0]) + WireAll(chunks[1..], last)
  }

  function Payload(chunks: seq<WireChunk>): seq<Byte> {
    if chunks == [] then [] else chunks[0].data + Payload(chunks[1..])
  }

  lemma {:induction false} Utf8AfterAscii(head: seq<Byte>, tail: seq<Byte>)
    requires forall i :: 0 <= i < |head| ==> head[i] < 0x80
    ensures IsUtf8(head + tail) <==> IsUtf8(tail)
  {
    if head == [] {
      assert head + tail == tail;
    } else {
      Utf8AfterAscii(head[1..], tail);
      assert (head + tail)[1..] == head[1..] + tail;
    }
  }

  lemma {:induction false} UpToSemicolon(head: seq<Byte>, ext: seq<Byte>)
    requires (forall i :: 0 <= i < |head| ==> head[i] != SEMICOLON) && (ext == [] || ext[0] == SEMICOLON)
    ensures UpTo(head + ext, SEMICOLON) == head
  {
    if head == [] {
      assert head + ext == ext;
    } else {
      UpToSemicolon(head[1..], ext);
      assert (head + ext)[1..] == head[1..] + ext;
    }
  }

  lemma HexEndsNoSpace(c: seq<Byte>)
    requires c != [] && IsHex(c[|c| - 1])
    ensures !IsSpace(c)
  {
  }

  lemma HexEndIsNoSpace(s: seq<Byte>, k: nat)
    requires 0 < k <= |s| && IsHex(s[|s| - 1])
    ensures !IsSpace(s[|s| - k..])
  {
    hide IsSpace, IsHex;
    assert s[|s| - k..][k - 1] == s[|s| - 1];
    HexEndsNoSpace(s[|s| - k..]);
  }

  lemma TrimEndStops(s: seq<Byte>)
    requires |s| >= 1 ==> !IsSpace(s[|s| - 1..])
    requires |s| >= 2 ==> !IsSpace(s[|s| - 2..])
    requires |s| >= 3 ==> !IsSpace(s[|s| - 3..])
    ensures TrimEnd(s) == s
  {
    hide IsSpace;
  }

  lemma HexEndStays(s: seq<Byte>)
    requires s != [] && IsHex(s[|s| - 1])
    ensures TrimEnd(s) == s
  {
    hide IsSpace, IsHex, TrimEnd;
    HexEndIsNoSpace(s, 1);
    if |s| >= 2 { HexEndIsNoSpace(s, 2); }
    if |s| >= 3 { HexEndIsNoSpace(s, 3); }
    TrimEndStops(s);
  }

  lemma {:induction false} TrimPad(size: seq<Byte>, pad: seq<Byte>)
    requires size != [] && AllHex(size) && forall i :: 0 <= i < |pad| ==> pad[i] == 32 || pad[i] == 9
    ensures TrimEnd(size + pad) == size
  {
    var s := size + pad;
    if pad == [] {
      assert s == size;
      HexEndStays(size);
    } else {
      assert s[|s| - 1..] == [pad[|pad| - 1]];
      assert s[..|s| - 1] == size + pad[..|pad| - 1];
      TrimPad(size, pad[..|pad| - 1]);
    }
  }

  /** A good size line is read exactly when its extension is UTF-8, and then announces its number. */
  lemma SizeLineParses(c: WireChunk)
    requires GoodLine(c)
    ensures ParseSizeLine(SizeLine(c)) ==
            if !IsUtf8(c.ext) then Err(SizeNotUtf8)
            else if HexValue(c.size) > U64_MAX then Err(InvalidSize)
            else Ok(HexValue(c.size))
  {
    var head := c.size + c.pad;
    Utf8AfterAscii(head, c.ext);
    UpToSemicolon(head, c.ext);
    assert IsHex(c.size[0]) && head[0] == c.size[0] && CharLength(head) == 1 && head[..1] == [head[0]];
    assert TrimStart(head) == head;
    TrimPad(c.size, c.pad);
  }

  /** The first line end of the encoding is the one after the size line. */
  lemma LineEndsHere(c: WireChunk, tail: seq<Byte>)
    requires GoodLine(c)
    ensures FindCrlf(SizeLine(c) + CRLF + tail) == Some(|SizeLine(c)|)
  {
    var line := SizeLine(c);
    var s := line + CRLF + tail;
    assert s[|line|] == CR && s[|line| + 1] == LF;
    forall i | 0 <= i < |line| ensures !(s[i] == CR && s[i + 1] == LF) {
      NoEarlyCrlf(c, i);
    }
  }

  lemma NoEarlyCrlf(c: WireChunk, i: nat)
    requires GoodLine(c) && i < |SizeLine(c)|
    ensures var s := SizeLine(c) + CRLF; !(s[i] == CR && s[i + 1] == LF)
  {
    var head := |c.size| + |c.pad|;
    var s := SizeLine(c) + CRLF;
    if i < |c.size| {
      assert s[i] == c.size[i];
    } else if i < head {
      assert s[i] == c.pad[i - |c.size|];
    } else if i < |SizeLine(c)| - 1 {
      assert s[i] == c.ext[i - head] && s[i + 1] == c.ext[i - head + 1];
    } else {
      assert s[i + 1] == CR;
    }
  }

  /** One turn of the decoder, once the size line is known. */
  lemma DecodeTurn(s: seq<Byte>, end: nat, data: seq<Byte>, rest: seq<Byte>, out: seq<Byte>)
    requires FindCrlf(s) == Some(end) && end + 2 <= |s| && ParseSizeLine(s[..end]) == Ok(|data|)
    requires s[end + 2..] == data + CRLF + rest && 0 < |data| && |out| + |data| <= MAX_RESPONSE_BYTES
    ensures Decode(s, out) == Decode(rest, out + data)
  {
    hide FindCrlf, ParseSizeLine;
    var body := s[end + 2..];
    assert body[..|data|] == data && body[|data|..|data| + 2] == CRLF && body[|data| + 2..] == rest;
  }

  /** A line that cannot be read stops the decoder. */
  lemma DecodeStops(line: seq<Byte>, tail: seq<Byte>, out: seq<Byte>)
    requires FindCrlf(line + CRLF + tail) == Some(|line|) && ParseSizeLine(line).Err?
    ensures Decode(line + CRLF + tail, out) == Err(ParseSizeLine(line).error)
  {
    hide FindCrlf, ParseSizeLine;
    assert (line + CRLF + tail)[..|line|] == line;
  }

  /** Decoding one good chunk appends its data and goes on with the rest, unless its extension is not UTF-8. */
  lemma DecodeStep(c: WireChunk, rest: seq<Byte>, out: seq<Byte>)
    requires GoodChunk(c) && |out| + |c.data| <= MAX_RESPONSE_BYTES
    ensures Decode(Wire(c) + rest, out) == if IsUtf8(c.ext) then Decode(rest, out + c.data) else Err(SizeNotUtf8)
  {
    var tail := c.data + CRLF + rest;
    var s := SizeLine(c) + CRLF + tail;
    assert Wire(c) + rest == s;
    LineEndsHere(c, tail);
    SizeLineParses(c);
    hide Decode, FindCrlf, ParseSizeLine, SizeLine, Wire;
    assert s[..|SizeLine(c)|] == SizeLine(c) && s[|SizeLine(c)| + 2..] == tail;
    if IsUtf8(c.ext) {
      DecodeTurn(s, |SizeLine(c)|, c.data, rest, out);
    } else {
      DecodeStops(SizeLine(c), tail, out);
    }
  }

  lemma DecodeLast(last: WireChunk, rest: seq<Byte>, out: seq<Byte>)
    requires LastChunk(last)
    ensures Decode(SizeLine(last) + CRLF + rest, out) == if IsUtf8(last.ext) then Ok(out) else Err(SizeNotUtf8)
  {
    LineEndsHere(last, rest);
    SizeLineParses(last);
    var s := SizeLine(last) + CRLF + rest;
    assert s[..|SizeLine(last)|] == SizeLine(last);
  }

  /** Every extension can be read as text. */
  predicate Readable(chunks: seq<WireChunk>, last: WireChunk) {
    IsUtf8(last.ext) && forall c :: c in chunks ==> IsUtf8(c.ext)
  }

  lemma {:induction false} DecodeAll(chunks: seq<WireChunk>, last: WireChunk, rest: seq<Byte>, out: seq<Byte>)
    requires (forall c :: c in chunks ==> GoodChunk(c)) && LastChunk(last)
    requires |out| + |Payload(chunks)| <= MAX_RESPONSE_BYTES
    ensures Decode(WireAll(chunks, last) + rest, out) ==
            if Readable(chunks, last) then Ok(out + Payload(chunks)) else Err(SizeNotUtf8)
    decreases |chunks|
  {
    hide GoodChunk, Decode, LastChunk, Wire, IsUtf8;
    if chunks == [] {
      DecodeLast(last, rest, out);
      assert out + Payload(chunks) == out;
    } else {
      var more := WireAll(chunks[1..], last) + rest;
      assert WireAll(chunks, last) + rest == Wire(chunks[0]) + more;
      assert chunks == [chunks[0]] + chunks[1..];
      DecodeStep(chunks[0], more, out);
      DecodeAll(chunks[1..], last, rest, out + chunks[0].data);
      assert out + chunks[0].data + Payload(chunks[1..]) == out + Payload(chunks);
    }
  }

  /** Decoding an encoding gives back the payload exactly when every extension is UTF-8, whatever follows it. */
  lemma RoundTrip(chunks: seq<WireChunk>, last: WireChunk, rest: seq<Byte>)
    requires (forall c :: c in chunks ==> GoodChunk(c)) && LastChunk(last) && |Payload(chunks)| <= MAX_RESPONSE_BYTES
    ensures Decode(WireAll(chunks, last) + rest, []) ==
            if Readable(chunks, last) then Ok(Payload(chunks)) else Err(SizeNotUtf8)
  {
    DecodeAll(chunks, last, rest, []);
    assert [] + Payload(chunks) == Payload(chunks);
  }

  /** The chunk `1;a="?"` with the byte 255 between the quotes: good, and refused. */
  const OBSCURE := WireChunk([49], [], [59, 97, 61, 34, 255, 34], [120])

  const END := WireChunk([48], [], [], [])

  lemma ObscureIsGood()
    ensures GoodChunk(OBSCURE) && LastChunk(END) && !IsUtf8(OBSCURE.ext)
  {
    var size, zero, ext := OBSCURE.size, END.size, OBSCURE.ext;
    assert size[..0] == [] && zero[..0] == [];
    assert HexValue(size) == 1 && HexValue(zero) == 0;
    assert ext[1..] == [97, 61, 34, 255, 34] && ext[1..][1..] == [61, 34, 255, 34];
    assert ext[1..][1..][1..] == [34, 255, 34] && ext[1..][1..][1..][1..] == [255, 34];
    assert !IsUtf8([255, 34]);
  }

  /** A good encoding that is refused: its extension holds a byte that is not text. */
  lemma ObscureExtensionIsRefused()
    ensures (forall c :: c in [OBSCURE] ==> GoodChunk(c)) && LastChunk(END)
    ensures Decode(WireAll([OBSCURE], END), []) == Err(SizeNotUtf8)
  {
    ObscureIsGood();
    hide GoodChunk, LastChunk, IsUtf8, Decode, WireAll;
    assert OBSCURE in [OBSCURE];
    assert [OBSCURE][1..] == [] && |Payload([OBSCURE])| == 1 by { assert Payload([OBSCURE]) == [120] + Payload([]); }
    RoundTrip([OBSCURE], END, []);
    assert WireAll([OBSCURE], END) + [] == WireAll([OBSCURE], END);
  }

  /** A prefix that stops inside the size line has no line end. */
  lemma CutSizeLine(c: WireChunk, tail: seq<Byte>, n: nat)
    requires GoodLine(c) && n < |SizeLine(c)| + 2
    ensures FindCrlf((SizeLine(c) + CRLF + tail)[..n]) == None
  {
    var s := SizeLine(c) + CRLF + tail;
    forall i | 0 <= i < n - 1 ensures !(s[i] == CR && s[i + 1] == LF) {
      if i < |SizeLine(c)| {
        NoEarlyCrlf(c, i);
      }
    }
  }

  /** A prefix that stops inside a chunk is rejected. */
  lemma CutChunk(c: WireChunk, rest: seq<Byte>, n: nat, out: seq<Byte>)
    requires GoodChunk(c) && |c.data| <= MAX_RESPONSE_BYTES && n < |Wire(c)|
    ensures Decode((Wire(c) + rest)[..n], out).Err?
  {
    var tail := c.data + CRLF + rest;
    var s := SizeLine(c) + CRLF + tail;
    var line := |SizeLine(c)|;
    assert Wire(c) + rest == s;
    if n < line + 2 {
      CutSizeLine(c, tail, n);
    } else {
      var cut := s[..n];
      assert cut == SizeLine(c) + CRLF + tail[..n - line - 2];
      LineEndsHere(c, tail[..n - line - 2]);
      SizeLineParses(c);
      assert cut[..line] == SizeLine(c);
    }
  }

  /** No prefix that stops before the end of the zero-size line decodes. */
  lemma {:induction false} PrefixesFail(chunks: seq<WireChunk>, last: WireChunk, n: nat, out: seq<Byte>)
    requires (forall c :: c in chunks ==> GoodChunk(c)) && LastChunk(last)
    requires |out| + |Payload(chunks)| <= MAX_RESPONSE_BYTES
    requires n < |WireAll(chunks, last)|
    ensures Decode(WireAll(chunks, last)[..n], out).Err?
    decreases |chunks|
  {
    hide GoodChunk;
    var s := WireAll(chunks, last);
    if chunks == [] {
      assert s == s + [];
      CutSizeLine(last, [], n);
    } else {
      var c, more := chunks[0], WireAll(chunks[1..], last);
      assert c in chunks;
      if n < |Wire(c)| {
        CutChunk(c, more, n, out);
      } else {
        assert s[..n] == Wire(c) + more[..n - |Wire(c)|];
        DecodeStep(c, more[..n - |Wire(c)|], out);
        PrefixesFail(chunks[1..], last, n - |Wire(c)|, out + c.data);
      }
    }
  }
}
