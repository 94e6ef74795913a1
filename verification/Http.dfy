/**
 The response side of src/http.c. `memmem`, `memmove`, `strtol` and `strncasecmp` are modelled by
 what they answer; a pointer into a text is the rest of the text from there on.
 */
module Http {
  import opened CText

  const CRLF := "\r\n"

  // ---------------------------------------------------------------- looking things up

  /** `memmem` or `strstr`: where `needle` first occurs in `s`, or the length of `s` when it does not. */
  function Find(s: string, needle: string): (r: nat)
    ensures r <= |s|
    ensures r < |s| && needle != "" ==> r + |needle| <= |s|
  {
    if s == "" then 0 else if needle <= s then 0 else 1 + Find(s[1..], needle)
  }

  predicate IsHex(c: char) { HexDigit(c) < 16 }

  function SkipSpaces(x: string): (r: string)
    ensures |r| <= |x|
  {
    if x != "" && IsSpace(x[0]) then SkipSpaces(x[1..]) else x
  }

  /** The value of the hex digits at the front of `x`, after the digits worth `read`. */
  function HexRun(x: string, read: nat): nat
    decreases |x|
  {
    if x != "" && IsHex(x[0]) then HexRun(x[1..], read * 16 + HexDigit(x[0])) else read
  }

  /** The digits behind a sign, a `0x` in front of them or not. */
  function HexDigits(z: string): nat {
    if |z| > 2 && z[0] == '0' && (z[1] == 'x' || z[1] == 'X') && IsHex(z[2]) then HexRun(z[2..], 0) else HexRun(z, 0)
  }

  /**
   `strtol` in base 16. It stops at the ends of a `long`; a size out there is larger than any body,
   as the unbounded one is.
   */
  function ChunkSize(x: string): int {
    var y := SkipSpaces(x);
    if y != "" && y[0] == '-' then 0 - (HexDigits(y[1..]) as int)
    else if y != "" && y[0] == '+' then HexDigits(y[1..])
    else HexDigits(y)
  }

  // ---------------------------------------------------------------- chunked bodies

  /** A text, a failure, or a copy the source would make outside its array, about which nothing is said. */
  datatype Outcome = Whole(text: string) | Failed | Undefined

  /** Where decode_chunked stands after one line of the body. */
  datatype Step = More(data: string) | Done | Malformed | Runaway

  /** The line end after a chunk's data, where there is one. */
  function AfterData(x: string): (r: string)
    ensures |r| <= |x|
  {
    if CRLF <= x then x[2..] else x
  }

  /**
   What the next chunk of `x` is, and what is left after it; `x` starts at position `at` of the body.
   Adding a negative size to an unsigned position wraps: the sum is past any body when it would fall
   below zero, and passes the check when it would not.
   */
  function NextChunk(x: string, at: nat): (r: (Step, string))
    requires x != ""
    ensures |r.1| < |x|
  {
    var e := Find(x, CRLF);
    if e == |x| then (Malformed, "")
    else
      var size, rest := ChunkSize(x), x[e + 2..];
      if size == 0 then (Done, "")
      else if size < 0 then (if at + e + 2 + size < 0 then Malformed else Runaway, "")
      else if size > |rest| then (Malformed, "")
      else (More(rest[..size]), AfterData(rest[size..]))
  }

  function InFront(read: string, r: Outcome): Outcome {
    if r.Whole? then Whole(read + r.text) else r
  }

  /** What decode_chunked makes of the part of the body that is still to be read. */
  function Decode(x: string, at: nat): Outcome
    decreases |x|
  {
    if x == "" then Whole("")
    else
      var (step, rest) := NextChunk(x, at);
      match step
      case Malformed => Failed
      case Runaway => Undefined
      case Done => Whole("")
      case More(data) => InFront(data, Decode(rest, at + |x| - |rest|))
  }

  /** `memmove` within one array, downwards. */
  method MoveDown(a: array<char>, to: nat, from: nat, count: nat)
    requires to <= from && from + count <= a.Length
    modifies a
    ensures a[..to] == old(a[..to]) && a[to..to + count] == old(a[from..from + count])
    ensures a[from + count..] == old(a[from + count..])
  {
    for i := 0 to count
      invariant a[..to] == old(a[..to])
      invariant a[to..to + i] == old(a[from..from + i])
      invariant a[from + i..] == old(a[from + i..])
    {
      assert a[from + i] == a[from + i..][0] == old(a[from + i..])[0];
      a[to + i] := a[from + i];
    }
  }

  /** One turn of the loop, in a body that starts at `body`: one chunk's data moves down. */
  method TakeChunk(a: array<char>, body: nat, n: nat, readPos: nat, writePos: nat)
    returns (step: Step, r: nat, w: nat)
    requires body <= writePos <= readPos < n < a.Length
    modifies a
    ensures step == NextChunk(old(a[readPos..n]), readPos - body).0
    ensures match step
            case More(data) =>
              && w == writePos + |data| && w <= r && readPos < r <= n
              && a[..w] == old(a[..writePos]) + data && a[r..n] == NextChunk(old(a[readPos..n]), readPos - body).1
            case _ => a[..writePos] == old(a[..writePos]) && r == readPos && w == writePos
  {
    hide Find, ChunkSize, NextChunk, AfterData;
    ghost var out, x := a[..writePos], a[readPos..n];
    ChunkIs(x, readPos - body);
    r, w := readPos, writePos;
    var lineEnd := Find(a[readPos..n], CRLF);
    if lineEnd == n - readPos {
      return Malformed, r, w;
    }
    var chunk := ChunkSize(a[readPos..n]);
    var from := readPos + lineEnd + 2;
    ghost var rest := a[from..n];
    assert rest == x[lineEnd + 2..];
    if chunk == 0 {
      return Done, r, w;
    }
    if chunk < 0 {
      return if from - body + chunk < 0 then Malformed else Runaway, r, w;
    }
    if from + chunk > n {
      return Malformed, r, w;
    }
    assert a[from..from + chunk] == rest[..chunk] && a[from + chunk..n] == rest[chunk..];
    step := MoveData(a, n, writePos, from, chunk);
    w := writePos + chunk;
    r := SkipLineEnd(a, from + chunk, n);
  }

  /** The move itself, and what it leaves around the data. */
  method MoveData(a: array<char>, n: nat, to: nat, from: nat, count: nat) returns (step: Step)
    requires to <= from && from + count <= n <= a.Length
    modifies a
    ensures step == More(old(a[from..from + count]))
    ensures a[..to + count] == old(a[..to]) + old(a[from..from + count])
    ensures a[from + count..n] == old(a[from + count..n])
  {
    ghost var tail := a[from + count..];
    MoveDown(a, to, from, count);
    assert a[from + count..n] == tail[..n - (from + count)];
    return More(a[to..to + count]);
  }

  /** Past the line end at `r`, if there is one. */
  method SkipLineEnd(a: array<char>, r: nat, n: nat) returns (next: nat)
    requires r <= n <= a.Length
    ensures r <= next <= n && a[next..n] == AfterData(a[r..n])
  {
    if r + 2 <= n && a[r] == '\r' && a[r + 1] == '\n' {
      assert a[r..n][..2] == CRLF && a[r + 2..n] == a[r..n][2..];
      return r + 2;
    }
    return r;
  }

  lemma {:induction false} ChunkIs(x: string, at: nat)
    requires x != ""
    ensures var e := Find(x, CRLF);
            if e == |x| then NextChunk(x, at) == (Malformed, "")
            else
              var size, rest := ChunkSize(x), x[e + 2..];
              if size == 0 then NextChunk(x, at) == (Done, "")
              else if size < 0 then NextChunk(x, at) == (if at + e + 2 + size < 0 then Malformed else Runaway, "")
              else if size > |rest| then NextChunk(x, at) == (Malformed, "")
              else NextChunk(x, at) == (More(rest[..size]), AfterData(rest[size..]))
  {
    hide Find, ChunkSize, AfterData;
  }

  lemma {:induction false} DecodeSteps(x: string, at: nat)
    requires x != ""
    ensures var (step, rest) := NextChunk(x, at);
            Decode(x, at) == match step
                             case Malformed => Failed
                             case Runaway => Undefined
                             case Done => Whole("")
                             case More(data) => InFront(data, Decode(rest, at + |x| - |rest|))
  {
    hide NextChunk;
  }

  lemma NothingLeft(at: nat)
    ensures Decode("", at) == Whole("")
  {}

  /**
   decode_chunked of the part `from` to `to` of an array: the data of all chunks moves to its front.
   The write position never passes the read position, so what is still to be read stays as it was.
   Where the source's copy would leave the array this one stops instead.
   */
  method DecodeChunked(a: array<char>, from: nat, to: nat) returns (length: int)
    requires from <= to < a.Length
    modifies a
    ensures a[..from] == old(a[..from]) && -1 <= length <= to - from
    ensures var decoded := Decode(old(a[from..to]), 0);
            && (decoded.Failed? ==> length == -1)
            && (decoded.Whole? ==>
                  var n := |decoded.text|;
                  length == n <= to - from && a[from..from + n] == decoded.text && a[from + n] == NUL)
  {
    hide NextChunk, Find, ChunkSize, AfterData, Decode;
    ghost var body, before := a[from..to], a[..from];
    var readPos, writePos := from, from;
    assert a[from..from] == "";
    NothingInFront(Decode(body, 0));
    while readPos < to
      invariant from <= writePos <= readPos <= to
      invariant a[..from] == before
      invariant Decode(body, 0) == InFront(a[from..writePos], Decode(a[readPos..to], readPos - from))
    {
      ghost var all, x := a[..writePos], a[readPos..to];
      ghost var out := a[from..writePos];
      assert out == all[from..] && before == all[..from];
      DecodeSteps(x, readPos - from);
      var step;
      step, readPos, writePos := TakeChunk(a, from, to, readPos, writePos);
      assert a[..from] == a[..writePos][..from] && a[from..writePos] == a[..writePos][from..];
      match step {
        case Malformed => return -1;
        case Runaway => return -1;
        case Done =>
          assert out + "" == out;
          break;
        case More(data) =>
          assert a[from..writePos] == out + data;
          FrontJoins(out, data, Decode(a[readPos..to], readPos - from));
      }
    }
    if readPos == to {
      assert a[readPos..to] == "";
      NothingLeft(readPos - from);
      assert a[from..writePos] + "" == a[from..writePos];
    }
    ghost var final := a[from..writePos];
    a[writePos] := NUL;
    assert a[from..writePos] == final;
    return writePos - from;
  }

  lemma FrontJoins(out: string, data: string, r: Outcome)
    ensures InFront(out, InFront(data, r)) == InFront(out + data, r)
  {
    if r.Whole? {
      assert out + (data + r.text) == (out + data) + r.text;
    }
  }

  lemma NothingInFront(r: Outcome)
    ensures InFront("", r) == r
  {
    if r.Whole? {
      assert "" + r.text == r.text;
    }
  }

  // ---------------------------------------------------------------- reading until the end

  /** What a socket gives: pieces, then an empty one at the end, or an error. */
  function Received(pieces: seq<Option<string>>): Outcome
    decreases |pieces|
  {
    if pieces == [] || pieces[0] == Some("") then Whole("")
    else if pieces[0].None? then Failed
    else InFront(pieces[0].value, Received(pieces[1..]))
  }

  const PIECE := 4096

  /** read_all: the array grows so that a whole piece and the terminator always fit. */
  method ReadAll(pieces: seq<Option<string>>) returns (data: array?<char>, length: nat)
    requires forall p :: p in pieces && p.Some? ==> |p.value| <= PIECE
    ensures match Received(pieces)
            case Whole(out) =>
              && data != null && fresh(data) && length == |out| < data.Length
              && data[..length] == out && data[length] == NUL
              && (data.Length == 8192 || data.Length < 2 * (length + PIECE + 1))
            case _ => data == null
  {
    hide Received, InFront;
    var buffer := new char[8192](_ => NUL);
    length := 0;
    var k := 0;
    assert buffer[..0] == "" && pieces[0..] == pieces;
    NothingInFront(Received(pieces));
    while true
      invariant 0 <= k <= |pieces| && fresh(buffer)
      invariant length < buffer.Length && buffer.Length >= 8192
      invariant buffer.Length == 8192 || buffer.Length < 2 * (length + PIECE + 1)
      invariant Received(pieces) == InFront(buffer[..length], Received(pieces[k..]))
      decreases |pieces| - k
    {
      if length + PIECE + 1 > buffer.Length {
        buffer := Grow(buffer, length);
      }
      ReceivedStep(pieces[k..]);
      if k == |pieces| || pieces[k] == Some("") {
        break;
      }
      if pieces[k].None? {
        InFrontIs(buffer[..length], "");
        return null, 0;
      }
      ghost var out := buffer[..length];
      assert pieces[k] in pieces && pieces[k..][1..] == pieces[k + 1..];
      Place(buffer, length, pieces[k].value);
      FrontJoins(out, pieces[k].value, Received(pieces[k + 1..]));
      length := length + |pieces[k].value|;
      k := k + 1;
    }
    ghost var out := buffer[..length];
    InFrontIs(out, "");
    assert out + "" == out;
    buffer[length] := NUL;
    assert buffer[..length] == out;
    return buffer, length;
  }

  lemma {:induction false} ReceivedStep(pieces: seq<Option<string>>)
    ensures Received(pieces) == if pieces == [] || pieces[0] == Some("") then Whole("")
                                else if pieces[0].None? then Failed
                                else InFront(pieces[0].value, Received(pieces[1..]))
  {}

  lemma InFrontIs(read: string, more: string)
    ensures InFront(read, Whole(more)) == Whole(read + more) && InFront(read, Failed) == Failed
  {}

  /** `realloc` to twice the size. */
  method Grow(buffer: array<char>, length: nat) returns (grown: array<char>)
    requires length <= buffer.Length
    ensures fresh(grown) && grown.Length == 2 * buffer.Length && grown[..length] == buffer[..length]
  {
    grown := new char[2 * buffer.Length](_ => NUL);
    for i := 0 to length
      invariant grown[..i] == buffer[..i]
    {
      grown[i] := buffer[i];
    }
  }

  /** `recv` into the array. */
  method Place(buffer: array<char>, at: nat, piece: string)
    requires at + |piece| <= buffer.Length
    modifies buffer
    ensures buffer[..at + |piece|] == old(buffer[..at]) + piece
  {
    for i := 0 to |piece|
      invariant buffer[..at + i] == old(buffer[..at]) + piece[..i]
    {
      buffer[at + i] := piece[i];
    }
  }

  // ---------------------------------------------------------------- headers

  function SkipBlanks(x: string): string {
    if x != "" && (x[0] == ' ' || x[0] == '\t') then SkipBlanks(x[1..]) else x
  }

  /** `strncasecmp` over the whole of `name`. */
  predicate StartsLike(x: string, name: string) {
    |name| <= |x| && Upper(x[..|name|]) == Upper(name)
  }

  /** The line at the front of `h` is a header of this name. */
  predicate IsHeader(h: string, lineLength: nat, name: string)
    requires lineLength <= |h|
  {
    lineLength > |name| + 1 && StartsLike(h, name) && h[|name|] == ':'
  }

  /** find_header: the text from the header's value on. */
  function FindHeader(h: string, name: string): Option<string>
    decreases |h|
  {
    if h == "" then None
    else
      var e := Find(h, CRLF);
      if IsHeader(h, e, name) then Some(SkipBlanks(h[|name| + 1..]))
      else if e == |h| then None
      else FindHeader(h[e + 2..], name)
  }

  lemma {:induction false} HeaderStep(h: string, name: string)
    requires h != ""
    ensures var e := Find(h, CRLF);
            FindHeader(h, name) == if IsHeader(h, e, name) then Some(SkipBlanks(h[|name| + 1..]))
                                   else if e == |h| then None
                                   else FindHeader(h[e + 2..], name)
  {
    hide Find, SkipBlanks, IsHeader;
  }

  lemma NoHeader(name: string)
    ensures FindHeader("", name) == None
  {}

  method LookUpHeader(h: string, name: string) returns (value: Option<string>)
    ensures value == FindHeader(h, name)
  {
    hide Find, FindHeader, SkipBlanks;
    var line := 0;
    assert h[0..] == h;
    while line < |h|
      invariant 0 <= line <= |h|
      invariant FindHeader(h[line..], name) == FindHeader(h, name)
    {
      var rest := h[line..];
      HeaderStep(rest, name);
      var lineLength := Find(rest, CRLF);
      if lineLength > |name| + 1 && Upper(rest[..|name|]) == Upper(name) && rest[|name|] == ':' {
        return Some(SkipBlanks(rest[|name| + 1..]));
      }
      if lineLength == |rest| {
        return None;
      }
      assert rest[lineLength + 2..] == h[line + lineLength + 2..];
      line := line + lineLength + 2;
    }
    assert h[line..] == "";
    NoHeader(name);
    return None;
  }

  // ---------------------------------------------------------------- responses

  function Digits(x: string, read: nat): nat
    decreases |x|
  {
    if x != "" && IsDigit(x[0]) then Digits(x[1..], read * 10 + (x[0] as int - 48)) else read
  }

  /** `atoi`, and `strtol` in base 10. */
  function Atoi(x: string): int {
    var y := SkipSpaces(x);
    if y != "" && y[0] == '-' then 0 - (Digits(y[1..], 0) as int)
    else if y != "" && y[0] == '+' then Digits(y[1..], 0)
    else Digits(y, 0)
  }

  datatype Response = Response(status: int, body: string) | BadResponse | BadHeaders | BadChunks | Unknown

  /** The part of the payload that is the body. */
  function Framed(headers: string, payload: string): Outcome {
    var te := FindHeader(headers, "Transfer-Encoding");
    if te.Some? && StartsLike(te.value, "chunked") then Decode(payload, 0)
    else
      var cl := FindHeader(headers, "Content-Length");
      if cl.Some? && 0 <= Atoi(cl.value) <= |payload| then Whole(payload[..Atoi(cl.value)]) else Whole(payload)
  }

  /** http_request from the raw response on; `Unknown` where the source's behaviour is not defined. */
  function Split(raw: string): Response {
    if !("HTTP/1." <= raw) || |raw| < 12 then BadResponse
    else
      var e := Find(raw, "\r\n\r\n");
      if e == |raw| then BadHeaders
      else
        match Framed(CStr(raw[..e]), raw[e + 4..])
        case Failed => BadChunks
        case Undefined => Unknown
        case Whole(body) => Response(Atoi(raw[9..]), body)
  }

  /** The response-splitting part of http_request, on the array read_all filled. */
  method SplitResponse(raw: array<char>, n: nat) returns (r: Response)
    requires n < raw.Length
    modifies raw
    ensures Split(old(raw[..n])).Unknown? || r == Split(old(raw[..n]))
  {
    hide Find, FindHeader, Decode, Atoi, StartsLike, CStr;
    ghost var text := raw[..n];
    if !("HTTP/1." <= raw[..n]) || n < 12 {
      return BadResponse;
    }
    var status := Atoi(raw[9..n]);
    assert raw[9..n] == text[9..];
    var headerEnd := Find(raw[..n], "\r\n\r\n");
    if headerEnd == n {
      return BadHeaders;
    }
    raw[headerEnd] := NUL;
    var headers := CStr(raw[..headerEnd]);
    assert raw[..headerEnd] == text[..headerEnd];
    var payload := headerEnd + 4;
    assert raw[payload..n] == text[payload..];
    var transferEncoding := LookUpHeader(headers, "Transfer-Encoding");
    if transferEncoding.Some? && StartsLike(transferEncoding.value, "chunked") {
      var decoded := DecodeChunked(raw, payload, n);
      if decoded < 0 {
        return BadChunks;
      }
      return Response(status, raw[payload..payload + decoded]);
    }
    var length := n - payload;
    var contentLength := LookUpHeader(headers, "Content-Length");
    if contentLength.Some? {
      var declared := Atoi(contentLength.value);
      if declared >= 0 && declared <= length {
        length := declared;
      }
    }
    assert raw[payload..payload + length] == text[payload..][..length];
    return Response(status, raw[payload..payload + length]);
  }
}
