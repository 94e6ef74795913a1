/** Well-formed bodies and headers, and what the response side reads in them. */
module HttpProofs {
  import opened CText
  import opened Http

  // ---------------------------------------------------------------- chunked bodies of RFC 9112

  /** One chunk of section 7.1 of RFC 9112: its size in hex, its extension, its data. */
  datatype Chunk = Chunk(size: string, extension: string, data: string)

  /** Extensions start with a semicolon or the blank before one, and hold no line end. */
  predicate IsExtension(x: string) {
    && (x == "" || x[0] == ';' || x[0] == ' ' || x[0] == '\t')
    && (forall i :: 0 <= i < |x| - 1 ==> !(x[i] == '\r' && x[i + 1] == '\n'))
  }

  predicate AllHex(x: string) { forall i :: 0 <= i < |x| ==> IsHex(x[i]) }

  predicate WellFormed(c: Chunk) {
    && c.size != "" && AllHex(c.size) && HexRun(c.size, 0) == |c.data| && c.data != ""
    && IsExtension(c.extension)
  }

  function ChunkText(c: Chunk): string { (c.size + c.extension) + (CRLF + (c.data + CRLF)) }

  /** The last chunk: zeros, an extension, then the trailer section and the final line end. */
  function LastText(zeros: string, extension: string, trailer: string): string {
    (zeros + extension) + (CRLF + trailer)
  }

  predicate WellFormedLast(zeros: string, extension: string) {
    zeros != "" && (forall i :: 0 <= i < |zeros| ==> zeros[i] == '0') && IsExtension(extension)
  }

  function Body(chunks: seq<Chunk>, last: string): string
    decreases |chunks|
  {
    if chunks == [] then last else ChunkText(chunks[0]) + Body(chunks[1..], last)
  }

  function Data(chunks: seq<Chunk>): string
    decreases |chunks|
  {
    if chunks == [] then "" else chunks[0].data + Data(chunks[1..])
  }

  lemma NotAtFront(s: string)
    requires s != "" && (s[0] != '\r' || (|s| > 1 && s[1] != '\n'))
    ensures !(CRLF <= s)
  {
    var crlf := CRLF;
    assert crlf[0] == '\r' && crlf[1] == '\n';
  }

  /** No line end starts in `line`, so the first one is right after it. */
  lemma {:induction false} FindAfterLine(line: string, rest: string)
    requires forall i :: 0 <= i < |line| - 1 ==> !(line[i] == '\r' && line[i + 1] == '\n')
    ensures Find(line + (CRLF + rest), CRLF) == |line|
    decreases |line|
  {
    var s := line + (CRLF + rest);
    if line == "" {
      assert s == CRLF + rest;
      assert CRLF <= s;
    } else {
      assert s[1..] == line[1..] + (CRLF + rest);
      assert s[0] == line[0] && s[1] == (if |line| > 1 then line[1] else '\r');
      NotAtFront(s);
      FindAfterLine(line[1..], rest);
    }
  }

  lemma SizeLineHasNoEnd(size: string, extension: string)
    requires AllHex(size) && IsExtension(extension)
    ensures var line := size + extension;
            forall i :: 0 <= i < |line| - 1 ==> !(line[i] == '\r' && line[i + 1] == '\n')
  {
    var line := size + extension;
    forall i | 0 <= i < |line| - 1
      ensures !(line[i] == '\r' && line[i + 1] == '\n')
    {
      if i < |size| {
        assert IsHex(line[i]);
      } else {
        assert line[i] == extension[i - |size|] && line[i + 1] == extension[i + 1 - |size|];
      }
    }
  }

  /** `strtol` reads the whole size and stops at what follows it. */
  lemma {:induction false} HexRunStops(size: string, rest: string, read: nat)
    requires AllHex(size) && (rest != "" ==> !IsHex(rest[0]))
    ensures HexRun(size + rest, read) == HexRun(size, read)
    decreases |size|
  {
    if size == "" {
      assert size + rest == rest;
    } else {
      assert (size + rest)[1..] == size[1..] + rest;
      HexRunStops(size[1..], rest, read * 16 + HexDigit(size[0]));
    }
  }

  lemma SizeReads(size: string, rest: string)
    requires size != "" && AllHex(size) && rest != "" && !IsHex(rest[0]) && rest[0] != 'x' && rest[0] != 'X'
    ensures ChunkSize(size + rest) == HexRun(size, 0) as int
  {
    var s := size + rest;
    assert IsHex(s[0]) && SkipSpaces(s) == s;
    assert s[1] == (if |size| > 1 then size[1] else rest[0]);
    assert |size| > 1 ==> IsHex(size[1]);
    HexRunStops(size, rest, 0);
  }

  lemma {:induction false} ZerosAreZero(zeros: string)
    requires forall i :: 0 <= i < |zeros| ==> zeros[i] == '0'
    ensures AllHex(zeros) && HexRun(zeros, 0) == 0
    decreases |zeros|
  {
    if zeros != "" {
      ZerosAreZero(zeros[1..]);
      assert HexDigit('0') == 0;
    }
  }

  /** What follows a chunk size is no part of it. */
  lemma TailStarts(extension: string, rest: string)
    requires IsExtension(extension)
    ensures var tail := extension + (CRLF + rest);
            tail != "" && !IsHex(tail[0]) && tail[0] != 'x' && tail[0] != 'X'
  {
    var tail := extension + (CRLF + rest);
    assert tail[0] == (if extension != "" then extension[0] else '\r');
  }

  lemma ChunkReads(c: Chunk, after: string, at: nat)
    requires WellFormed(c)
    ensures ChunkText(c) + after != "" && NextChunk(ChunkText(c) + after, at) == (More(c.data), after)
  {
    hide Find, ChunkSize, HexRun, IsExtension, AllHex, NextChunk;
    var line, rest := c.size + c.extension, c.data + (CRLF + after);
    var x := ChunkText(c) + after;
    assert x == line + (CRLF + rest) == c.size + (c.extension + (CRLF + rest));
    SizeLineHasNoEnd(c.size, c.extension);
    FindAfterLine(line, rest);
    var tail := c.extension + (CRLF + rest);
    TailStarts(c.extension, rest);
    SizeReads(c.size, tail);
    DataReads(line, c.data, after, at);
  }

  /** Once its size is read, a chunk is its data and the line end after it. */
  lemma DataReads(line: string, data: string, after: string, at: nat)
    requires var x := line + (CRLF + (data + (CRLF + after)));
             Find(x, CRLF) == |line| && ChunkSize(x) == |data| && data != ""
    ensures var x := line + (CRLF + (data + (CRLF + after)));
            NextChunk(x, at) == (More(data), after)
  {
    hide Find, ChunkSize;
    var rest := data + (CRLF + after);
    var x := line + (CRLF + rest);
    assert x[|line| + 2..] == rest;
    assert rest[..|data|] == data && rest[|data|..] == CRLF + after;
    assert (CRLF + after)[2..] == after && CRLF <= CRLF + after;
  }

  lemma LastReads(zeros: string, extension: string, trailer: string, at: nat)
    requires WellFormedLast(zeros, extension)
    ensures LastText(zeros, extension, trailer) != "" && NextChunk(LastText(zeros, extension, trailer), at).0 == Done
  {
    hide Find, ChunkSize, HexRun;
    var line := zeros + extension;
    var x := LastText(zeros, extension, trailer);
    ZerosAreZero(zeros);
    SizeLineHasNoEnd(zeros, extension);
    FindAfterLine(line, trailer);
    var tail := extension + (CRLF + trailer);
    assert x == zeros + tail;
    TailStarts(extension, trailer);
    SizeReads(zeros, tail);
  }

  /** Decoding a well-formed chunked body gives the data of its chunks, in order and nothing else. */
  lemma {:induction false} DecodeOfBody(chunks: seq<Chunk>, zeros: string, extension: string, trailer: string, at: nat)
    requires (forall c :: c in chunks ==> WellFormed(c)) && WellFormedLast(zeros, extension)
    ensures Decode(Body(chunks, LastText(zeros, extension, trailer)), at) == Whole(Data(chunks))
    decreases |chunks|
  {
    hide Decode, NextChunk, WellFormed, ChunkText, LastText;
    var last := LastText(zeros, extension, trailer);
    if chunks == [] {
      LastReads(zeros, extension, trailer, at);
      DecodeSteps(last, at);
    } else {
      var x, rest := Body(chunks, last), Body(chunks[1..], last);
      assert chunks[0] in chunks;
      ChunkReads(chunks[0], rest, at);
      DecodeSteps(x, at);
      DecodeOfBody(chunks[1..], zeros, extension, trailer, at + |x| - |rest|);
    }
  }

  // ---------------------------------------------------------------- header lines

  /** No carriage return and no NUL. */
  predicate IsText(x: string) { forall i :: 0 <= i < |x| ==> x[i] != '\r' && x[i] != NUL }

  predicate IsBlankRun(x: string) { forall i :: 0 <= i < |x| ==> x[i] == ' ' || x[i] == '\t' }

  /** One header line: its name, the blanks behind the colon, its value. */
  datatype Header = Header(name: string, blanks: string, value: string)

  predicate IsLine(h: Header) {
    && h.name != "" && IsText(h.name) && NoColon(h.name)
    && IsBlankRun(h.blanks) && IsText(h.value) && (h.value == "" || (h.value[0] != ' ' && h.value[0] != '\t'))
  }

  predicate NoColon(x: string) { forall i :: 0 <= i < |x| ==> x[i] != ':' }

  function LineText(h: Header): string { h.name + (":" + (h.blanks + h.value)) }

  /** Header lines, each behind a line end. */
  function Block(headers: seq<Header>): string
    decreases |headers|
  {
    if headers == [] then "" else CRLF + (LineText(headers[0]) + Block(headers[1..]))
  }

  /** What the source takes for a header of this name; one with nothing at all behind its colon is passed over. */
  predicate IsNamed(h: Header, name: string) { Upper(h.name) == Upper(name) && h.blanks + h.value != "" }

  /** The first header of this name in any letter case, and the lines behind it. */
  function First(headers: seq<Header>, name: string): Option<(Header, string)>
    decreases |headers|
  {
    if headers == [] then None
    else if IsNamed(headers[0], name) then Some((headers[0], Block(headers[1..])))
    else First(headers[1..], name)
  }

  /** Where nothing starts a line end, the first one is found in what follows. */
  lemma {:induction false} FindSkips(line: string, rest: string, needle: string)
    requires IsText(line) && needle != "" && needle[0] == '\r'
    ensures Find(line + rest, needle) == |line| + Find(rest, needle)
    decreases |line|
  {
    if line == "" {
      assert line + rest == rest;
    } else {
      assert (line + rest)[1..] == line[1..] + rest && (line + rest)[0] == line[0];
      assert !(needle <= line + rest);
      FindSkips(line[1..], rest, needle);
    }
  }

  lemma LineIsText(h: Header)
    requires IsLine(h)
    ensures IsText(LineText(h)) && LineText(h) != "" && LineText(h)[0] != '\r'
  {
    assert LineText(h) == h.name + (":" + (h.blanks + h.value));
  }

  lemma {:induction false} BlanksSkipped(blanks: string, rest: string)
    requires IsBlankRun(blanks) && (rest == "" || (rest[0] != ' ' && rest[0] != '\t'))
    ensures SkipBlanks(blanks + rest) == rest
    decreases |blanks|
  {
    if blanks == "" {
      assert blanks + rest == rest;
    } else {
      assert (blanks + rest)[1..] == blanks[1..] + rest;
      BlanksSkipped(blanks[1..], rest);
    }
  }

  /** A line is the header asked for exactly when its name is, up to letter case, and something follows it. */
  lemma LineMatches(h: Header, after: string, name: string)
    requires IsLine(h) && name != "" && NoColon(name) && (after == "" || after[0] == '\r')
    ensures var s := LineText(h) + after;
            && (IsHeader(s, |LineText(h)|, name) <==> IsNamed(h, name))
            && (IsNamed(h, name) ==> SkipBlanks(s[|name| + 1..]) == h.value + after)
  {
    hide SkipBlanks;
    var s := LineText(h) + after;
    assert s == h.name + (":" + (h.blanks + (h.value + after)));
    assert s[|h.name|] == ':' && s[..|h.name|] == h.name;
    assert |LineText(h)| == |h.name| + 1 + |h.blanks + h.value|;
    if Upper(h.name) == Upper(name) {
      assert |h.name| == |name|;
      assert s[|name| + 1..] == h.blanks + (h.value + after);
      BlanksSkipped(h.blanks, h.value + after);
    } else if IsHeader(s, |LineText(h)|, name) {
      NameEndsAtColon(h.name, name, s);
    }
  }

  /** A colon-free name that matches a line up to its colon is as long as the line's own name. */
  lemma NameEndsAtColon(own: string, name: string, s: string)
    requires |own| < |s| && s[..|own|] == own && s[|own|] == ':' && |name| < |s| && s[|name|] == ':'
    requires Upper(s[..|name|]) == Upper(name) && NoColon(own) && NoColon(name)
    ensures own == s[..|name|]
  {
    assert forall k :: 0 <= k < |own| ==> own[k] == s[..|own|][k] == s[k];
    assert forall k :: 0 <= k < |name| ==> Upper(name)[k] == Upper(s[..|name|])[k] == ToUpper(s[k]);
  }

  function ValueOf(found: Option<(Header, string)>): Option<string> {
    if found.Some? then Some(found.value.0.value + found.value.1) else None
  }

  /** find_header, from one line on, answers the first header of the name, whatever precedes it. */
  lemma {:induction false} FindHeaderOfBlock(headers: seq<Header>, name: string)
    requires headers != [] && (forall h :: h in headers ==> IsLine(h)) && name != "" && NoColon(name)
    ensures FindHeader(LineText(headers[0]) + Block(headers[1..]), name) == ValueOf(First(headers, name))
    decreases |headers|
  {
    hide IsHeader, SkipBlanks, Find, IsLine, IsNamed, LineText;
    var h, rest := headers[0], headers[1..];
    assert h in headers;
    LineIsText(h);
    LineMatches(h, Block(rest), name);
    FindSkips(LineText(h), Block(rest), CRLF);
    BlockStarts(rest);
    HeaderStep(LineText(h) + Block(rest), name);
    if rest != [] {
      LineDropped(LineText(h), rest);
      FindHeaderOfBlock(rest, name);
    }
  }

  lemma BlockStarts(headers: seq<Header>)
    ensures Find(Block(headers), CRLF) == 0
    ensures headers == [] ==> Block(headers) == ""
    ensures headers != [] ==> CRLF <= Block(headers)
  {
    hide LineText;
  }

  /** Past a line and its end. */
  lemma LineDropped(line: string, rest: seq<Header>)
    requires rest != []
    ensures |line| + 2 <= |line + Block(rest)|
    ensures (line + Block(rest))[|line| + 2..] == LineText(rest[0]) + Block(rest[1..])
  {
    hide LineText;
    assert line + Block(rest) == (line + CRLF) + (LineText(rest[0]) + Block(rest[1..]));
  }

  // ---------------------------------------------------------------- a whole response

  /** A status line of section 4 of RFC 9112, of any minor version of HTTP/1. */
  datatype Status = Status(minor: char, code: string, reason: string)

  predicate IsStatus(s: Status) { IsDigit(s.minor) && |s.code| == 3 && AllDigits(s.code) && IsText(s.reason) }

  predicate AllDigits(x: string) { forall i :: 0 <= i < |x| ==> IsDigit(x[i]) }

  function StatusText(s: Status): string { ("HTTP/1." + [s.minor] + " ") + (s.code + (" " + s.reason)) }

  /** The status line and the header lines. */
  function HeadText(status: Status, headers: seq<Header>): string { StatusText(status) + Block(headers) }

  const HEAD_END := "\r\n\r\n"

  function ResponseText(status: Status, headers: seq<Header>, payload: string): string {
    HeadText(status, headers) + (HEAD_END + payload)
  }

  lemma StatusIsText(s: Status)
    requires IsStatus(s)
    ensures IsText(StatusText(s)) && |StatusText(s)| >= 13 && StatusText(s)[0] == 'H' && "HTTP/1." <= StatusText(s)
    ensures StatusText(s)[9..] == s.code + (" " + s.reason)
  {
    var front := "HTTP/1." + [s.minor] + " ";
    assert |front| == 9 && StatusText(s) == front + (s.code + (" " + s.reason));
  }

  /** The status line is never taken for one of the two headers, and is passed over. */
  lemma FindHeaderOfHead(status: Status, headers: seq<Header>, name: string)
    requires IsStatus(status) && forall h :: h in headers ==> IsLine(h)
    requires name != "" && NoColon(name) && ToUpper(name[0]) != 'H'
    ensures FindHeader(HeadText(status, headers), name) == ValueOf(First(headers, name))
  {
    hide SkipBlanks, Find, IsLine, IsNamed, LineText, Block, StatusText;
    var line, h := StatusText(status), HeadText(status, headers);
    StatusIsText(status);
    FindSkips(line, Block(headers), CRLF);
    BlockStarts(headers);
    HeaderStep(h, name);
    assert !StartsLike(h, name) by {
      assert |name| <= |h| ==> Upper(h[..|name|])[0] == ToUpper(h[..|name|][0]) == 'H';
    }
    if headers != [] {
      LineDropped(line, headers);
      FindHeaderOfBlock(headers, name);
    }
  }

  lemma {:induction false} BlockEnds(headers: seq<Header>, payload: string)
    requires forall h :: h in headers ==> IsLine(h)
    ensures Find(Block(headers) + (HEAD_END + payload), HEAD_END) == |Block(headers)|
    decreases |headers|
  {
    hide IsLine, LineText, Find;
    var s := Block(headers) + (HEAD_END + payload);
    if headers == [] {
      assert s == HEAD_END + payload;
      FoundAtFront(s, HEAD_END);
    } else {
      assert headers[0] in headers;
      var line, rest := LineText(headers[0]), Block(headers[1..]) + (HEAD_END + payload);
      LineIsText(headers[0]);
      assert s == CRLF + (line + rest);
      LineEndSkipped(line + rest);
      FindSkips(line, rest, HEAD_END);
      BlockEnds(headers[1..], payload);
    }
  }

  lemma FoundAtFront(s: string, needle: string)
    requires needle != "" && needle <= s
    ensures Find(s, needle) == 0
  {}

  /** A line end with a line behind it does not end the head. */
  lemma LineEndSkipped(rest: string)
    requires rest != "" && rest[0] != '\r'
    ensures Find(CRLF + rest, HEAD_END) == 2 + Find(rest, HEAD_END)
  {
    var s := CRLF + rest;
    var needle := HEAD_END;
    assert needle[0] == '\r' && needle[2] == '\r' && s[2] == rest[0] && s[1] == '\n';
    assert !(needle <= s) && !(needle <= s[1..]) && s[1..][1..] == rest;
  }

  lemma HeadEnds(status: Status, headers: seq<Header>, payload: string)
    requires IsStatus(status) && forall h :: h in headers ==> IsLine(h)
    ensures var raw := ResponseText(status, headers, payload);
            Find(raw, HEAD_END) == |HeadText(status, headers)| < |raw|
  {
    hide IsLine, Block, StatusText, Find;
    var line, rest := StatusText(status), Block(headers) + (HEAD_END + payload);
    StatusIsText(status);
    assert ResponseText(status, headers, payload) == line + rest;
    FindSkips(line, rest, HEAD_END);
    BlockEnds(headers, payload);
  }

  lemma {:induction false} BlockNulFree(headers: seq<Header>)
    requires forall h :: h in headers ==> IsLine(h)
    ensures NulFree(Block(headers))
    decreases |headers|
  {
    hide LineText;
    if headers != [] {
      assert headers[0] in headers;
      LineIsText(headers[0]);
      BlockNulFree(headers[1..]);
    }
  }

  /** The digits read so far and the ones still to read. */
  lemma {:induction false} DigitsRead(done: string, more: string, rest: string)
    requires AllDigits(done) && AllDigits(more) && (rest == "" || !IsDigit(rest[0]))
    ensures AllDigits(done + more) && Digits(more + rest, DecimalValue(done)) == DecimalValue(done + more)
    decreases |more|
  {
    if more == "" {
      assert more + rest == rest && done + more == done;
    } else {
      var d := more[0];
      assert (more + rest)[1..] == more[1..] + rest && (more + rest)[0] == d;
      assert (done + [d])[..|done|] == done;
      DigitsRead(done + [d], more[1..], rest);
      assert (done + [d]) + more[1..] == done + more;
    }
  }

  lemma AtoiOfDigits(x: string, rest: string)
    requires x != "" && AllDigits(x) && (rest == "" || !IsDigit(rest[0]))
    ensures Atoi(x + rest) == DecimalValue(x) as int
  {
    assert (x + rest)[0] == x[0] && IsDigit(x[0]);
    assert "" + x == x;
    DigitsRead("", x, rest);
  }

  /** Reading on past a header's value does not change whether it starts with the word. */
  lemma StartsInValue(value: string, after: string, word: string)
    requires (after == "" || after[0] == '\r') && forall i :: 0 <= i < |word| ==> ToUpper(word[i]) != '\r'
    ensures StartsLike(value + after, word) <==> StartsLike(value, word)
  {
    var s := value + after;
    if |word| <= |value| {
      assert s[..|word|] == value[..|word|];
    } else if |word| <= |s| {
      assert s[..|word|][|value|] == '\r';
      assert Upper(s[..|word|])[|value|] == '\r' != Upper(word)[|value|];
    }
  }

  const TRANSFER_ENCODING := "Transfer-Encoding"
  const CONTENT_LENGTH := "Content-Length"

  predicate IsChunked(headers: seq<Header>) {
    var te := First(headers, TRANSFER_ENCODING);
    te.Some? && StartsLike(te.value.0.value, "chunked")
  }

  /** The declared length, where there is one and it is a number. */
  function Declared(headers: seq<Header>): Option<nat> {
    var cl := First(headers, CONTENT_LENGTH);
    if cl.Some? && cl.value.0.value != "" && AllDigits(cl.value.0.value) then Some(DecimalValue(cl.value.0.value))
    else None
  }

  lemma {:induction false} FirstIsLine(headers: seq<Header>, name: string)
    requires forall h :: h in headers ==> IsLine(h)
    ensures var f := First(headers, name);
            f.Some? ==> IsLine(f.value.0) && (f.value.1 == "" || f.value.1[0] == '\r')
    decreases |headers|
  {
    hide IsLine, IsNamed, LineText;
    if headers != [] {
      assert headers[0] in headers;
      BlockStarts(headers[1..]);
      FirstIsLine(headers[1..], name);
    }
  }

  /** How the payload is framed, read off the header lines. */
  lemma FramedOfHead(status: Status, headers: seq<Header>, payload: string)
    requires IsStatus(status) && forall h :: h in headers ==> IsLine(h)
    ensures var framed := Framed(HeadText(status, headers), payload);
            && (IsChunked(headers) ==> framed == Decode(payload, 0))
            && (!IsChunked(headers) && Declared(headers).Some? ==>
                  var n := Declared(headers).value;
                  framed == Whole(if n <= |payload| then payload[..n] else payload))
            && (!IsChunked(headers) && First(headers, CONTENT_LENGTH).None? ==> framed == Whole(payload))
  {
    hide HeadText, FindHeader, First, Decode, IsLine, Atoi, StartsLike;
    FindHeaderOfHead(status, headers, TRANSFER_ENCODING);
    FindHeaderOfHead(status, headers, CONTENT_LENGTH);
    FirstIsLine(headers, TRANSFER_ENCODING);
    FirstIsLine(headers, CONTENT_LENGTH);
    var te, cl := First(headers, TRANSFER_ENCODING), First(headers, CONTENT_LENGTH);
    if te.Some? {
      StartsInValue(te.value.0.value, te.value.1, "chunked");
    }
    if Declared(headers).Some? {
      AtoiOfDigits(cl.value.0.value, cl.value.1);
    }
  }

  /** The number behind `HTTP/1.x` is the status code. */
  lemma CodeOfResponse(status: Status, more: string)
    requires IsStatus(status)
    ensures var raw := StatusText(status) + more;
            |raw| >= 12 && "HTTP/1." <= raw && Atoi(raw[9..]) == DecimalValue(status.code)
  {
    hide Atoi, StatusText;
    StatusIsText(status);
    var raw, reason := StatusText(status) + more, " " + status.reason;
    assert raw[9..] == StatusText(status)[9..] + more == (status.code + reason) + more == status.code + (reason + more);
    assert (reason + more)[0] == ' ';
    AtoiOfDigits(status.code, reason + more);
  }

  /** Splitting a response gives its status and its payload as framed. */
  lemma SplitOfResponse(status: Status, headers: seq<Header>, payload: string)
    requires IsStatus(status) && forall h :: h in headers ==> IsLine(h)
    ensures var code := DecimalValue(status.code);
            Split(ResponseText(status, headers, payload)) == match Framed(HeadText(status, headers), payload)
                                                             case Failed => BadChunks
                                                             case Undefined => Unknown
                                                             case Whole(body) => Response(code, body)
  {
    hide Block, StatusText, Find, Framed, Atoi, IsLine, CStr, IsStatus, DecimalValue;
    var head, raw := HeadText(status, headers), ResponseText(status, headers, payload);
    var more := Block(headers) + (HEAD_END + payload);
    assert raw == StatusText(status) + more;
    CodeOfResponse(status, more);
    HeadEnds(status, headers, payload);
    HeadIsCString(status, headers);
    assert raw[..|head|] == head && raw[|head| + 4..] == payload;
  }

  lemma HeadIsCString(status: Status, headers: seq<Header>)
    requires IsStatus(status) && forall h :: h in headers ==> IsLine(h)
    ensures CStr(HeadText(status, headers)) == HeadText(status, headers)
  {
    hide CStr, IsLine, Block;
    StatusIsText(status);
    BlockNulFree(headers);
    CStrOfNulFree(HeadText(status, headers));
  }

  /**
   For every head that names the chunked encoding and every well-formed chunked body, the response is
   its status and the chunks' data.
   */
  lemma ChunkedResponse(status: Status, headers: seq<Header>, chunks: seq<Chunk>, zeros: string, extension: string,
                        trailer: string)
    requires IsStatus(status) && (forall h :: h in headers ==> IsLine(h)) && IsChunked(headers)
    requires (forall c :: c in chunks ==> WellFormed(c)) && WellFormedLast(zeros, extension)
    ensures Split(ResponseText(status, headers, Body(chunks, LastText(zeros, extension, trailer))))
         == Response(DecimalValue(status.code), Data(chunks))
  {
    hide Split, Framed, IsChunked, Body, Decode, IsLine, WellFormed;
    var payload := Body(chunks, LastText(zeros, extension, trailer));
    SplitOfResponse(status, headers, payload);
    FramedOfHead(status, headers, payload);
    DecodeOfBody(chunks, zeros, extension, trailer, 0);
  }

  /** Without it, a declared length that fits cuts the payload, and one that does not is ignored. */
  lemma SizedResponse(status: Status, headers: seq<Header>, payload: string)
    requires IsStatus(status) && (forall h :: h in headers ==> IsLine(h)) && !IsChunked(headers)
    requires Declared(headers).Some? || First(headers, CONTENT_LENGTH).None?
    ensures var n := if Declared(headers).Some? then Declared(headers).value else |payload|;
            var body := if n <= |payload| then payload[..n] else payload;
            Split(ResponseText(status, headers, payload)) == Response(DecimalValue(status.code), body)
  {
    hide Split, Framed, IsChunked, Declared, First, IsLine;
    SplitOfResponse(status, headers, payload);
    FramedOfHead(status, headers, payload);
    assert payload[..|payload|] == payload;
  }

  // ---------------------------------------------------------------- what is refused

  /** Chunks without a last one are their data all the same: the source stops where the body does. */
  lemma {:induction false} DecodeWithoutLast(chunks: seq<Chunk>, at: nat)
    requires forall c :: c in chunks ==> WellFormed(c)
    ensures Decode(Body(chunks, ""), at) == Whole(Data(chunks))
    decreases |chunks|
  {
    hide Decode, NextChunk, WellFormed, ChunkText;
    if chunks == [] {
      NothingLeft(at);
    } else {
      var x, rest := Body(chunks, ""), Body(chunks[1..], "");
      assert chunks[0] in chunks;
      ChunkReads(chunks[0], rest, at);
      DecodeSteps(x, at);
      DecodeWithoutLast(chunks[1..], at + |x| - |rest|);
    }
  }

  predicate HoldsNoLineEnd(x: string) { forall i :: 0 <= i < |x| - 1 ==> !(x[i] == '\r' && x[i + 1] == '\n') }

  /** A body cut off in a size line, or in a chunk's data, behind any number of whole chunks. */
  predicate CutOff(x: string, size: string, extension: string, data: string) {
    || (x != "" && HoldsNoLineEnd(x))
    || (&& size != "" && AllHex(size) && IsExtension(extension) && HexRun(size, 0) > |data|
        && x == (size + extension) + (CRLF + data))
  }

  lemma {:induction false} NoLineEndFound(x: string)
    requires HoldsNoLineEnd(x)
    ensures Find(x, CRLF) == |x|
    decreases |x|
  {
    if x != "" {
      var crlf := CRLF;
      assert crlf[0] == '\r' && crlf[1] == '\n';
      assert !(CRLF <= x);
      NoLineEndFound(x[1..]);
    }
  }

  lemma CutOffFails(x: string, size: string, extension: string, data: string, at: nat)
    requires CutOff(x, size, extension, data)
    ensures Decode(x, at) == Failed
  {
    hide Find, ChunkSize, HexRun, IsExtension, AllHex;
    if HoldsNoLineEnd(x) && x != "" {
      NoLineEndFound(x);
    } else {
      var line, tail := size + extension, extension + (CRLF + data);
      assert x == size + tail;
      SizeLineHasNoEnd(size, extension);
      FindAfterLine(line, data);
      TailStarts(extension, data);
      SizeReads(size, tail);
      assert x[|line| + 2..] == data;
    }
  }

  /** A body that is cut off is refused. */
  lemma {:induction false} CutOffBodyFails(chunks: seq<Chunk>, x: string, size: string, extension: string,
                                          data: string, at: nat)
    requires (forall c :: c in chunks ==> WellFormed(c)) && CutOff(x, size, extension, data)
    ensures Decode(Body(chunks, x), at) == Failed
    decreases |chunks|
  {
    hide Decode, NextChunk, WellFormed, ChunkText, CutOff;
    if chunks == [] {
      CutOffFails(x, size, extension, data, at);
    } else {
      var whole, rest := Body(chunks, x), Body(chunks[1..], x);
      assert chunks[0] in chunks;
      ChunkReads(chunks[0], rest, at);
      DecodeSteps(whole, at);
      CutOffBodyFails(chunks[1..], x, size, extension, data, at + |whole| - |rest|);
    }
  }

  /** Two line ends in a row start here. */
  predicate EndsHead(x: string, i: nat)
    requires i + 4 <= |x|
  {
    x[i] == '\r' && x[i + 1] == '\n' && x[i + 2] == '\r' && x[i + 3] == '\n'
  }

  predicate HoldsNoHeadEnd(x: string) { forall i :: 0 <= i <= |x| - 4 ==> !EndsHead(x, i) }

  lemma {:induction false} NoHeadEndFound(x: string)
    requires HoldsNoHeadEnd(x)
    ensures Find(x, HEAD_END) == |x|
    decreases |x|
  {
    if x != "" {
      var end := HEAD_END;
      assert end[0] == '\r' && end[1] == '\n' && end[2] == '\r' && end[3] == '\n';
      assert !(HEAD_END <= x) by {
        if |x| >= 4 {
          assert !EndsHead(x, 0);
        }
      }
      forall i | 0 <= i <= |x[1..]| - 4
        ensures !EndsHead(x[1..], i)
      {
        assert !EndsHead(x, i + 1);
      }
      NoHeadEndFound(x[1..]);
    }
  }

  /** No status line, or no end of the head anywhere, is no response. */
  lemma MalformedResponses(raw: string)
    ensures |raw| < 12 || raw[..7] != "HTTP/1." ==> Split(raw) == BadResponse
    ensures |raw| >= 12 && raw[..7] == "HTTP/1." && HoldsNoHeadEnd(raw) ==> Split(raw) == BadHeaders
  {
    hide Find, Framed, Atoi, CStr, HoldsNoHeadEnd;
    if HoldsNoHeadEnd(raw) {
      NoHeadEndFound(raw);
    }
  }

  // ---------------------------------------------------------------- what the socket gives

  function Pieces(texts: seq<string>): seq<Option<string>> {
    if texts == [] then [] else [Some(texts[0])] + Pieces(texts[1..])
  }

  function Joined(texts: seq<string>): string {
    if texts == [] then "" else texts[0] + Joined(texts[1..])
  }

  /** Everything up to the end of the stream is received. */
  lemma {:induction false} AllIsReceived(texts: seq<string>, rest: seq<Option<string>>)
    requires forall t :: t in texts ==> t != ""
    ensures Received(Pieces(texts) + ([Some("")] + rest)) == Whole(Joined(texts))
    decreases |texts|
  {
    hide Received, InFront;
    var all := Pieces(texts) + ([Some("")] + rest);
    ReceivedStep(all);
    if texts != [] {
      assert texts[0] in texts && forall t :: t in texts[1..] ==> t in texts;
      assert all[1..] == Pieces(texts[1..]) + ([Some("")] + rest);
      AllIsReceived(texts[1..], rest);
      InFrontIs(texts[0], Joined(texts[1..]));
    }
  }

  /** An error before the end of the stream loses all of it. */
  lemma {:induction false} ErrorLosesAll(texts: seq<string>, rest: seq<Option<string>>)
    requires forall t :: t in texts ==> t != ""
    ensures Received(Pieces(texts) + ([None] + rest)) == Failed
    decreases |texts|
  {
    hide Received, InFront;
    var all := Pieces(texts) + ([None] + rest);
    ReceivedStep(all);
    if texts != [] {
      assert texts[0] in texts && forall t :: t in texts[1..] ==> t in texts;
      assert all[1..] == Pieces(texts[1..]) + ([None] + rest);
      ErrorLosesAll(texts[1..], rest);
      InFrontIs(texts[0], "");
    }
  }
}
