/**
 The JSON codec of src/json.c, and the printer of src/frostlake_sql.c. Numbers keep their lexeme.
 A parsed text is kept whole; where the source reads it as a C string, `CStr` cuts it at its
 first NUL.
 */
module Json {
  import opened CText

  datatype Json =
    | Null
    | Bool(value: bool)
    | Number(lexeme: string)
    | String(text: string)
    | Array(children: seq<Json>)
    | Object(members: seq<Member>)

  datatype Member = Member(key: string, value: Json)

  /** What a parsing step yields: a value and the position after it. */
  datatype Parsed<+T> = Fail | Parsed(value: T, next: nat) {
    predicate IsFailure() { Fail? }
    function PropagateFailure<U>(): Parsed<U> requires Fail? { Fail }
    function Extract(): (T, nat) requires Parsed? { (value, next) }
  }

  const MAX_DEPTH := 64

  // ---------------------------------------------------------------- strings

  function SkipWs(s: string, c: nat): (r: nat)
    requires c <= |s|
    ensures c <= r <= |s|
    decreases |s| - c
  {
    if c < |s| && (s[c] == ' ' || s[c] == '\t' || s[c] == '\n' || s[c] == '\r') then SkipWs(s, c + 1) else c
  }

  /** parse_hex4. */
  function Hex4(s: string, c: nat): (r: Parsed<nat>)
    requires c <= |s|
    ensures r.Parsed? ==> r.value < 0x1_0000 && r.next == c + 4 <= |s|
  {
    if |s| - c < 4 then Fail
    else
      var h1, h2, h3, h4 := HexDigit(s[c]), HexDigit(s[c + 1]), HexDigit(s[c + 2]), HexDigit(s[c + 3]);
      if h1 == 16 || h2 == 16 || h3 == 16 || h4 == 16 then Fail
      else Parsed(((h1 * 16 + h2) * 16 + h3) * 16 + h4, c + 4)
  }

  /** append_utf8. Every code point the parser computes fits four bytes. */
  function Utf8(cp: nat): (r: string)
    requires cp < 0x20_0000
    ensures 1 <= |r| <= 4 && forall i :: 0 <= i < |r| ==> r[i] as int < 256
  {
    if cp < 0x80 then [cp as char]
    else if cp < 0x800 then [(0xC0 + cp / 0x40) as char, (0x80 + cp % 0x40) as char]
    else if cp < 0x1_0000 then
      [(0xE0 + cp / 0x1000) as char, (0x80 + cp / 0x40 % 0x40) as char, (0x80 + cp % 0x40) as char]
    else
      [(0xF0 + cp / 0x4_0000) as char, (0x80 + cp / 0x1000 % 0x40) as char,
       (0x80 + cp / 0x40 % 0x40) as char, (0x80 + cp % 0x40) as char]
  }

  /** The character a one-letter escape stands for, or NUL. */
  function ShortEscape(c: char): char {
    if c == '"' || c == '\\' || c == '/' then c
    else if c == 'b' then 8 as char
    else if c == 'f' then 12 as char
    else if c == 'n' then '\n'
    else if c == 'r' then '\r'
    else if c == 't' then '\t'
    else NUL
  }

  predicate IsHighSurrogate(cp: nat) { 0xD800 <= cp <= 0xDBFF }

  /**
   The code point of a high surrogate and the escape after it. The source's unsigned arithmetic
   never wraps here: the sum is at least 0x2400.
   */
  function Recombined(high: nat, low: nat): (r: nat)
    requires IsHighSurrogate(high) && low < 0x1_0000
    ensures r < 0x20_0000
  {
    0x1_0000 + (high - 0xD800) * 0x400 + low - 0xDC00
  }

  /** One character or escape of a string body. */
  function StringUnit(s: string, c: nat): (r: Parsed<string>)
    requires c < |s|
    ensures r.Parsed? ==> c < r.next <= |s|
  {
    if s[c] != '\\' then Parsed([s[c]], c + 1)
    else if c + 1 == |s| then Fail
    else if s[c + 1] == 'u' then
      var (cp, n) :- Hex4(s, c + 2);
      if IsHighSurrogate(cp) && |s| - n >= 6 && s[n] == '\\' && s[n + 1] == 'u' then
        var (low, m) :- Hex4(s, n + 2);
        Parsed(Utf8(Recombined(cp, low)), m)
      else Parsed(Utf8(cp), n)
    else if ShortEscape(s[c + 1]) == NUL then Fail
    else Parsed([ShortEscape(s[c + 1])], c + 2)
  }

  /** parse_string_body: everything up to the closing quote, decoded. */
  function StringBody(s: string, c: nat): (r: Parsed<string>)
    requires c <= |s|
    ensures r.Parsed? ==> c < r.next <= |s|
    decreases |s| - c
  {
    if c == |s| then Fail
    else if s[c] == '"' then Parsed([], c + 1)
    else
      var (unit, n) :- StringUnit(s, c);
      var (rest, m) :- StringBody(s, n);
      Parsed(unit + rest, m)
  }

  // ---------------------------------------------------------------- values

  predicate IsNumberChar(c: char) {
    IsDigit(c) || c == '.' || c == 'e' || c == 'E' || c == '+' || c == '-'
  }

  function NumberEnd(s: string, c: nat): (r: nat)
    requires c <= |s|
    ensures c <= r <= |s|
    decreases |s| - c
  {
    if c < |s| && IsNumberChar(s[c]) then NumberEnd(s, c + 1) else c
  }

  function Word(s: string, c: nat, word: string, value: Json): (r: Parsed<Json>)
    requires c <= |s|
    ensures r.Parsed? ==> r.next == c + |word| <= |s|
  {
    if At(s, c, word) then Parsed(value, c + |word|) else Fail
  }

  /** parse_value at container depth `d`. */
  function Value(s: string, c: nat, d: nat): (r: Parsed<Json>)
    requires c <= |s|
    ensures r.Parsed? ==> c < r.next <= |s|
    decreases |s| - c, 1
  {
    var v := SkipWs(s, c);
    if v == |s| then Fail
    else if s[v] == '{' || s[v] == '[' then
      if d >= MAX_DEPTH then Fail
      else
        var w := SkipWs(s, v + 1);
        if s[v] == '{' then
          if w < |s| && s[w] == '}' then Parsed(Object([]), w + 1)
          else
            var (members, n) :- Members(s, w, d + 1);
            Parsed(Object(members), n)
        else if w < |s| && s[w] == ']' then Parsed(Array([]), w + 1)
        else
          var (children, n) :- Elements(s, w, d + 1);
          Parsed(Array(children), n)
    else if s[v] == '"' then
      var (text, n) :- StringBody(s, v + 1);
      Parsed(String(text), n)
    else if s[v] == 't' then Word(s, v, "true", Bool(true))
    else if s[v] == 'f' then Word(s, v, "false", Bool(false))
    else if s[v] == 'n' then Word(s, v, "null", Null)
    else
      var e := NumberEnd(s, v);
      if e == v then Fail else Parsed(Number(s[v..e]), e)
  }

  /** The elements of a non-empty array from `c` on, up to and including its bracket. */
  function Elements(s: string, c: nat, d: nat): (r: Parsed<seq<Json>>)
    requires c <= |s|
    ensures r.Parsed? ==> c < r.next <= |s|
    decreases |s| - c, 2
  {
    var (child, n) :- Value(s, c, d);
    var w := SkipWs(s, n);
    if w < |s| && s[w] == ',' then
      var (rest, m) :- Elements(s, w + 1, d);
      Parsed([child] + rest, m)
    else if w < |s| && s[w] == ']' then Parsed([child], w + 1)
    else Fail
  }

  /** A member's key and colon; the position is where its value is looked for. */
  function Key(s: string, c: nat): (r: Parsed<string>)
    requires c <= |s|
    ensures r.Parsed? ==> c < r.next <= |s|
  {
    var q := SkipWs(s, c);
    if q == |s| || s[q] != '"' then Fail
    else
      var (key, n) :- StringBody(s, q + 1);
      var k := SkipWs(s, n);
      if k == |s| || s[k] != ':' then Fail else Parsed(key, k + 1)
  }

  function Members(s: string, c: nat, d: nat): (r: Parsed<seq<Member>>)
    requires c <= |s|
    ensures r.Parsed? ==> c < r.next <= |s|
    decreases |s| - c, 2
  {
    var (key, k) :- Key(s, c);
    var (child, n) :- Value(s, k, d);
    var w := SkipWs(s, n);
    if w < |s| && s[w] == ',' then
      var (rest, m) :- Members(s, w + 1, d);
      Parsed([Member(key, child)] + rest, m)
    else if w < |s| && s[w] == '}' then Parsed([Member(key, child)], w + 1)
    else Fail
  }

  /** fl_json_parse: the whole text is one value. */
  function Parse(s: string): Option<Json> {
    var r := Value(s, 0, 0);
    if r.Parsed? && SkipWs(s, r.next) == |s| then Some(r.value) else None
  }

  // ---------------------------------------------------------------- printing

  const HEX := "0123456789abcdef"

  function ControlEscape(c: char): string
    requires c as int < 0x20
  {
    "\\u00" + [HEX[c as int / 16], HEX[c as int % 16]]
  }

  /** What src/json.c writes for a character of a string. */
  function CodecEscape(c: char): string {
    if c == '"' then "\\\""
    else if c == '\\' then "\\\\"
    else if c as int == 8 then "\\b"
    else if c as int == 12 then "\\f"
    else if c == '\n' then "\\n"
    else if c == '\r' then "\\r"
    else if c == '\t' then "\\t"
    else if c as int < 0x20 then ControlEscape(c)
    else [c]
  }

  /** What src/frostlake_wire.c writes for it: backspace and form feed have no short form there. */
  function WireEscape(c: char): string {
    if c == '"' then "\\\""
    else if c == '\\' then "\\\\"
    else if c == '\n' then "\\n"
    else if c == '\r' then "\\r"
    else if c == '\t' then "\\t"
    else if c as int < 0x20 then ControlEscape(c)
    else [c]
  }

  function CodecEscapes(text: string): string {
    if text == [] then [] else CodecEscape(text[0]) + CodecEscapes(text[1..])
  }

  function WireEscapes(text: string): string {
    if text == [] then [] else WireEscape(text[0]) + WireEscapes(text[1..])
  }

  /** fl_strbuf_append_json_string: the C string `text` as a JSON string. */
  function CodecString(text: string): string { "\"" + (CodecEscapes(CStr(text)) + "\"") }

  /** append_json_string of src/frostlake_wire.c: all of `text`, NULs included. */
  function WireString(text: string): string { "\"" + (WireEscapes(text) + "\"") }

  /** pdo_frostlake_append_json. */
  function Print(node: Json): string
    decreases node, 1
  {
    match node
    case Null => "null"
    case Bool(b) => if b then "true" else "false"
    case Number(lexeme) => CStr(lexeme)
    case String(text) => CodecString(text)
    case Array(children) => "[" + PrintElements(children)
    case Object(members) => "{" + PrintMembers(members)
  }

  /** The elements, a comma between each two, and the closing bracket. */
  function PrintElements(children: seq<Json>): string
    decreases children, 0
  {
    if children == [] then "]"
    else if |children| == 1 then Print(children[0]) + "]"
    else Print(children[0]) + ("," + PrintElements(children[1..]))
  }

  function PrintMember(m: Member): string
    decreases m, 2
  {
    CodecString(m.key) + (":" + Print(m.value))
  }

  function PrintMembers(members: seq<Member>): string
    decreases members, 0
  {
    if members == [] then "}"
    else if |members| == 1 then PrintMember(members[0]) + "}"
    else PrintMember(members[0]) + ("," + PrintMembers(members[1..]))
  }

  // ---------------------------------------------------------------- lookups

  /** fl_json_get: the first member whose key, read as a C string, is `key`. */
  function Get(node: Json, key: string): Option<Json> {
    if node.Object? then Find(node.members, key) else None
  }

  function Find(members: seq<Member>, key: string): Option<Json> {
    if members == [] then None
    else if CStr(members[0].key) == key then Some(members[0].value)
    else Find(members[1..], key)
  }

  /** fl_json_get_string, read as the C string it answers. */
  function GetString(node: Json, key: string): Option<string> {
    match Get(node, key)
    case Some(String(text)) => Some(CStr(text))
    case _ => None
  }

  /** fl_json_get_bool. */
  function GetBool(node: Json, key: string, fallback: bool): bool {
    match Get(node, key)
    case Some(Bool(b)) => b
    case _ => fallback
  }
}
