/**
 The request of src/frostlake_wire.c as text: what build_request writes, that it is one whole C
 string, and that parsing it gives back exactly the request.
 */
module RequestText {
  import opened CText
  import opened Json
  import opened JsonProofs
  import JsonWriter
  import opened StringBuffer
  import opened Session

  // ---------------------------------------------------------------- the text

  /** One member of the request object, in the source's own writing. */
  datatype Field =
    | SqlField(sql: string)
    | IdField(id: string)
    | RequireField
    | CountField(count: nat)
    | CommitField(autoCommit: bool)

  function FieldKey(f: Field): string {
    match f
    case SqlField(_) => "sql"
    case IdField(_) => "sessionId"
    case RequireField => "requireSession"
    case CountField(_) => "multiStatementCount"
    case CommitField(_) => "autoCommit"
  }

  function FieldValue(f: Field): Json {
    match f
    case SqlField(sql) => String(sql)
    case IdField(id) => String(id)
    case RequireField => Bool(true)
    case CountField(n) => Number(Decimal(n))
    case CommitField(b) => Bool(b)
  }

  function ValueText(f: Field): string {
    match f
    case SqlField(sql) => WireString(sql)
    case IdField(id) => CodecString(id)
    case RequireField => "true"
    case CountField(n) => Decimal(n)
    case CommitField(b) => if b then "true" else "false"
  }

  function FieldText(f: Field): string { ("\"" + FieldKey(f) + "\":") + ValueText(f) }

  function LaterText(f: Field): string { "," + FieldText(f) }

  /** The fields after the first, and the closing brace. */
  function RestText(fields: seq<Field>): string {
    if fields == [] then "}" else LaterText(fields[0]) + RestText(fields[1..])
  }

  /** Present under exactly the source's conditions. */
  function LaterFields(q: Request): seq<Field> {
    (if q.sessionId.Some? then [IdField(q.sessionId.value)] else [])
    + ((if q.requireSession then [RequireField] else [])
       + ((if q.count.Some? then [CountField(q.count.value)] else []) + [CommitField(q.autoCommit)]))
  }

  function Text(q: Request): string {
    "{" + (FieldText(SqlField(q.sql)) + RestText(LaterFields(q)))
  }

  /** A session id is a C string. */
  predicate Sendable(q: Request) { q.sessionId.Some? ==> NulFree(q.sessionId.value) }

  // ---------------------------------------------------------------- reading it back

  predicate FieldNulFree(f: Field) { f.IdField? ==> NulFree(f.id) }

  /** A counted string is a JSON value wherever it stands, NULs and all. */
  lemma {:induction false} WireStringReads(sql: string, s: string, c: nat, d: nat)
    requires At(s, c, WireString(sql))
    ensures c <= |s| && Value(s, c, d) == Parsed(String(sql), c + |WireString(sql)|)
  {
    hide StringBody, Elements, Members, At;
    AtSplit(s, c, "\"", WireEscapes(sql) + "\"");
    AtIndex(s, c, "\"", 0);
    AtMeans(s, c, WireString(sql));
    WireBody(s, c + 1, sql);
  }

  lemma FieldValueReads(f: Field, s: string, c: nat, d: nat)
    requires FieldNulFree(f) && At(s, c, ValueText(f)) && Stops(s, c + |ValueText(f)|)
    ensures c <= |s| && Value(s, c, d) == Parsed(FieldValue(f), c + |ValueText(f)|)
  {
    hide Value, At, Stops, WireString, CodecString;
    match f {
      case SqlField(sql) => WireStringReads(sql, s, c, d);
      case IdField(id) => ScalarOfPrinted(String(id), s, c, d);
      case RequireField => ScalarOfPrinted(Bool(true), s, c, d);
      case CountField(n) =>
        CStrOfNulFree(Decimal(n));
        ScalarOfPrinted(Number(Decimal(n)), s, c, d);
      case CommitField(b) => ScalarOfPrinted(Bool(b), s, c, d);
    }
  }

  /** A key without characters that need escaping. */
  lemma {:induction false} KeyReads(f: Field, s: string, c: nat)
    requires At(s, c, "\"" + FieldKey(f) + "\":")
    ensures c < |s| && SkipWs(s, c) == c && s[c] == '"'
    ensures Key(s, c) == Parsed(FieldKey(f), c + |FieldKey(f)| + 3)
  {
    hide At, StringBody, FieldKey, WireEscapes;
    var key := FieldKey(f);
    assert "\"" + key + "\":" == "\"" + ((key + "\"") + ":");
    AtSplit(s, c, "\"", (key + "\"") + ":");
    AtSplit(s, c + 1, key + "\"", ":");
    AtIndex(s, c, "\"", 0);
    AtIndex(s, c + |key| + 2, ":", 0);
    PlainKey(f);
    WireBody(s, c + 1, key);
  }

  lemma PlainKey(f: Field)
    ensures WireEscapes(FieldKey(f)) == FieldKey(f)
  {
    hide WireEscapes, WireEscape;
    LettersArePlain();
    KeyIsLetters(f);
    JsonWriter.PlainRun(FieldKey(f));
  }

  lemma LettersArePlain()
    ensures forall c: char :: IsAlpha(c) ==> JsonWriter.Plain(c)
  {}

  lemma KeyIsLetters(f: Field)
    ensures forall i :: 0 <= i < |FieldKey(f)| ==> IsAlpha(FieldKey(f)[i])
  {}

  lemma {:induction false} FieldsRead(first: Field, rest: seq<Field>, s: string, c: nat, d: nat)
    requires FieldNulFree(first) && forall f :: f in rest ==> FieldNulFree(f)
    requires At(s, c, FieldText(first) + RestText(rest))
    ensures c < |s| && SkipWs(s, c) == c && s[c] == '"'
    ensures Members(s, c, d) == Parsed([AsMember(first)] + AsMembers(rest), c + |FieldText(first) + RestText(rest)|)
    decreases |rest|
  {
    hide At, Value, SkipWs, Stops, Key, Members, FieldKey, ValueText, FieldValue, FieldNulFree;
    var head := "\"" + FieldKey(first) + "\":";
    var k := c + |head|;
    var n := k + |ValueText(first)|;
    AtSplit(s, c, FieldText(first), RestText(rest));
    AtSplit(s, c, head, ValueText(first));
    KeyReads(first, s, c);
    if rest == [] {
      Bracket(s, n, "}");
      assert AsMembers(rest) == [] && [AsMember(first)] + [] == [AsMember(first)];
    } else {
      AtSplit(s, n, "," + FieldText(rest[0]), RestText(rest[1..]));
      AtSplit(s, n, ",", FieldText(rest[0]));
      Bracket(s, n, ",");
      AtJoin(s, n + 1, FieldText(rest[0]), RestText(rest[1..]));
      FieldsRead(rest[0], rest[1..], s, n + 1, d);
    }
    FieldValueReads(first, s, k, d);
    MemberReads(s, c, d);
  }

  /** A member, and after a comma the others. */
  lemma MemberReads(s: string, c: nat, d: nat)
    requires c <= |s| && Key(s, c).Parsed? && Value(s, Key(s, c).next, d).Parsed?
    ensures var k := Key(s, c);
            var v := Value(s, k.next, d);
            var w := SkipWs(s, v.next);
            var m := Member(k.value, v.value);
            && (w < |s| && s[w] == '}' ==> Members(s, c, d) == Parsed([m], w + 1))
            && (w < |s| && s[w] == ',' && Members(s, w + 1, d).Parsed? ==>
                  Members(s, c, d) == Parsed([m] + Members(s, w + 1, d).value, Members(s, w + 1, d).next))
  {
    hide Value, Key, SkipWs;
  }

  lemma AtJoin(s: string, c: nat, x: string, y: string)
    requires At(s, c, x) && At(s, c + |x|, y)
    ensures At(s, c, x + y)
  {
    AtSplit(s, c, x, y);
  }

  function AsMember(f: Field): Member { Member(FieldKey(f), FieldValue(f)) }

  function AsMembers(fields: seq<Field>): seq<Member> {
    if fields == [] then [] else [AsMember(fields[0])] + AsMembers(fields[1..])
  }

  /** Parsing the request gives an object of exactly the request's fields, the SQL's bytes among them. */
  lemma ParseOfText(q: Request)
    requires Sendable(q)
    ensures Parse(Text(q)) == Some(Object([AsMember(SqlField(q.sql))] + AsMembers(LaterFields(q))))
  {
    hide Members, RestText, FieldText, AsMembers, AsMember;
    var s := Text(q);
    var body := FieldText(SqlField(q.sql)) + RestText(LaterFields(q));
    assert s[0..|s|] == s == "{" + body;
    AtSplit(s, 0, "{", body);
    Bracket(s, 0, "{");
    FieldsRead(SqlField(q.sql), LaterFields(q), s, 1, 1);
  }

  // ---------------------------------------------------------------- the engine's side

  /** A request read back from its text by the codec's own lookups. */
  function ReadBack(tree: Json): Option<Request> {
    match Get(tree, "sql")
    case Some(String(sql)) =>
      Some(Request(
        sql, GetString(tree, "sessionId"), GetBool(tree, "requireSession", false),
        match Get(tree, "multiStatementCount")
        case Some(Number(lexeme)) =>
          if forall i :: 0 <= i < |lexeme| ==> IsDigit(lexeme[i]) then Some(DecimalValue(lexeme)) else None
        case _ => None,
        GetBool(tree, "autoCommit", true)))
    case _ => None
  }

  lemma KeyIsCString(f: Field)
    ensures CStr(FieldKey(f)) == FieldKey(f)
  {
    hide CStr;
    CStrOfNulFree(FieldKey(f));
  }

  function FindField(fields: seq<Field>, key: string): Option<Json> {
    if fields == [] then None
    else if FieldKey(fields[0]) == key then Some(FieldValue(fields[0]))
    else FindField(fields[1..], key)
  }

  lemma {:induction false} FindIsFindField(fields: seq<Field>, key: string)
    ensures Find(AsMembers(fields), key) == FindField(fields, key)
    decreases |fields|
  {
    hide FieldKey, FieldValue;
    if fields != [] {
      KeyIsCString(fields[0]);
      assert AsMembers(fields)[1..] == AsMembers(fields[1..]);
      FindIsFindField(fields[1..], key);
    }
  }

  /** The round trip: the engine reads exactly the request that was built. */
  lemma RequestRoundTrip(q: Request)
    requires Sendable(q)
    ensures Parse(Text(q)).Some? && ReadBack(Parse(Text(q)).value) == Some(q)
  {
    hide Parse, Text, FindField, LaterFields, Decimal, DecimalValue, FieldKey, FieldValue;
    var all := [SqlField(q.sql)] + LaterFields(q);
    ParseOfText(q);
    var tree := Parse(Text(q)).value;
    assert all[1..] == LaterFields(q);
    assert tree == Object(AsMembers(all));
    FindIsFindField(all, "sql");
    FindIsFindField(all, "sessionId");
    FindIsFindField(all, "requireSession");
    FindIsFindField(all, "multiStatementCount");
    FindIsFindField(all, "autoCommit");
    FieldsFound(q);
    if q.sessionId.Some? {
      CStrOfNulFree(q.sessionId.value);
    }
    if q.count.Some? {
      DecimalRoundTrip(q.count.value);
    }
  }

  /** Which field a key finds: each key names one field, present under its own condition. */
  lemma FieldsFound(q: Request)
    ensures var all := [SqlField(q.sql)] + LaterFields(q);
            && FindField(all, "sql") == Some(String(q.sql))
            && FindField(all, "sessionId") == (if q.sessionId.Some? then Some(String(q.sessionId.value)) else None)
            && FindField(all, "requireSession") == (if q.requireSession then Some(Bool(true)) else None)
            && FindField(all, "multiStatementCount")
                 == (if q.count.Some? then Some(Number(Decimal(q.count.value))) else None)
            && FindField(all, "autoCommit") == Some(Bool(q.autoCommit))
  {
    hide FindField;
    FindWhere(q, "sql");
    FindWhere(q, "sessionId");
    FindWhere(q, "requireSession");
    FindWhere(q, "multiStatementCount");
    FindWhere(q, "autoCommit");
  }

  lemma FindWhere(q: Request, key: string)
    ensures FindField([SqlField(q.sql)] + LaterFields(q), key)
         == if |key| == 3 && key == "sql" then Some(String(q.sql))
            else if q.sessionId.Some? && |key| == 9 && key == "sessionId" then Some(String(q.sessionId.value))
            else if q.requireSession && |key| == 14 && key == "requireSession" then Some(Bool(true))
            else if q.count.Some? && |key| == 19 && key == "multiStatementCount" then
              Some(Number(Decimal(q.count.value)))
            else if |key| == 10 && key == "autoCommit" then Some(Bool(q.autoCommit))
            else None
  {
    var a := if q.sessionId.Some? then [IdField(q.sessionId.value)] else [];
    var b := if q.requireSession then [RequireField] else [];
    var c := if q.count.Some? then [CountField(q.count.value)] else [];
    var d := [CommitField(q.autoCommit)];
    FindThrough([SqlField(q.sql)], LaterFields(q), key);
    FindThrough(a, b + (c + d), key);
    FindThrough(b, c + d, key);
    FindThrough(c, d, key);
    FindThrough(d, [], key);
    assert d + [] == d;
  }

  /** At most one field, then the others. */
  lemma FindThrough(x: seq<Field>, rest: seq<Field>, key: string)
    requires |x| <= 1
    ensures FindField(x + rest, key)
         == if x != [] && FieldKey(x[0]) == key then Some(FieldValue(x[0])) else FindField(rest, key)
  {
    if x == [] {
      assert x + rest == rest;
    } else {
      assert (x + rest)[1..] == rest;
    }
  }

  // ---------------------------------------------------------------- one C string

  /** No control character, as section 7 of RFC 8259 demands of a string's text. */
  predicate ControlFree(s: string) { forall i :: 0 <= i < |s| ==> s[i] as int >= 0x20 }

  lemma {:induction false} WireEscapesControlFree(text: string)
    ensures ControlFree(WireEscapes(text))
    decreases |text|
  {
    if text != [] {
      WireEscapesControlFree(text[1..]);
      EscapeControlFree(text[0]);
    }
  }

  lemma EscapeControlFree(c: char)
    ensures ControlFree(WireEscape(c)) && ControlFree(CodecEscape(c))
  {
    if c as int < 0x20 {
      var e := ControlEscape(c);
      assert e == ['\\', 'u', '0', '0', HEX[c as int / 16], HEX[c as int % 16]];
      HexControlFree(c as int / 16);
      HexControlFree(c as int % 16);
    }
  }

  lemma HexControlFree(k: nat)
    requires k < 16
    ensures HEX[k] as int >= 0x20
  {
    HexOfDigit(k);
  }

  lemma {:induction false} CodecEscapesControlFree(text: string)
    ensures ControlFree(CodecEscapes(text))
    decreases |text|
  {
    if text != [] {
      CodecEscapesControlFree(text[1..]);
      EscapeControlFree(text[0]);
    }
  }

  lemma ValueTextControlFree(f: Field)
    requires FieldNulFree(f)
    ensures ControlFree(ValueText(f))
  {
    hide WireEscapes, CodecEscapes;
    match f {
      case SqlField(sql) => WireEscapesControlFree(sql);
      case IdField(id) =>
        CStrOfNulFree(id);
        CodecEscapesControlFree(id);
      case _ =>
    }
  }

  lemma KeyControlFree(f: Field)
    ensures ControlFree("\"" + FieldKey(f) + "\":")
  {}

  lemma FieldTextControlFree(f: Field)
    requires FieldNulFree(f)
    ensures ControlFree(FieldText(f))
  {
    hide FieldKey, ValueText;
    ValueTextControlFree(f);
    KeyControlFree(f);
  }

  lemma {:induction false} RestTextControlFree(fields: seq<Field>)
    requires forall f :: f in fields ==> FieldNulFree(f)
    ensures ControlFree(RestText(fields))
    decreases |fields|
  {
    hide FieldText, FieldNulFree;
    if fields != [] {
      assert fields[0] in fields;
      FieldTextControlFree(fields[0]);
      RestTextControlFree(fields[1..]);
    }
  }

  /**
   The request holds no control character, so it is one C string: `strlen` finds its whole length,
   whatever bytes the SQL holds.
   */
  lemma {:induction false} TextIsOneCString(q: Request)
    requires Sendable(q)
    ensures ControlFree(Text(q)) && CStr(Text(q)) == Text(q)
  {
    FieldTextControlFree(SqlField(q.sql));
    RestTextControlFree(LaterFields(q));
    CStrOfNulFree(Text(q));
  }

  // ---------------------------------------------------------------- build_request

  /** Appends the field the source writes next, if its condition holds. */
  method AppendField(buf: StrBuf, f: Field)
    requires buf.Valid()
    modifies buf.Repr()
    ensures buf.Valid() && fresh(buf.Repr() - old(buf.Repr()))
    ensures buf.Contents() == old(buf.Contents()) + FieldText(f)
  {
    hide StrBuf.Valid, StrBuf.Contents, StrBuf.Size, AfterAppend, FieldKey, WireString, CodecString;
    buf.Append("\"" + FieldKey(f) + "\":");
    match f {
      case SqlField(sql) => JsonWriter.AppendWireString(buf, sql);
      case IdField(id) => JsonWriter.AppendCodecString(buf, id);
      case RequireField => buf.Append("true");
      case CountField(n) => buf.Append(Decimal(n));
      case CommitField(b) => buf.Append(if b then "true" else "false");
    }
  }

  method AppendLaterField(buf: StrBuf, f: Field)
    requires buf.Valid()
    modifies buf.Repr()
    ensures buf.Valid() && fresh(buf.Repr() - old(buf.Repr()))
    ensures buf.Contents() == old(buf.Contents()) + LaterText(f)
  {
    hide StrBuf.Valid, StrBuf.Contents, StrBuf.Size, AfterAppend, FieldText;
    buf.Append(",");
    AppendField(buf, f);
  }

  /** build_request. */
  method BuildRequest(q: Request) returns (text: string)
    ensures text == Text(q)
  {
    hide StrBuf.Valid, StrBuf.Contents, StrBuf.Size, AfterAppend, FieldText, LaterText, Later, LaterFields, RestText,
      Text;
    var buf := new StrBuf();
    buf.Append("{");
    AppendField(buf, SqlField(q.sql));
    ghost var head := "{" + FieldText(SqlField(q.sql));
    ghost var written: seq<Field> := [];
    NoneLater(head);
    assert buf.Contents() == head + Later(written);
    if q.sessionId.Some? {
      AppendLaterField(buf, IdField(q.sessionId.value));
      Written(head, written, IdField(q.sessionId.value));
      written := written + [IdField(q.sessionId.value)];
    }
    ghost var first := written;
    assert buf.Contents() == head + Later(first);
    if q.requireSession {
      AppendLaterField(buf, RequireField);
      Written(head, written, RequireField);
      written := written + [RequireField];
    }
    ghost var second := written;
    assert second == first + (if q.requireSession then [RequireField] else []);
    assert buf.Contents() == head + Later(second);
    if q.count.Some? {
      AppendLaterField(buf, CountField(q.count.value));
      Written(head, written, CountField(q.count.value));
      written := written + [CountField(q.count.value)];
    }
    assert written == second + (if q.count.Some? then [CountField(q.count.value)] else []);
    assert buf.Contents() == head + Later(written);
    AppendLaterField(buf, CommitField(q.autoCommit));
    Written(head, written, CommitField(q.autoCommit));
    written := written + [CommitField(q.autoCommit)];
    buf.Append("}");
    AllWritten(q, written);
    text := buf.Text();
  }

  lemma NoneLater(head: string)
    ensures head + Later([]) == head
  {}

  /** The fields the conditions let through are the request's. */
  lemma AllWritten(q: Request, written: seq<Field>)
    requires written == (((if q.sessionId.Some? then [IdField(q.sessionId.value)] else [])
                          + (if q.requireSession then [RequireField] else []))
                         + (if q.count.Some? then [CountField(q.count.value)] else []))
                        + [CommitField(q.autoCommit)]
    ensures Text(q) == ("{" + FieldText(SqlField(q.sql)) + Later(written)) + "}"
  {
    hide FieldText, LaterText, Later, RestText;
    assert written == LaterFields(q);
    LaterIsRest(written);
  }

  /** The later fields without the closing brace. */
  function Later(fields: seq<Field>): string {
    if fields == [] then "" else LaterText(fields[0]) + Later(fields[1..])
  }

  lemma Written(head: string, fields: seq<Field>, f: Field)
    ensures head + Later(fields + [f]) == (head + Later(fields)) + LaterText(f)
  {
    hide Later, LaterText;
    LaterSnoc(fields, f);
  }

  lemma {:induction false} LaterSnoc(fields: seq<Field>, f: Field)
    ensures Later(fields + [f]) == Later(fields) + LaterText(f)
    decreases |fields|
  {
    hide LaterText;
    if fields == [] {
      assert fields + [f] == [f] && [f][1..] == [];
    } else {
      assert (fields + [f])[1..] == fields[1..] + [f];
      LaterSnoc(fields[1..], f);
    }
  }

  lemma {:induction false} LaterIsRest(fields: seq<Field>)
    ensures RestText(fields) == Later(fields) + "}"
    decreases |fields|
  {
    hide LaterText;
    if fields != [] {
      LaterIsRest(fields[1..]);
    }
  }
}
