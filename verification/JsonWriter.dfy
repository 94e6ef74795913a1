/**
 The JSON writers: src/json.c's escaper of C strings, src/frostlake_wire.c's escaper of counted
 strings, and the tree printer of src/frostlake_sql.c, each appending to a growable buffer.
 */
module JsonWriter {
  import opened CText
  import opened Json
  import opened StringBuffer

  lemma {:induction false} WireEscapesConcat(a: string, b: string)
    ensures WireEscapes(a + b) == WireEscapes(a) + WireEscapes(b)
    decreases |a|
  {
    hide WireEscape;
    if a == [] {
      assert a + b == b;
    } else {
      assert (a + b)[1..] == a[1..] + b;
      WireEscapesConcat(a[1..], b);
    }
  }

  lemma {:induction false} CodecEscapesConcat(a: string, b: string)
    ensures CodecEscapes(a + b) == CodecEscapes(a) + CodecEscapes(b)
    decreases |a|
  {
    hide CodecEscape;
    if a == [] {
      assert a + b == b;
    } else {
      assert (a + b)[1..] == a[1..] + b;
      CodecEscapesConcat(a[1..], b);
    }
  }

  /** A character that wire escaping leaves as it is. */
  predicate Plain(c: char) { WireEscape(c) == [c] }

  lemma {:induction false} PlainRun(s: string)
    requires forall i :: 0 <= i < |s| ==> Plain(s[i])
    ensures WireEscapes(s) == s
    decreases |s|
  {
    if s != [] {
      PlainRun(s[1..]);
      assert s == [s[0]] + s[1..];
    }
  }

  lemma OneEscape(c: char)
    ensures WireEscapes([c]) == WireEscape(c) && CodecEscapes([c]) == CodecEscape(c)
  {
    assert [c][1..] == [];
  }

  /** A run of plain characters and the escaped one that ends it. */
  lemma RunFlushed(text: string, run: nat, i: nat)
    requires run <= i < |text| && forall k :: run <= k < i ==> Plain(text[k])
    ensures WireEscapes(text[..i + 1]) == WireEscapes(text[..run]) + (text[run..i] + WireEscape(text[i]))
  {
    hide WireEscape;
    var a, b := text[..run], text[run..i];
    assert text[..i + 1] == (a + b) + [text[i]];
    WireEscapesConcat(a + b, [text[i]]);
    WireEscapesConcat(a, b);
    PlainRun(b);
    OneEscape(text[i]);
  }

  /** Flushes a plain run and the escape that ends it. */
  method AppendRun(buf: StrBuf, run: string, escape: string)
    requires buf.Valid()
    modifies buf.Repr()
    ensures buf.Valid() && fresh(buf.Repr() - old(buf.Repr()))
    ensures buf.Contents() == old(buf.Contents()) + (run + escape)
  {
    hide StrBuf.Valid, StrBuf.Contents, StrBuf.Size, AfterAppend;
    buf.Append(run);
    buf.Append(escape);
  }

  /** append_json_string of src/frostlake_wire.c: plain runs are copied, special characters escaped. */
  method AppendWireString(buf: StrBuf, text: string)
    requires buf.Valid()
    modifies buf.Repr()
    ensures buf.Valid() && fresh(buf.Repr() - old(buf.Repr()))
    ensures buf.Contents() == old(buf.Contents()) + WireString(text)
  {
    hide WireEscape, StrBuf.Valid, StrBuf.Contents, StrBuf.Size, AfterAppend;
    ghost var before := buf.Contents();
    buf.Append("\"");
    ghost var open := buf.Contents();
    var run := 0;
    assert text[..0] == "";
    for i := 0 to |text|
      invariant run <= i
      invariant forall k :: run <= k < i ==> Plain(text[k])
      invariant buf.Valid() && fresh(buf.Repr() - old(buf.Repr()))
      invariant buf.Contents() == open + WireEscapes(text[..run])
    {
      var c := text[i];
      if WireEscape(c) != [c] {
        RunFlushed(text, run, i);
        AppendRun(buf, text[run..i], WireEscape(c));
        run := i + 1;
      }
    }
    assert text == text[..run] + text[run..|text|];
    LastRun(text, text[..run], text[run..|text|]);
    AppendRun(buf, text[run..|text|], "\"");
    assert buf.Contents() == before + WireString(text);
  }

  lemma LastRun(text: string, a: string, b: string)
    requires text == a + b && forall k :: 0 <= k < |b| ==> Plain(b[k])
    ensures WireEscapes(text) == WireEscapes(a) + b
  {
    hide Plain;
    WireEscapesConcat(a, b);
    PlainRun(b);
  }

  /** fl_strbuf_append_json_string: one character at a time, up to the NUL. */
  method AppendCodecString(buf: StrBuf, text: string)
    requires buf.Valid()
    modifies buf.Repr()
    ensures buf.Valid() && fresh(buf.Repr() - old(buf.Repr()))
    ensures buf.Contents() == old(buf.Contents()) + CodecString(text)
  {
    hide CodecEscape, StrBuf.Valid, StrBuf.Contents, StrBuf.Size, AfterAppend;
    ghost var before := buf.Contents();
    ghost var whole := CStr(text);
    buf.Append("\"");
    ghost var open := buf.Contents();
    var c := 0;
    assert whole[..0] == "";
    while c < |text| && text[c] != NUL
      invariant c <= |whole|
      invariant buf.Valid() && fresh(buf.Repr() - old(buf.Repr()))
      invariant buf.Contents() == open + CodecEscapes(whole[..c])
      decreases |text| - c
    {
      assert c < |whole| && text[c] == whole[c];
      CodecStep(whole, c);
      buf.Append(CodecEscape(text[c]));
      c := c + 1;
    }
    assert whole[..c] == whole;
    buf.Append("\"");
    assert buf.Contents() == before + CodecString(text);
  }

  lemma CodecStep(text: string, c: nat)
    requires c < |text|
    ensures CodecEscapes(text[..c + 1]) == CodecEscapes(text[..c]) + CodecEscape(text[c])
  {
    hide CodecEscape;
    assert text[..c + 1] == text[..c] + [text[c]];
    CodecEscapesConcat(text[..c], [text[c]]);
    OneEscape(text[c]);
  }

  // ---------------------------------------------------------------- trees

  /** What is still to be printed once `i` elements are: a comma first, except before the first. */
  function RestElements(children: seq<Json>, i: nat): string
    requires i <= |children|
  {
    if i == |children| then "]" else (if i > 0 then "," else "") + PrintElements(children[i..])
  }

  function RestMembers(members: seq<Member>, i: nat): string
    requires i <= |members|
  {
    if i == |members| then "}" else (if i > 0 then "," else "") + PrintMembers(members[i..])
  }

  lemma ElementPrinted(children: seq<Json>, i: nat)
    requires i < |children|
    ensures RestElements(children, i)
         == ((if i > 0 then "," else "") + Print(children[i])) + RestElements(children, i + 1)
  {
    hide Print;
    assert children[i..][1..] == children[i + 1..] && children[i..][0] == children[i];
  }

  lemma MemberPrinted(members: seq<Member>, i: nat)
    requires i < |members|
    ensures RestMembers(members, i)
         == ((if i > 0 then "," else "") + PrintMember(members[i])) + RestMembers(members, i + 1)
  {
    hide PrintMember;
    assert members[i..][1..] == members[i + 1..] && members[i..][0] == members[i];
  }

  lemma NothingPrinted(children: seq<Json>, members: seq<Member>)
    ensures RestElements(children, 0) == PrintElements(children)
    ensures RestMembers(members, 0) == PrintMembers(members)
  {
    assert children[0..] == children && members[0..] == members;
  }

  lemma AllPrinted(children: seq<Json>, members: seq<Member>)
    ensures RestElements(children, |children|) == "]"
    ensures RestMembers(members, |members|) == "}"
  {}

  lemma Assoc(a: string, b: string, c: string)
    ensures (a + b) + c == a + (b + c)
  {}

  /** pdo_frostlake_append_json. */
  method AppendJson(buf: StrBuf, node: Json)
    requires buf.Valid()
    modifies buf.Repr()
    ensures buf.Valid() && fresh(buf.Repr() - old(buf.Repr()))
    ensures buf.Contents() == old(buf.Contents()) + Print(node)
    decreases node, 1
  {
    hide CodecString, StrBuf.Valid, StrBuf.Contents, AfterAppend, PrintElements, PrintMembers;
    match node {
      case Null => buf.Append("null");
      case Bool(b) => buf.Append(if b then "true" else "false");
      case Number(lexeme) => buf.Append(CStr(lexeme));
      case String(text) => AppendCodecString(buf, text);
      case Array(children) =>
        buf.Append("[");
        AppendElements(buf, children);
      case Object(members) =>
        buf.Append("{");
        AppendMembers(buf, members);
    }
  }

  /** The loop over an array's elements, and its bracket. */
  method AppendElements(buf: StrBuf, children: seq<Json>)
    requires buf.Valid()
    modifies buf.Repr()
    ensures buf.Valid() && fresh(buf.Repr() - old(buf.Repr()))
    ensures buf.Contents() == old(buf.Contents()) + PrintElements(children)
    decreases children, 0
  {
    hide StrBuf.Valid, StrBuf.Contents, StrBuf.Size, AfterAppend, Print, PrintElements, RestElements;
    ghost var before := buf.Contents();
    NothingPrinted(children, []);
    for i := 0 to |children|
      invariant buf.Valid() && fresh(buf.Repr() - old(buf.Repr()))
      invariant buf.Contents() + RestElements(children, i) == before + PrintElements(children)
    {
      ghost var at := buf.Contents();
      ElementPrinted(children, i);
      AppendElement(buf, i > 0, children[i]);
      Assoc(at, (if i > 0 then "," else "") + Print(children[i]), RestElements(children, i + 1));
    }
    AllPrinted(children, []);
    buf.Append("]");
  }

  /** The loop over an object's members, and its brace. */
  method AppendMembers(buf: StrBuf, members: seq<Member>)
    requires buf.Valid()
    modifies buf.Repr()
    ensures buf.Valid() && fresh(buf.Repr() - old(buf.Repr()))
    ensures buf.Contents() == old(buf.Contents()) + PrintMembers(members)
    decreases members, 0
  {
    hide StrBuf.Valid, StrBuf.Contents, StrBuf.Size, AfterAppend, PrintMember, PrintMembers, RestMembers;
    ghost var before := buf.Contents();
    NothingPrinted([], members);
    for i := 0 to |members|
      invariant buf.Valid() && fresh(buf.Repr() - old(buf.Repr()))
      invariant buf.Contents() + RestMembers(members, i) == before + PrintMembers(members)
    {
      ghost var at := buf.Contents();
      MemberPrinted(members, i);
      AppendMember(buf, i > 0, members[i]);
      Assoc(at, (if i > 0 then "," else "") + PrintMember(members[i]), RestMembers(members, i + 1));
    }
    AllPrinted([], members);
    buf.Append("}");
  }

  method AppendElement(buf: StrBuf, comma: bool, child: Json)
    requires buf.Valid()
    modifies buf.Repr()
    ensures buf.Valid() && fresh(buf.Repr() - old(buf.Repr()))
    ensures buf.Contents() == old(buf.Contents()) + ((if comma then "," else "") + Print(child))
    decreases child, 2
  {
    hide StrBuf.Valid, StrBuf.Contents, StrBuf.Size, AfterAppend, Print;
    if comma {
      buf.Append(",");
    }
    AppendJson(buf, child);
  }

  method AppendMember(buf: StrBuf, comma: bool, m: Member)
    requires buf.Valid()
    modifies buf.Repr()
    ensures buf.Valid() && fresh(buf.Repr() - old(buf.Repr()))
    ensures buf.Contents() == old(buf.Contents()) + ((if comma then "," else "") + PrintMember(m))
    decreases m, 2
  {
    hide CodecString, StrBuf.Valid, StrBuf.Contents, StrBuf.Size, AfterAppend, Print;
    ghost var at := buf.Contents();
    if comma {
      buf.Append(",");
    }
    AppendCodecString(buf, m.key);
    buf.Append(":");
    AppendJson(buf, m.value);
    assert buf.Contents() == at + ((if comma then "," else "") + PrintMember(m));
  }
}
