/** The parser of src/json.c: a cursor and a depth, advanced in place. */
module JsonParser {
  import opened CText
  import opened Json
  import StringBuffer

  /** A text read so far, in front of what the rest of the body gives. */
  function Prepended(read: string, r: Parsed<string>): Parsed<string> {
    if r.Parsed? then Parsed(read + r.value, r.next) else Fail
  }

  function WithElements(read: seq<Json>, r: Parsed<seq<Json>>): Parsed<seq<Json>> {
    if r.Parsed? then Parsed(read + r.value, r.next) else Fail
  }

  function WithMembers(read: seq<Member>, r: Parsed<seq<Member>>): Parsed<seq<Member>> {
    if r.Parsed? then Parsed(read + r.value, r.next) else Fail
  }

  class Parser {
    const input: string
    var cur: nat
    var depth: nat

    ghost predicate Valid()
      reads this
    {
      cur <= |input| && depth <= MAX_DEPTH
    }

    /** A method's answer is the specification's: the same value, the cursor after it, or a failure. */
    ghost predicate Agrees<T>(r: Option<T>, spec: Parsed<T>)
      reads this
    {
      match spec
      case Fail => r == None
      case Parsed(value, next) => r == Some(value) && cur == next
    }

    constructor (input: string)
      ensures this.input == input && cur == 0 && depth == 0 && Valid()
    {
      this.input := input;
      cur := 0;
      depth := 0;
    }

    /** skip_ws. */
    method Blanks()
      requires Valid()
      modifies this`cur
      ensures cur == SkipWs(input, old(cur))
    {
      while cur < |input| && (input[cur] == ' ' || input[cur] == '\t' || input[cur] == '\n' || input[cur] == '\r')
        invariant old(cur) <= cur <= |input| && SkipWs(input, cur) == SkipWs(input, old(cur))
        decreases |input| - cur
      {
        cur := cur + 1;
      }
    }

    /** parse_hex4. */
    method ParseHex4() returns (r: Option<nat>)
      requires Valid()
      modifies this`cur
      ensures Agrees(r, Hex4(input, old(cur))) && cur <= |input|
    {
      if |input| - cur < 4 {
        return None;
      }
      var value := 0;
      for i := 0 to 4
        invariant cur == old(cur) && cur + 4 <= |input|
        invariant i >= 1 ==> HexDigit(input[cur]) < 16
        invariant i >= 2 ==> HexDigit(input[cur + 1]) < 16
        invariant i >= 3 ==> HexDigit(input[cur + 2]) < 16
        invariant i >= 4 ==> HexDigit(input[cur + 3]) < 16
        invariant i == 0 ==> value == 0
        invariant i == 1 ==> value == HexDigit(input[cur])
        invariant i == 2 ==> value == HexDigit(input[cur]) * 16 + HexDigit(input[cur + 1])
        invariant i == 3 ==>
            value == (HexDigit(input[cur]) * 16 + HexDigit(input[cur + 1])) * 16 + HexDigit(input[cur + 2])
        invariant i == 4 ==> Hex4(input, cur) == Parsed(value, cur + 4)
      {
        var digit := HexDigit(input[cur + i]);
        if digit == 16 {
          return None;
        }
        value := value * 16 + digit;
      }
      cur := cur + 4;
      return Some(value);
    }

    /** The `\u` case of parse_string_body, the cursor standing after the `u`. */
    method ParseUnicode() returns (r: Option<nat>)
      requires Valid() && cur >= 2 && input[cur - 2] == '\\' && input[cur - 1] == 'u'
      modifies this`cur
      ensures cur <= |input|
      ensures match StringUnit(input, old(cur) - 2)
              case Fail => r.None?
              case Parsed(unit, next) => r.Some? && r.value < 0x20_0000 && unit == Utf8(r.value) && cur == next
    {
      var code := ParseHex4();
      if code.None? {
        return None;
      }
      var cp := code.value;
      if cp >= 0xD800 && cp <= 0xDBFF && |input| - cur >= 6 && input[cur] == '\\' && input[cur + 1] == 'u' {
        cur := cur + 2;
        var low := ParseHex4();
        if low.None? {
          return None;
        }
        cp := 0x1_0000 + (cp - 0xD800) * 0x400 + low.value - 0xDC00;
      }
      return Some(cp);
    }

    /** One character or escape of a string body, as parse_string_body appends it. */
    method ParseUnit() returns (r: Option<string>)
      requires Valid() && cur < |input| && input[cur] != '"'
      modifies this`cur
      ensures Agrees(r, StringUnit(input, old(cur))) && cur <= |input|
    {
      if input[cur] != '\\' {
        cur := cur + 1;
        return Some([input[cur - 1]]);
      }
      cur := cur + 1;
      if cur >= |input| {
        return None;
      }
      var esc := input[cur];
      cur := cur + 1;
      if esc == 'u' {
        var code := ParseUnicode();
        return if code.None? then None else Some(Utf8(code.value));
      }
      return if ShortEscape(esc) == NUL then None else Some([ShortEscape(esc)]);
    }

    /** parse_string_body. */
    method ParseStringBody() returns (r: Option<string>)
      requires Valid()
      modifies this`cur
      ensures Agrees(r, StringBody(input, old(cur))) && cur <= |input|
    {
      hide StringUnit, Hex4, Utf8;
      ghost var start := cur;
      var buf := new StringBuffer.StrBuf();
      NothingRead(StringBody(input, cur));
      while cur < |input| && input[cur] != '"'
        invariant start <= cur <= |input|
        invariant buf.Valid() && fresh(buf.Repr())
        invariant StringBody(input, start) == Prepended(buf.Contents(), StringBody(input, cur))
        decreases |input| - cur
      {
        ghost var at, read := cur, buf.Contents();
        var unit := ParseUnit();
        if unit.None? {
          return None;
        }
        buf.Append(unit.value);
        UnitRead(input, at, cur, read, unit.value);
      }
      if cur >= |input| {
        return None;
      }
      cur := cur + 1;
      var text := buf.Text();
      assert text + [] == text;
      return Some(text);
    }

    /** parse_number. */
    method ParseNumber() returns (r: Option<Json>)
      requires Valid()
      modifies this`cur
      ensures var e := NumberEnd(input, old(cur));
              Agrees(r, if e == old(cur) then Fail else Parsed(Number(input[old(cur)..e]), e)) && cur <= |input|
    {
      var start := cur;
      if cur < |input| && input[cur] == '-' {
        cur := cur + 1;
      }
      while cur < |input| && IsNumberChar(input[cur])
        invariant start <= cur <= |input| && NumberEnd(input, cur) == NumberEnd(input, start)
        decreases |input| - cur
      {
        cur := cur + 1;
      }
      if cur == start {
        return None;
      }
      return Some(Number(input[start..cur]));
    }

    /** parse_literal. */
    method ParseLiteral(word: string, value: Json) returns (r: Option<Json>)
      requires Valid()
      modifies this`cur
      ensures Agrees(r, Word(input, old(cur), word, value)) && cur <= |input|
    {
      if |input| - cur < |word| || input[cur..cur + |word|] != word {
        return None;
      }
      cur := cur + |word|;
      return Some(value);
    }

    /** parse_array, the cursor standing on the bracket. */
    method ParseArray() returns (r: Option<Json>)
      requires Valid() && cur < |input| && input[cur] == '[' && depth > 0
      modifies this
      ensures Valid() && depth == old(depth)
      ensures Agrees(r, Value(input, old(cur), old(depth) - 1))
      decreases |input| - cur, 0
    {
      hide Value, Elements, SkipWs;
      ghost var start := cur;
      ArrayValue(input, cur, depth - 1);
      cur := cur + 1;
      Blanks();
      if cur < |input| && input[cur] == ']' {
        cur := cur + 1;
        return Some(Array([]));
      }
      ghost var first := cur;
      var children: seq<Json> := [];
      NoElements(Elements(input, cur, depth));
      while true
        invariant Valid() && depth == old(depth) && start < cur
        invariant Elements(input, first, depth) == WithElements(children, Elements(input, cur, depth))
        decreases |input| - cur
      {
        ghost var at, read := cur, children;
        ElementsStep(input, at, depth);
        var child := ParseValue();
        if child.None? {
          return None;
        }
        children := children + [child.value];
        Blanks();
        if cur < |input| && input[cur] == ',' {
          cur := cur + 1;
          ElementRead(input, at, depth, read);
          continue;
        }
        if cur < |input| && input[cur] == ']' {
          cur := cur + 1;
          return Some(Array(children));
        }
        return None;
      }
    }

    /** parse_object, the cursor standing on the brace. */
    method ParseObject() returns (r: Option<Json>)
      requires Valid() && cur < |input| && input[cur] == '{' && depth > 0
      modifies this
      ensures Valid() && depth == old(depth)
      ensures Agrees(r, Value(input, old(cur), old(depth) - 1))
      decreases |input| - cur, 0
    {
      hide Value, Members, SkipWs, Key;
      ghost var start := cur;
      ObjectValue(input, cur, depth - 1);
      cur := cur + 1;
      Blanks();
      if cur < |input| && input[cur] == '}' {
        cur := cur + 1;
        return Some(Object([]));
      }
      ghost var first := cur;
      var members: seq<Member> := [];
      NoMembers(Members(input, cur, depth));
      while true
        invariant Valid() && depth == old(depth) && start < cur
        invariant Members(input, first, depth) == WithMembers(members, Members(input, cur, depth))
        decreases |input| - cur
      {
        ghost var at, read := cur, members;
        MembersStep(input, at, depth);
        var key := ParseKey();
        if key.None? {
          return None;
        }
        var child := ParseValue();
        if child.None? {
          return None;
        }
        members := members + [Member(key.value, child.value)];
        Blanks();
        if cur < |input| && input[cur] == ',' {
          cur := cur + 1;
          MemberRead(input, at, depth, read);
          continue;
        }
        if cur < |input| && input[cur] == '}' {
          cur := cur + 1;
          return Some(Object(members));
        }
        return None;
      }
    }

    /** A key and its colon. */
    method ParseKey() returns (r: Option<string>)
      requires Valid()
      modifies this`cur
      ensures Agrees(r, Key(input, old(cur))) && cur <= |input|
    {
      Blanks();
      if cur >= |input| || input[cur] != '"' {
        return None;
      }
      cur := cur + 1;
      var key := ParseStringBody();
      if key.None? {
        return None;
      }
      Blanks();
      if cur >= |input| || input[cur] != ':' {
        return None;
      }
      cur := cur + 1;
      return key;
    }

    /** parse_value. */
    method ParseValue() returns (r: Option<Json>)
      requires Valid()
      modifies this
      ensures Valid() && depth == old(depth)
      ensures Agrees(r, Value(input, old(cur), old(depth)))
      decreases |input| - cur, 1
    {
      Blanks();
      if cur >= |input| {
        return None;
      }
      var c := input[cur];
      if c == '{' || c == '[' {
        if depth >= MAX_DEPTH {
          return None;
        }
        depth := depth + 1;
        if c == '{' {
          r := ParseObject();
        } else {
          r := ParseArray();
        }
        depth := depth - 1;
      } else if c == '"' {
        cur := cur + 1;
        var text := ParseStringBody();
        r := if text.Some? then Some(String(text.value)) else None;
      } else if c == 't' {
        r := ParseLiteral("true", Bool(true));
      } else if c == 'f' {
        r := ParseLiteral("false", Bool(false));
      } else if c == 'n' {
        r := ParseLiteral("null", Null);
      } else {
        r := ParseNumber();
      }
    }
  }

  lemma NothingRead(r: Parsed<string>)
    ensures Prepended([], r) == r
  {
    assert r.Parsed? ==> [] + r.value == r.value;
  }

  lemma NoElements(r: Parsed<seq<Json>>)
    ensures WithElements([], r) == r
  {
    assert r.Parsed? ==> [] + r.value == r.value;
  }

  lemma NoMembers(r: Parsed<seq<Member>>)
    ensures WithMembers([], r) == r
  {
    assert r.Parsed? ==> [] + r.value == r.value;
  }

  lemma UnitRead(s: string, at: nat, next: nat, read: string, unit: string)
    requires at < |s| && s[at] != '"' && StringUnit(s, at) == Parsed(unit, next)
    ensures Prepended(read, StringBody(s, at)) == Prepended(read + unit, StringBody(s, next))
  {
    hide StringUnit;
    var rest := StringBody(s, next);
    if rest.Parsed? {
      assert read + (unit + rest.value) == (read + unit) + rest.value;
    }
  }

  lemma ArrayValue(s: string, c: nat, d: nat)
    requires c < |s| && s[c] == '[' && d < MAX_DEPTH
    ensures var w := SkipWs(s, c + 1);
            Value(s, c, d) == if w < |s| && s[w] == ']' then Parsed(Array([]), w + 1)
                              else match Elements(s, w, d + 1)
                                   case Fail => Fail
                                   case Parsed(children, n) => Parsed(Array(children), n)
  {
    hide Elements;
    assert SkipWs(s, c) == c;
  }

  lemma ObjectValue(s: string, c: nat, d: nat)
    requires c < |s| && s[c] == '{' && d < MAX_DEPTH
    ensures var w := SkipWs(s, c + 1);
            Value(s, c, d) == if w < |s| && s[w] == '}' then Parsed(Object([]), w + 1)
                              else match Members(s, w, d + 1)
                                   case Fail => Fail
                                   case Parsed(members, n) => Parsed(Object(members), n)
  {
    hide Members;
    assert SkipWs(s, c) == c;
  }

  /** What an element decides about the rest of its array. */
  lemma ElementsStep(s: string, at: nat, d: nat)
    requires at <= |s|
    ensures var v := Value(s, at, d);
            if v.Fail? then Elements(s, at, d) == Fail
            else
              var w := SkipWs(s, v.next);
              if w < |s| && s[w] == ',' then true
              else if w < |s| && s[w] == ']' then Elements(s, at, d) == Parsed([v.value], w + 1)
              else Elements(s, at, d) == Fail
  {
    hide Value, SkipWs;
  }

  /** What a member decides about the rest of its object. */
  lemma MembersStep(s: string, at: nat, d: nat)
    requires at <= |s|
    ensures var k := Key(s, at);
            if k.Fail? then Members(s, at, d) == Fail
            else
              var v := Value(s, k.next, d);
              if v.Fail? then Members(s, at, d) == Fail
              else
                var w := SkipWs(s, v.next);
                if w < |s| && s[w] == ',' then true
                else if w < |s| && s[w] == '}' then Members(s, at, d) == Parsed([Member(k.value, v.value)], w + 1)
                else Members(s, at, d) == Fail
  {
    hide Value, SkipWs, Key;
  }

  lemma ElementRead(s: string, at: nat, d: nat, read: seq<Json>)
    requires at <= |s| && Value(s, at, d).Parsed?
    requires var w := SkipWs(s, Value(s, at, d).next); w < |s| && s[w] == ','
    ensures var v := Value(s, at, d);
            var w := SkipWs(s, v.next);
            WithElements(read, Elements(s, at, d)) == WithElements(read + [v.value], Elements(s, w + 1, d))
  {
    hide Value, SkipWs;
    var v := Value(s, at, d);
    var rest := Elements(s, SkipWs(s, v.next) + 1, d);
    if rest.Parsed? {
      assert read + ([v.value] + rest.value) == (read + [v.value]) + rest.value;
    }
  }

  lemma MemberRead(s: string, at: nat, d: nat, read: seq<Member>)
    requires at <= |s| && Key(s, at).Parsed? && Value(s, Key(s, at).next, d).Parsed?
    requires var w := SkipWs(s, Value(s, Key(s, at).next, d).next); w < |s| && s[w] == ','
    ensures var k := Key(s, at);
            var v := Value(s, k.next, d);
            var m := Member(k.value, v.value);
            WithMembers(read, Members(s, at, d)) == WithMembers(read + [m], Members(s, SkipWs(s, v.next) + 1, d))
  {
    hide Value, SkipWs, Key;
    var k := Key(s, at);
    var v := Value(s, k.next, d);
    var m := Member(k.value, v.value);
    var rest := Members(s, SkipWs(s, v.next) + 1, d);
    if rest.Parsed? {
      assert read + ([m] + rest.value) == (read + [m]) + rest.value;
    }
  }

  /** fl_json_parse. */
  method FlJsonParse(input: string) returns (r: Option<Json>)
    ensures r == Parse(input)
  {
    var p := new Parser(input);
    var root := p.ParseValue();
    if root.None? {
      return None;
    }
    p.Blanks();
    if p.cur != |input| {
      return None;
    }
    return root;
  }

  /** fl_json_get. */
  method FlJsonGet(node: Json, key: string) returns (value: Option<Json>)
    ensures value == Get(node, key)
  {
    hide CStr;
    if !node.Object? {
      return None;
    }
    var members := node.members;
    assert members[0..] == members;
    for i := 0 to |members|
      invariant Find(members, key) == Find(members[i..], key)
    {
      assert members[i..][1..] == members[i + 1..];
      if CStr(members[i].key) == key {
        return Some(members[i].value);
      }
    }
    return None;
  }

  /** fl_json_get_string. */
  method FlJsonGetString(node: Json, key: string) returns (text: Option<string>)
    ensures text == GetString(node, key)
  {
    hide CStr;
    var value := FlJsonGet(node, key);
    return if value.Some? && value.value.String? then Some(CStr(value.value.text)) else None;
  }

  /** fl_json_get_bool. */
  method FlJsonGetBool(node: Json, key: string, fallback: bool) returns (b: bool)
    ensures b == GetBool(node, key, fallback)
  {
    var value := FlJsonGet(node, key);
    return if value.Some? && value.value.Bool? then value.value.value else fallback;
  }
}
