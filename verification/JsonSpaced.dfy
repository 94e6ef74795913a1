/**
 Parsing JSON as other programs write it: blanks may stand around every token. A layout is a tree
 with the blanks it is written with; parsing its spelling gives the tree, within the depth bound.
 */
module JsonSpaced {
  import opened CText
  import opened Json
  import opened JsonProofs

  // ---------------------------------------------------------------- layouts

  datatype Layout =
    | Scalar(node: Json)
    | Arr(inner: string, items: seq<Item>)
    | Obj(inner: string, entries: seq<Entry>)

  /** An element and the blanks around it. */
  datatype Item = Item(before: string, value: Layout, after: string)

  /** A member and the blanks before its key, around its colon and behind its value. */
  datatype Entry = Entry(before: string, key: string, beforeColon: string, afterColon: string, value: Layout,
                         after: string)

  /** Spaces, tabs, newlines and carriage returns. */
  predicate AreBlanks(x: string) {
    forall i :: 0 <= i < |x| ==> x[i] == ' ' || x[i] == '\t' || x[i] == '\n' || x[i] == '\r'
  }

  /** Digits, a point, `e`, `E`, plus and minus. */
  predicate IsNumberText(x: string) {
    && x != ""
    && forall i :: 0 <= i < |x| ==>
         '0' <= x[i] <= '9' || x[i] == '.' || x[i] == 'e' || x[i] == 'E' || x[i] == '+' || x[i] == '-'
  }

  predicate WellSpaced(l: Layout)
    decreases l, 1
  {
    match l
    case Scalar(Null) => true
    case Scalar(Bool(_)) => true
    case Scalar(Number(lexeme)) => IsNumberText(lexeme)
    case Scalar(String(text)) => NulFree(text)
    case Scalar(_) => false
    case Arr(inner, items) => AreBlanks(inner) && ItemsSpaced(items)
    case Obj(inner, entries) => AreBlanks(inner) && EntriesSpaced(entries)
  }

  predicate ItemsSpaced(items: seq<Item>)
    decreases items, 0
  {
    items == [] ||
    ( && AreBlanks(items[0].before) && AreBlanks(items[0].after) && WellSpaced(items[0].value)
      && ItemsSpaced(items[1..]))
  }

  predicate EntriesSpaced(entries: seq<Entry>)
    decreases entries, 0
  {
    entries == [] ||
    ( var e := entries[0];
      && AreBlanks(e.before) && AreBlanks(e.beforeColon) && AreBlanks(e.afterColon) && AreBlanks(e.after)
      && NulFree(e.key) && WellSpaced(e.value) && EntriesSpaced(entries[1..]))
  }

  /** The tree that is laid out. */
  function Tree(l: Layout): Json
    decreases l, 1
  {
    match l
    case Scalar(node) => node
    case Arr(_, items) => Array(Children(items))
    case Obj(_, entries) => Object(MembersOf(entries))
  }

  function Children(items: seq<Item>): seq<Json>
    decreases items, 0
  {
    if items == [] then [] else [Tree(items[0].value)] + Children(items[1..])
  }

  function MembersOf(entries: seq<Entry>): seq<Member>
    decreases entries, 0
  {
    if entries == [] then [] else [Member(entries[0].key, Tree(entries[0].value))] + MembersOf(entries[1..])
  }

  /** The layout written out. */
  function Spell(l: Layout): string
    decreases l, 1
  {
    match l
    case Scalar(Null) => "null"
    case Scalar(Bool(b)) => if b then "true" else "false"
    case Scalar(Number(lexeme)) => lexeme
    case Scalar(String(text)) => CodecString(text)
    case Scalar(_) => ""
    case Arr(inner, items) => "[" + (if items == [] then inner + "]" else SpellItems(items))
    case Obj(inner, entries) => "{" + (if entries == [] then inner + "}" else SpellEntries(entries))
  }

  function SpellItem(i: Item): string
    decreases i, 2
  {
    i.before + (Spell(i.value) + i.after)
  }

  function SpellItems(items: seq<Item>): string
    decreases items, 0
  {
    if items == [] then ""
    else SpellItem(items[0]) + (if |items| == 1 then "]" else "," + SpellItems(items[1..]))
  }

  function SpellEntry(e: Entry): string
    decreases e, 2
  {
    e.before + (CodecString(e.key) + (e.beforeColon + (":" + (e.afterColon + (Spell(e.value) + e.after)))))
  }

  function SpellEntries(entries: seq<Entry>): string
    decreases entries, 0
  {
    if entries == [] then ""
    else SpellEntry(entries[0]) + (if |entries| == 1 then "}" else "," + SpellEntries(entries[1..]))
  }

  // ---------------------------------------------------------------- blanks are passed over

  lemma {:induction false} BlanksPassed(s: string, c: nat, blanks: string)
    requires AreBlanks(blanks) && At(s, c, blanks)
    ensures c + |blanks| <= |s| && SkipWs(s, c) == SkipWs(s, c + |blanks|)
    decreases |blanks|
  {
    if blanks != "" {
      assert blanks == [blanks[0]] + blanks[1..];
      AtSplit(s, c, [blanks[0]], blanks[1..]);
      assert s[c] == s[c..c + 1][0];
      BlanksPassed(s, c + 1, blanks[1..]);
    }
  }

  /** A value is looked for behind the blanks. */
  lemma ValueBehindBlanks(s: string, c: nat, blanks: string, d: nat)
    requires AreBlanks(blanks) && At(s, c, blanks)
    ensures c + |blanks| <= |s| && Value(s, c, d) == Value(s, c + |blanks|, d)
  {
    hide At, AreBlanks, StringBody, Elements, Members, NumberEnd, Word, SkipWs;
    BlanksPassed(s, c, blanks);
  }

  /** A token behind blanks. */
  lemma TokenBehindBlanks(s: string, c: nat, blanks: string, token: string)
    requires AreBlanks(blanks) && At(s, c, blanks) && At(s, c + |blanks|, token)
    requires |token| == 1 && token[0] in "[]{},:\""
    ensures var n := c + |blanks|;
            n < |s| && s[n] == token[0] && SkipWs(s, c) == n && SkipWs(s, n) == n && Stops(s, c)
  {
    BlanksPassed(s, c, blanks);
    AtIndex(s, c + |blanks|, token, 0);
    if blanks != "" {
      AtIndex(s, c, blanks, 0);
    }
  }

  lemma ScalarSpelled(l: Layout, s: string, c: nat, d: nat)
    requires l.Scalar? && WellSpaced(l) && At(s, c, Spell(l)) && Stops(s, c + |Spell(l)|)
    ensures c <= |s| && Value(s, c, d) == Parsed(Tree(l), c + |Spell(l)|) && Depth(Tree(l)) == 0
  {
    hide Value, At, CodecString, Stops;
    assert Printable(l.node) && Print(l.node) == Spell(l) by {
      if l.node.Number? {
        NumberTextIsLexeme(l.node.lexeme);
      }
    }
    ScalarOfPrinted(l.node, s, c, d);
  }

  lemma NumberTextIsLexeme(x: string)
    requires IsNumberText(x)
    ensures IsLexeme(x) && CStr(x) == x
  {
    assert NulFree(x);
    CStrOfNulFree(x);
  }

  // ---------------------------------------------------------------- trees

  /** A spelled value parses to its tree exactly when the tree nests no deeper than is left. */
  lemma {:induction false} ValueSpelled(l: Layout, s: string, c: nat, d: nat)
    requires WellSpaced(l) && At(s, c, Spell(l)) && Stops(s, c + |Spell(l)|) && d <= MAX_DEPTH
    ensures c <= |s|
    ensures Value(s, c, d) == if d + Depth(Tree(l)) <= MAX_DEPTH then Parsed(Tree(l), c + |Spell(l)|) else Fail
    decreases l, 1
  {
    match l {
      case Scalar(_) => ScalarSpelled(l, s, c, d);
      case Arr(inner, items) => ArraySpelled(inner, items, s, c, d);
      case Obj(inner, entries) => ObjectSpelled(inner, entries, s, c, d);
    }
  }

  lemma {:induction false} ArraySpelled(inner: string, items: seq<Item>, s: string, c: nat, d: nat)
    requires AreBlanks(inner) && ItemsSpaced(items) && At(s, c, Spell(Arr(inner, items))) && d <= MAX_DEPTH
    ensures c <= |s|
    ensures var l := Arr(inner, items);
            Value(s, c, d) == if d + Depth(Tree(l)) <= MAX_DEPTH then Parsed(Tree(l), c + |Spell(l)|) else Fail
    decreases items, 1
  {
    hide At, StringBody, Elements, Members, SkipWs, NumberEnd, Word, Stops, AreBlanks, SpellItems;
    var body := if items == [] then inner + "]" else SpellItems(items);
    AtSplit(s, c, "[", body);
    TokenHere(s, c, "[");
    if d < MAX_DEPTH {
      if items == [] {
        AtSplit(s, c + 1, inner, "]");
        TokenBehindBlanks(s, c + 1, inner, "]");
      } else {
        ItemsSpelled(items, s, c + 1, d + 1);
      }
    }
  }

  lemma {:induction false} ObjectSpelled(inner: string, entries: seq<Entry>, s: string, c: nat, d: nat)
    requires AreBlanks(inner) && EntriesSpaced(entries) && At(s, c, Spell(Obj(inner, entries))) && d <= MAX_DEPTH
    ensures c <= |s|
    ensures var l := Obj(inner, entries);
            Value(s, c, d) == if d + Depth(Tree(l)) <= MAX_DEPTH then Parsed(Tree(l), c + |Spell(l)|) else Fail
    decreases entries, 1
  {
    hide At, StringBody, Elements, Members, SkipWs, NumberEnd, Word, Stops, AreBlanks, SpellEntries;
    var body := if entries == [] then inner + "}" else SpellEntries(entries);
    AtSplit(s, c, "{", body);
    TokenHere(s, c, "{");
    if d < MAX_DEPTH {
      if entries == [] {
        AtSplit(s, c + 1, inner, "}");
        TokenBehindBlanks(s, c + 1, inner, "}");
      } else {
        EntriesSpelled(entries, s, c + 1, d + 1);
      }
    }
  }

  lemma TokenHere(s: string, c: nat, token: string)
    requires At(s, c, token) && |token| == 1 && token[0] in "[]{},:\""
    ensures c < |s| && s[c] == token[0] && SkipWs(s, c) == c
  {
    AtIndex(s, c, token, 0);
  }

  /** What a spelled value starts with. */
  lemma SpellStarts(l: Layout, s: string, c: nat)
    requires WellSpaced(l) && At(s, c, Spell(l))
    ensures c < |s| && SkipWs(s, c) == c && s[c] != ']' && s[c] != '}'
  {
    AtIndex(s, c, Spell(l), 0);
  }

  /**
   The elements of a non-empty array, from behind its bracket or from behind a comma. The parser skips
   blanks before it asks whether the array is empty, which changes nothing for the first element.
   */
  lemma {:induction false} ItemsSpelled(items: seq<Item>, s: string, c: nat, d: nat)
    requires items != [] && ItemsSpaced(items) && At(s, c, SpellItems(items)) && d <= MAX_DEPTH
    ensures c <= |s| && SkipWs(s, c) < |s| && s[SkipWs(s, c)] != ']'
    ensures var r := if d + DepthOf(Children(items)) <= MAX_DEPTH then Parsed(Children(items), c + |SpellItems(items)|)
                     else Fail;
            Elements(s, c, d) == r && Elements(s, SkipWs(s, c), d) == r
    decreases items, 0
  {
    hide At, Value, Elements, SkipWs, Stops, Spell, AreBlanks;
    var i, rest := items[0], items[1..];
    var token := if |items| == 1 then "]" else ",";
    var tail := if |items| == 1 then "]" else "," + SpellItems(rest);
    var v := c + |i.before|;
    var a := v + |Spell(i.value)|;
    var n := a + |i.after|;
    ItemInText(i, tail, s, c);
    ElementsBehindBlanks(s, c, i.before, d);
    SpellStarts(i.value, s, v);
    BlanksPassed(s, c, i.before);
    if |items| > 1 {
      AtSplit(s, n, ",", SpellItems(rest));
    }
    TokenBehindBlanks(s, a, i.after, token);
    ValueSpelled(i.value, s, v, d);
    if |items| > 1 {
      ItemsSpelled(rest, s, n + 1, d);
    }
    FirstElement(items, s, c, d);
    ElementsMean(s, c, d);
  }

  lemma ItemInText(i: Item, tail: string, s: string, c: nat)
    requires At(s, c, SpellItem(i) + tail)
    ensures var v := c + |i.before|;
            var a := v + |Spell(i.value)|;
            && At(s, c, i.before) && At(s, v, Spell(i.value)) && At(s, a, i.after) && At(s, a + |i.after|, tail)
  {
    hide At, Spell;
    AtSplit(s, c, SpellItem(i), tail);
    AtSplit(s, c, i.before, Spell(i.value) + i.after);
    AtSplit(s, c + |i.before|, Spell(i.value), i.after);
  }

  lemma ElementsBehindBlanks(s: string, c: nat, blanks: string, d: nat)
    requires AreBlanks(blanks) && At(s, c, blanks)
    ensures c + |blanks| <= |s| && SkipWs(s, c) <= |s|
    ensures Elements(s, c, d) == Elements(s, SkipWs(s, c), d)
    ensures Value(s, c, d) == Value(s, c + |blanks|, d)
  {
    hide At, AreBlanks, Value;
    ValueBehindBlanks(s, c, blanks, d);
    ValueFromToken(s, c, d);
  }

  lemma ValueFromToken(s: string, c: nat, d: nat)
    requires c <= |s|
    ensures Value(s, c, d) == Value(s, SkipWs(s, c), d)
  {
    hide StringBody, Elements, Members, NumberEnd, Word;
    SkipTwice(s, c);
  }

  lemma {:induction false} SkipTwice(s: string, c: nat)
    requires c <= |s|
    ensures SkipWs(s, SkipWs(s, c)) == SkipWs(s, c)
    decreases |s| - c
  {
    if c < |s| && SkipWs(s, c) > c {
      SkipTwice(s, c + 1);
    }
  }

  lemma FirstElement(items: seq<Item>, s: string, c: nat, d: nat)
    requires items != []
    ensures Children(items) == [Tree(items[0].value)] + Children(items[1..])
    ensures DepthOf(Children(items)) == Max(Depth(Tree(items[0].value)), DepthOf(Children(items[1..])))
    ensures |items| == 1 ==> Children(items) == [Tree(items[0].value)] && DepthOf(Children(items[1..])) == 0
    ensures SpellItems(items) == SpellItem(items[0]) + (if |items| == 1 then "]" else "," + SpellItems(items[1..]))
    ensures |SpellItem(items[0])| == |items[0].before| + |Spell(items[0].value)| + |items[0].after|
  {
    assert Children(items)[1..] == Children(items[1..]);
  }

  lemma ElementsMean(s: string, c: nat, d: nat)
    requires c <= |s|
    ensures var v := Value(s, c, d);
            if v.Fail? then Elements(s, c, d) == Fail
            else
              var w := SkipWs(s, v.next);
              if w < |s| && s[w] == ',' then
                var rest := Elements(s, w + 1, d);
                Elements(s, c, d) == (if rest.Fail? then Fail else Parsed([v.value] + rest.value, rest.next))
              else if w < |s| && s[w] == ']' then Elements(s, c, d) == Parsed([v.value], w + 1)
              else Elements(s, c, d) == Fail
  {
    hide Value, SkipWs;
  }

  // ---------------------------------------------------------------- members

  /** Where the parts of a member stand. */
  lemma EntryInText(e: Entry, tail: string, s: string, c: nat)
    requires At(s, c, SpellEntry(e) + tail)
    ensures var q := c + |e.before|;
            var k := q + |CodecString(e.key)|;
            var g := k + |e.beforeColon| + 1;
            var v := g + |e.afterColon|;
            var a := v + |Spell(e.value)|;
            && At(s, c, e.before) && At(s, q, CodecString(e.key)) && At(s, k, e.beforeColon)
            && At(s, k + |e.beforeColon|, ":") && At(s, g, e.afterColon) && At(s, v, Spell(e.value))
            && At(s, a, e.after) && At(s, a + |e.after|, tail) && a + |e.after| == c + |SpellEntry(e)|
  {
    hide At, Spell, CodecString;
    var last := Spell(e.value) + e.after;
    AtSplit(s, c, SpellEntry(e), tail);
    AtSplit(s, c, e.before, CodecString(e.key) + (e.beforeColon + (":" + (e.afterColon + last))));
    var q := c + |e.before|;
    AtSplit(s, q, CodecString(e.key), e.beforeColon + (":" + (e.afterColon + last)));
    var k := q + |CodecString(e.key)|;
    AtSplit(s, k, e.beforeColon, ":" + (e.afterColon + last));
    AtSplit(s, k + |e.beforeColon|, ":", e.afterColon + last);
    var g := k + |e.beforeColon| + 1;
    AtSplit(s, g, e.afterColon, last);
    AtSplit(s, g + |e.afterColon|, Spell(e.value), e.after);
  }

  lemma KeySpelled(key: string, before: string, beforeColon: string, s: string, c: nat)
    requires AreBlanks(before) && AreBlanks(beforeColon) && NulFree(key) && At(s, c, before)
    requires var q := c + |before|;
             var k := q + |CodecString(key)|;
             At(s, q, CodecString(key)) && At(s, k, beforeColon) && At(s, k + |beforeColon|, ":")
    ensures c <= |s| && SkipWs(s, c) == c + |before| < |s| && s[c + |before|] == '"'
    ensures Key(s, c) == Parsed(key, c + |before| + |CodecString(key)| + |beforeColon| + 1)
  {
    hide At, StringBody, CodecEscapes, AreBlanks, SkipWs;
    var q := c + |before|;
    CStrOfNulFree(key);
    AtSplit(s, q, "\"", CodecEscapes(key) + "\"");
    TokenBehindBlanks(s, c, before, "\"");
    CodecBody(s, q + 1, key);
    TokenBehindBlanks(s, q + |CodecString(key)|, beforeColon, ":");
  }

  /** A member up to its value, and the token behind it. */
  lemma EntryRead(e: Entry, token: string, more: string, s: string, c: nat, d: nat)
    requires AreBlanks(e.before) && AreBlanks(e.beforeColon) && AreBlanks(e.afterColon) && AreBlanks(e.after)
    requires NulFree(e.key) && (token == "," || token == "}") && At(s, c, SpellEntry(e) + (token + more))
    ensures c + |SpellEntry(e)| < |s| && |SpellEntry(e)| >= |e.after| + |Spell(e.value)|
    ensures SkipWs(s, c) < |s| && s[SkipWs(s, c)] == '"'
    ensures var n := c + |SpellEntry(e)|;
            var a := n - |e.after|;
            var v := a - |Spell(e.value)|;
            && Key(s, c).Parsed? && Key(s, c).value == e.key && Value(s, Key(s, c).next, d) == Value(s, v, d)
            && At(s, v, Spell(e.value)) && Stops(s, a) && SkipWs(s, a) == n && s[n] == token[0]
            && At(s, n + 1, more)
  {
    hide At, Value, SkipWs, Stops, Spell, SpellEntry, AreBlanks, CodecString, Key;
    EntryInText(e, token + more, s, c);
    KeySpelled(e.key, e.before, e.beforeColon, s, c);
    var g := c + |e.before| + |CodecString(e.key)| + |e.beforeColon| + 1;
    var a := g + |e.afterColon| + |Spell(e.value)|;
    ValueBehindBlanks(s, g, e.afterColon, d);
    AtSplit(s, a + |e.after|, token, more);
    TokenBehindBlanks(s, a, e.after, token);
  }

  lemma MembersMean(s: string, c: nat, d: nat)
    requires c <= |s| && Key(s, c).Parsed?
    ensures var k := Key(s, c);
            var v := Value(s, k.next, d);
            if v.Fail? then Members(s, c, d) == Fail
            else
              var w := SkipWs(s, v.next);
              var m := Member(k.value, v.value);
              if w < |s| && s[w] == ',' then
                var rest := Members(s, w + 1, d);
                Members(s, c, d) == (if rest.Fail? then Fail else Parsed([m] + rest.value, rest.next))
              else if w < |s| && s[w] == '}' then Members(s, c, d) == Parsed([m], w + 1)
              else Members(s, c, d) == Fail
  {
    hide Value, SkipWs, Key;
  }

  lemma MembersFromToken(s: string, c: nat, d: nat)
    requires c <= |s|
    ensures Members(s, c, d) == Members(s, SkipWs(s, c), d)
  {
    hide StringBody, Value;
    SkipTwice(s, c);
    assert Key(s, c) == Key(s, SkipWs(s, c));
  }

  lemma FirstMember(entries: seq<Entry>)
    requires entries != []
    ensures MembersOf(entries) == [Member(entries[0].key, Tree(entries[0].value))] + MembersOf(entries[1..])
    ensures DepthOfMembers(MembersOf(entries))
         == Max(Depth(Tree(entries[0].value)), DepthOfMembers(MembersOf(entries[1..])))
    ensures |entries| == 1 ==>
              && MembersOf(entries) == [Member(entries[0].key, Tree(entries[0].value))]
              && DepthOfMembers(MembersOf(entries[1..])) == 0
    ensures SpellEntries(entries)
         == SpellEntry(entries[0]) + (if |entries| == 1 then "}" else "," + SpellEntries(entries[1..]))
  {
    hide SpellEntry;
    assert MembersOf(entries)[1..] == MembersOf(entries[1..]);
  }

  lemma {:induction false} EntriesSpelled(entries: seq<Entry>, s: string, c: nat, d: nat)
    requires entries != [] && EntriesSpaced(entries) && At(s, c, SpellEntries(entries)) && d <= MAX_DEPTH
    ensures c <= |s| && SkipWs(s, c) < |s| && s[SkipWs(s, c)] != '}'
    ensures var members := MembersOf(entries);
            var r := if d + DepthOfMembers(members) <= MAX_DEPTH then Parsed(members, c + |SpellEntries(entries)|)
                     else Fail;
            Members(s, c, d) == r && Members(s, SkipWs(s, c), d) == r
    decreases entries, 0
  {
    hide At, Value, Members, SkipWs, Stops, Spell, SpellEntry, AreBlanks, CodecString, Key;
    var e, rest := entries[0], entries[1..];
    var token := if |entries| == 1 then "}" else ",";
    var tail := if |entries| == 1 then "}" else "," + SpellEntries(rest);
    FirstMember(entries);
    assert tail == token + (if |entries| == 1 then "" else SpellEntries(rest));
    EntryRead(e, token, if |entries| == 1 then "" else SpellEntries(rest), s, c, d);
    var a := c + |SpellEntry(e)| - |e.after|;
    var v := a - |Spell(e.value)|;
    var n := a + |e.after|;
    ValueSpelled(e.value, s, v, d);
    if |entries| > 1 {
      EntriesSpelled(rest, s, n + 1, d);
    }
    MembersFromToken(s, c, d);
    MembersMean(s, c, d);
  }

  // ---------------------------------------------------------------- whole texts

  /**
   The round trip with blanks anywhere between tokens: parsing gives the tree exactly when containers
   nest at most 64 deep, and fails otherwise.
   */
  lemma {:induction false} ParseOfSpelled(l: Layout, lead: string, trail: string, s: string)
    requires WellSpaced(l) && AreBlanks(lead) && AreBlanks(trail) && s == lead + (Spell(l) + trail)
    ensures Parse(s) == if Depth(Tree(l)) <= 64 then Some(Tree(l)) else None
  {
    hide Value, At, Spell, Stops, SkipWs, AreBlanks, Depth, Tree;
    WholeText(s, lead, Spell(l), trail);
    var v := |lead|;
    var n := v + |Spell(l)|;
    BlanksStop(s, n, trail);
    ValueBehindBlanks(s, 0, lead, 0);
    ValueSpelled(l, s, v, 0);
    BlanksPassed(s, n, trail);
    NothingToSkip(s);
  }

  lemma WholeText(s: string, lead: string, text: string, trail: string)
    requires s == lead + (text + trail)
    ensures At(s, 0, lead) && At(s, |lead|, text) && At(s, |lead| + |text|, trail)
    ensures |s| == |lead| + |text| + |trail|
  {
    assert s[0..|s|] == s;
    AtSplit(s, 0, lead, text + trail);
    AtSplit(s, |lead|, text, trail);
  }

  lemma BlanksStop(s: string, n: nat, trail: string)
    requires AreBlanks(trail) && At(s, n, trail) && (trail != "" || n == |s|)
    ensures Stops(s, n)
  {
    if trail != "" {
      AtIndex(s, n, trail, 0);
    }
  }

  lemma NothingToSkip(s: string)
    ensures SkipWs(s, |s|) == |s|
  {}

  /** A value with anything but blanks behind it is no JSON text. */
  lemma {:induction false} TrailingTextFails(l: Layout, lead: string, trail: string, rest: string, s: string)
    requires WellSpaced(l) && AreBlanks(lead) && AreBlanks(trail) && s == lead + (Spell(l) + (trail + rest))
    requires rest != "" && !AreBlanks([rest[0]]) && (trail == "" ==> !IsNumberText([rest[0]]))
    ensures Parse(s) == None
  {
    hide Value, At, Spell, Stops, SkipWs, Depth, Tree;
    WholeText(s, lead, Spell(l), trail + rest);
    var v := |lead|;
    var n := v + |Spell(l)|;
    AtSplit(s, n, trail, rest);
    AtIndex(s, n + |trail|, rest, 0);
    assert [rest[0]][0] == rest[0];
    if trail != "" {
      BlanksStop(s, n, trail);
    } else {
      StopsHere(s, n);
    }
    ValueBehindBlanks(s, 0, lead, 0);
    ValueSpelled(l, s, v, 0);
    BlanksPassed(s, n, trail);
    BlankIsSkipped(s, n + |trail|);
  }

  lemma StopsHere(s: string, n: nat)
    requires n < |s| && !IsNumberText([s[n]])
    ensures Stops(s, n)
  {
    assert [s[n]][0] == s[n];
  }

  lemma BlankIsSkipped(s: string, n: nat)
    requires n < |s| && !AreBlanks([s[n]])
    ensures SkipWs(s, n) == n
  {
    assert [s[n]][0] == s[n];
  }

  // ---------------------------------------------------------------- escapes

  /** The eight short escapes, and nothing else but `u`, may follow a backslash. */
  lemma ShortEscapesRead(s: string, c: nat)
    requires c + 1 < |s| && s[c] == '\\' && s[c + 1] != 'u'
    ensures StringUnit(s, c) == match s[c + 1]
                                case '"' => Parsed("\"", c + 2)
                                case '\\' => Parsed("\\", c + 2)
                                case '/' => Parsed("/", c + 2)
                                case 'b' => Parsed([8 as char], c + 2)
                                case 'f' => Parsed([12 as char], c + 2)
                                case 'n' => Parsed("\n", c + 2)
                                case 'r' => Parsed("\r", c + 2)
                                case 't' => Parsed("\t", c + 2)
                                case _ => Fail
  {}
}
