/**
 Rendering bound values into SQL, as src/frostlake_sql.c does it: one walk with the scanner, each
 placeholder replaced by a literal of its value, everything else copied.
 */
module Render {
  import opened CText
  import opened Scanner
  import Literals
  import opened StringBuffer

  // ---------------------------------------------------------------- tokens

  /** What the walk meets: a stretch that is only text, a placeholder, or one other character. */
  datatype Token = Stretch(text: string) | Mark | Name(name: string) | Plain(c: char)

  /** A character after which a colon reads a field: the end of an operand. */
  predicate EndsOperand(c: char) {
    IsAlnum(c) || c == '_' || c == '$' || c == ')' || c == ']' || c == '}' || c == '\'' || c == '"' || c == '?'
    || c == ':'
  }

  predicate StartsName(c: char) { IsAlpha(c) || c == '_' }

  predicate InName(c: char) { IsAlnum(c) || c == '_' }

  /** opens_named_parameter. */
  predicate OpensName(s: string, c: nat)
    requires c < |s|
  {
    c + 1 < |s| && StartsName(s[c + 1]) && (c == 0 || !EndsOperand(s[c - 1]))
  }

  function NameEnd(s: string, c: nat): (r: nat)
    requires c <= |s|
    ensures c <= r <= |s|
    decreases |s| - c
  {
    if c < |s| && InName(s[c]) then NameEnd(s, c + 1) else c
  }

  /** The token at `c`, and the position after it. */
  function TokenAt(s: string, c: nat): (r: (Token, nat))
    requires c < |s|
    ensures c < r.1 <= |s|
  {
    if Skip(s, c) > c then (Stretch(s[c..Skip(s, c)]), Skip(s, c))
    else if s[c] == '?' then (Mark, c + 1)
    else if s[c] == ':' && OpensName(s, c) then (Name(s[c..NameEnd(s, c + 1)]), NameEnd(s, c + 1))
    else (Plain(s[c]), c + 1)
  }

  function Lex(s: string, c: nat): seq<Token>
    requires c <= |s|
    decreases |s| - c
  {
    if c == |s| then [] else [TokenAt(s, c).0] + Lex(s, TokenAt(s, c).1)
  }

  // ---------------------------------------------------------------- values

  /**
   A bound value as the binding's type hands it over. `Number` is the text of an integer or finite
   double, `IntString` a string bound as an integer, `Unreadable` one that cannot be converted.
   */
  datatype Value =
    | Null
    | Bool(truth: bool)
    | Number(text: string)
    | NotANumber
    | Infinite(positive: bool)
    | IntString(text: string)
    | Text(text: string)
    | Binary(bytes: seq<byte>)
    | Unreadable

  /** The text of a number is written bare: a long's or a double's, or a numeric literal's. */
  predicate Bare(v: Value) { v.Number? || (v.IntString? && Literals.IsNumeric(v.text)) }

  /** append_number: a space keeps a negative number from opening a comment after a minus. */
  function NumberText(text: string, afterMinus: bool): string {
    if text != "" && text[0] == '-' && afterMinus then " " + text else text
  }

  /** append_value; `afterMinus` is whether the output ends in a minus. */
  function ValueText(v: Value, afterMinus: bool): string
    requires !v.Unreadable?
  {
    match v
    case Null => "NULL"
    case Bool(b) => if b then "TRUE" else "FALSE"
    case Number(text) => NumberText(text, afterMinus)
    case NotANumber => "'NaN'::FLOAT"
    case Infinite(positive) => if positive then "'inf'::FLOAT" else "'-inf'::FLOAT"
    case IntString(text) =>
      if Literals.IsNumeric(text) then NumberText(text, afterMinus) else Literals.StringLiteral(text)
    case Text(text) => Literals.StringLiteral(text)
    case Binary(bytes) => Literals.BinaryLiteral(bytes)
  }

  predicate AfterMinus(out: string) { out != "" && out[|out| - 1] == '-' }

  // ---------------------------------------------------------------- bindings

  datatype Key = Position(index: nat) | Named(name: string)

  type Bindings = map<Key, Value>

  datatype RenderError = CountMismatch | NotDefined(name: string) | MixedStyles | NotConvertible

  /** SQLSTATE HY105 for a value that cannot be converted, HY093 for every other refusal. */
  datatype Rendered = Rendered(text: string) | Refused(why: RenderError)

  /** Where the walk stands: the output, the next position, and the names used. */
  datatype Progress = Progress(out: string, position: nat, positional: bool, named: bool, used: set<string>)

  const NOT_STARTED := Progress("", 0, false, false, {})

  datatype Filled = Filled(progress: Progress) | Stopped(why: RenderError)

  /** The walk over the tokens still ahead. */
  function Fill(tokens: seq<Token>, p: Progress, bindings: Bindings): Filled
    decreases |tokens|
  {
    if tokens == [] then Filled(p)
    else
      match tokens[0]
      case Stretch(text) => Fill(tokens[1..], p.(out := p.out + text), bindings)
      case Plain(c) => Fill(tokens[1..], p.(out := p.out + [c]), bindings)
      case Mark =>
        if Position(p.position) !in bindings then Stopped(CountMismatch)
        else if bindings[Position(p.position)].Unreadable? then Stopped(NotConvertible)
        else
          Fill(tokens[1..],
               p.(out := p.out + ValueText(bindings[Position(p.position)], AfterMinus(p.out)),
                  position := p.position + 1, positional := true),
               bindings)
      case Name(name) =>
        if Named(name) !in bindings then Stopped(NotDefined(name))
        else if bindings[Named(name)].Unreadable? then Stopped(NotConvertible)
        else
          Fill(tokens[1..],
               p.(out := p.out + ValueText(bindings[Named(name)], AfterMinus(p.out)),
                  named := true, used := p.used + {name}),
               bindings)
  }

  const UINT32 := 0x1_0000_0000

  /** The checks after the walk; the source counts in 32 bits. */
  function Checked(p: Progress, bindings: Bindings): Rendered {
    if p.positional && p.named then Refused(MixedStyles)
    else if (if p.positional then p.position % UINT32 else |p.used| % UINT32) != |bindings| % UINT32 then
      Refused(CountMismatch)
    else Rendered(p.out)
  }

  /** pdo_frostlake_render_statement. */
  function RenderStatement(s: string, bindings: Bindings): Rendered {
    if bindings == map[] then Rendered(s)
    else
      match Fill(Lex(s, 0), NOT_STARTED, bindings)
      case Stopped(why) => Refused(why)
      case Filled(p) => Checked(p, bindings)
  }

  // ---------------------------------------------------------------- the source's walk

  /** append_value. */
  method AppendValue(buf: StrBuf, v: Value) returns (converted: bool)
    requires buf.Valid()
    modifies buf.Repr()
    ensures buf.Valid() && fresh(buf.Repr() - old(buf.Repr()))
    ensures converted == !v.Unreadable?
    ensures converted ==> buf.Contents() == old(buf.Contents()) + ValueText(v, AfterMinus(old(buf.Contents())))
  {
    hide StrBuf.Valid, StrBuf.Contents, StrBuf.Size, AfterAppend, Literals.IsNumeric, Literals.StringLiteral,
      Literals.BinaryLiteral;
    match v {
      case Null => buf.Append("NULL");
      case Bool(b) => buf.Append(if b then "TRUE" else "FALSE");
      case Number(text) => AppendNumber(buf, text);
      case NotANumber => buf.Append("'NaN'::FLOAT");
      case Infinite(positive) => buf.Append(if positive then "'inf'::FLOAT" else "'-inf'::FLOAT");
      case IntString(text) =>
        var numeric := Literals.IsNumericLiteral(text);
        if numeric {
          AppendNumber(buf, text);
        } else {
          Literals.AppendStringLiteral(buf, text);
        }
      case Text(text) => Literals.AppendStringLiteral(buf, text);
      case Binary(bytes) => Literals.AppendBinaryLiteral(buf, bytes);
      case Unreadable => return false;
    }
    return true;
  }

  /** append_number. */
  method AppendNumber(buf: StrBuf, text: string)
    requires buf.Valid()
    modifies buf.Repr()
    ensures buf.Valid() && fresh(buf.Repr() - old(buf.Repr()))
    ensures buf.Contents() == old(buf.Contents()) + NumberText(text, AfterMinus(old(buf.Contents())))
  {
    hide StrBuf.Valid, StrBuf.Contents, StrBuf.Size, AfterAppend;
    var minus := buf.EndsIn('-');
    if |text| > 0 && text[0] == '-' && minus {
      buf.Append(" ");
    }
    buf.Append(text);
  }

  /** The walk: the template position, the counters, the names used and the output move together. */
  method Walk(s: string, bindings: Bindings) returns (r: Filled)
    ensures r == Fill(Lex(s, 0), NOT_STARTED, bindings)
  {
    hide StrBuf.Valid, StrBuf.Contents, StrBuf.Size, AfterAppend, ValueText, AfterMinus, Skip, NameEnd, Fill, Lex;
    var buf := new StrBuf();
    var c, position, positional, named := 0, 0, false, false;
    var used: set<string> := {};
    while c < |s|
      invariant c <= |s| && buf.Valid() && fresh(buf.Repr())
      invariant Fill(Lex(s, c), Progress(buf.Contents(), position, positional, named, used), bindings)
             == Fill(Lex(s, 0), NOT_STARTED, bindings)
      decreases |s| - c
    {
      FillStep(s, c, Progress(buf.Contents(), position, positional, named, used), bindings);
      var past := SkipNonPlaceholder(s, c);
      if past != c {
        buf.Append(s[c..past]);
        c := past;
      } else if s[c] == '?' {
        positional := true;
        if Position(position) !in bindings {
          return Stopped(CountMismatch);
        }
        var converted := AppendValue(buf, bindings[Position(position)]);
        if !converted {
          return Stopped(NotConvertible);
        }
        position := position + 1;
        c := c + 1;
      } else if s[c] == ':' && OpensName(s, c) {
        var nameEnd := FindNameEnd(s, c + 1);
        named := true;
        var name := s[c..nameEnd];
        if Named(name) !in bindings {
          return Stopped(NotDefined(name));
        }
        used := used + {name};
        var converted := AppendValue(buf, bindings[Named(name)]);
        if !converted {
          return Stopped(NotConvertible);
        }
        c := nameEnd;
      } else {
        buf.Append([s[c]]);
        c := c + 1;
      }
    }
    FillEnds(s, Progress(buf.Contents(), position, positional, named, used), bindings);
    var out := buf.Text();
    return Filled(Progress(out, position, positional, named, used));
  }

  method FindNameEnd(s: string, from: nat) returns (e: nat)
    requires from <= |s|
    ensures e == NameEnd(s, from)
  {
    e := from;
    while e < |s| && InName(s[e])
      invariant from <= e <= |s| && NameEnd(s, e) == NameEnd(s, from)
      decreases |s| - e
    {
      e := e + 1;
    }
  }

  lemma FillEnds(s: string, p: Progress, bindings: Bindings)
    ensures Fill(Lex(s, |s|), p, bindings) == Filled(p)
  {}

  /** One token of the walk. */
  lemma FillStep(s: string, c: nat, p: Progress, bindings: Bindings)
    requires c < |s|
    ensures var (token, next) := TokenAt(s, c);
            var whole := Fill(Lex(s, c), p, bindings);
            match token
            case Stretch(text) => whole == Fill(Lex(s, next), p.(out := p.out + text), bindings)
            case Plain(ch) => whole == Fill(Lex(s, next), p.(out := p.out + [ch]), bindings)
            case Mark =>
              if Position(p.position) !in bindings then whole == Stopped(CountMismatch)
              else if bindings[Position(p.position)].Unreadable? then whole == Stopped(NotConvertible)
              else
                whole == Fill(Lex(s, next),
                              p.(out := p.out + ValueText(bindings[Position(p.position)], AfterMinus(p.out)),
                                 position := p.position + 1, positional := true), bindings)
            case Name(name) =>
              if Named(name) !in bindings then whole == Stopped(NotDefined(name))
              else if bindings[Named(name)].Unreadable? then whole == Stopped(NotConvertible)
              else
                whole == Fill(Lex(s, next),
                              p.(out := p.out + ValueText(bindings[Named(name)], AfterMinus(p.out)),
                                 named := true, used := p.used + {name}), bindings)
  {
    hide TokenAt, ValueText, AfterMinus;
    assert Lex(s, c)[1..] == Lex(s, TokenAt(s, c).1);
  }

  /** pdo_frostlake_render_statement. */
  method Render(s: string, bindings: Bindings) returns (r: Rendered)
    ensures r == RenderStatement(s, bindings)
  {
    if |bindings| == 0 {
      return Rendered(s);
    }
    var walked := Walk(s, bindings);
    match walked {
      case Stopped(why) => return Refused(why);
      case Filled(p) =>
        if p.positional && p.named {
          return Refused(MixedStyles);
        }
        var consumed := if p.positional then p.position % UINT32 else |p.used| % UINT32;
        if consumed != |bindings| % UINT32 {
          return Refused(CountMismatch);
        }
        return Rendered(p.out);
    }
  }
}
