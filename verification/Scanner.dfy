/**
 The SQL scanner of src/frostlake_sql.c. One test decides, at a position of the text, whether a
 stretch opens there in which `?`, `:name` and `;` are only text: a string, a quoted identifier,
 a comment or a `$$` body. The placeholder renderer and the session tracker both walk with it.
 */
module Scanner {
  import opened CText

  // ---------------------------------------------------------------- where a stretch ends

  /** Past the closing quote of a single-quoted string whose body continues at `p`. */
  function QuoteEnd(s: string, p: nat): (r: nat)
    requires p <= |s|
    ensures p <= r <= |s|
    decreases |s| - p
  {
    if p == |s| then p
    else if s[p] == '\\' && p + 1 < |s| then QuoteEnd(s, p + 2)
    else if s[p] == '\'' then
      if p + 1 < |s| && s[p + 1] == '\'' then QuoteEnd(s, p + 2) else p + 1
    else QuoteEnd(s, p + 1)
  }

  /** Past the closing quote of a quoted identifier whose body continues at `p`. */
  function IdentEnd(s: string, p: nat): (r: nat)
    requires p <= |s|
    ensures p <= r <= |s|
    decreases |s| - p
  {
    if p == |s| then p
    else if s[p] == '"' then
      if p + 1 < |s| && s[p + 1] == '"' then IdentEnd(s, p + 2) else p + 1
    else IdentEnd(s, p + 1)
  }

  /** Past the first newline at or after `p`. */
  function LineEnd(s: string, p: nat): (r: nat)
    requires p <= |s|
    ensures p <= r <= |s|
    decreases |s| - p
  {
    if p == |s| then p else if s[p] == '\n' then p + 1 else LineEnd(s, p + 1)
  }

  /** Past the first `ab` at or after `p`; the end of the text when there is none. */
  function PairEnd(s: string, p: nat, a: char, b: char): (r: nat)
    requires p <= |s|
    ensures p <= r <= |s|
    decreases |s| - p
  {
    if p + 1 >= |s| then |s|
    else if s[p] == a && s[p + 1] == b then p + 2
    else PairEnd(s, p + 1, a, b)
  }

  // ---------------------------------------------------------------- what opens at a position

  /** The two characters `ab` stand at `c`. */
  predicate Pair(s: string, c: nat, a: char, b: char) {
    c + 1 < |s| && s[c] == a && s[c + 1] == b
  }

  predicate OpensLine(s: string, c: nat) { Pair(s, c, '-', '-') || Pair(s, c, '/', '/') }

  predicate OpensBlock(s: string, c: nat) { Pair(s, c, '/', '*') }

  /** A character after which `$$` belongs to an identifier. */
  predicate JoinsDollar(c: char) { IsAlnum(c) || c == '_' || c == '$' }

  predicate OpensBody(s: string, c: nat) {
    Pair(s, c, '$', '$') && (c == 0 || !JoinsDollar(s[c - 1]))
  }

  /** The position just past the stretch that opens at `c`, or `c` itself when none does. */
  function Skip(s: string, c: nat): (past: nat)
    requires c < |s|
    ensures c <= past <= |s|
  {
    if s[c] == '\'' then QuoteEnd(s, c + 1)
    else if s[c] == '"' then IdentEnd(s, c + 1)
    else if OpensLine(s, c) then LineEnd(s, c + 2)
    else if OpensBlock(s, c) then PairEnd(s, c + 2, '*', '/')
    else if OpensBody(s, c) then PairEnd(s, c + 2, '$', '$')
    else c
  }

  /** skip_non_placeholder: the pointer walk, NULL being the position it was asked about. */
  method SkipNonPlaceholder(s: string, c: nat) returns (past: nat)
    requires c < |s|
    ensures past == Skip(s, c)
  {
    var end := |s|;
    if s[c] == '\'' {
      var p := c + 1;
      while p < end
        invariant c < p <= end
        invariant QuoteEnd(s, p) == QuoteEnd(s, c + 1)
      {
        if s[p] == '\\' && p + 1 < end {
          p := p + 2;
        } else if s[p] == '\'' {
          if p + 1 >= end || s[p + 1] != '\'' {
            return p + 1;
          }
          p := p + 2;
        } else {
          p := p + 1;
        }
      }
      return end;
    }
    if s[c] == '"' {
      var p := c + 1;
      while p < end
        invariant c < p <= end
        invariant IdentEnd(s, p) == IdentEnd(s, c + 1)
      {
        if s[p] == '"' {
          if p + 1 >= end || s[p + 1] != '"' {
            return p + 1;
          }
          p := p + 2;
        } else {
          p := p + 1;
        }
      }
      return end;
    }
    if c + 1 < end && ((s[c] == '-' && s[c + 1] == '-') || (s[c] == '/' && s[c + 1] == '/')) {
      past := FindNewline(s, c + 2);
      return;
    }
    if c + 1 < end && s[c] == '/' && s[c + 1] == '*' {
      past := FindPair(s, c + 2, '*', '/');
      return;
    }
    if c + 1 < end && s[c] == '$' && s[c + 1] == '$'
      && (c == 0 || !(IsAlnum(s[c - 1]) || s[c - 1] == '_' || s[c - 1] == '$')) {
      past := FindPair(s, c + 2, '$', '$');
      return;
    }
    return c;
  }

  /** The `memchr` for a newline, answering the position after it or the end. */
  method FindNewline(s: string, start: nat) returns (past: nat)
    requires start <= |s|
    ensures past == LineEnd(s, start)
  {
    var p := start;
    while p < |s|
      invariant start <= p <= |s|
      invariant LineEnd(s, p) == LineEnd(s, start)
    {
      if s[p] == '\n' {
        return p + 1;
      }
      p := p + 1;
    }
    return |s|;
  }

  /** The loop that looks for a two-character terminator. */
  method FindPair(s: string, start: nat, a: char, b: char) returns (past: nat)
    requires start <= |s|
    ensures past == PairEnd(s, start, a, b)
  {
    var p := start;
    while p + 1 < |s|
      invariant start <= p <= |s|
      invariant PairEnd(s, p, a, b) == PairEnd(s, start, a, b)
    {
      if s[p] == a && s[p + 1] == b {
        return p + 2;
      }
      p := p + 1;
    }
    return |s|;
  }
}
