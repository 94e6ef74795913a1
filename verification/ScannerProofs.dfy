/**
 What the scanner may look at. A stretch is decided by its own text, by one character before it
 and by one after it; moving that window into another text moves the answer with it.
 */
module ScannerProofs {
  import opened Scanner

  /** The next `m` characters agree. */
  predicate Same(s: string, p: nat, t: string, q: nat, m: nat)
    decreases m
  {
    p + m <= |s| && q + m <= |t| && (m == 0 || (s[p] == t[q] && Same(s, p + 1, t, q + 1, m - 1)))
  }

  lemma {:induction false} SameIfEqual(s: string, p: nat, t: string, q: nat, m: nat)
    requires p + m <= |s| && q + m <= |t| && s[p..p + m] == t[q..q + m]
    ensures Same(s, p, t, q, m)
    decreases m
  {
    if m > 0 {
      assert s[p] == s[p..p + m][0] == t[q..q + m][0] == t[q];
      assert s[p + 1..p + m] == s[p..p + m][1..] == t[q..q + m][1..] == t[q + 1..q + m];
      SameIfEqual(s, p + 1, t, q + 1, m - 1);
    }
  }

  lemma {:induction false} SameMeansEqual(s: string, p: nat, t: string, q: nat, m: nat)
    requires Same(s, p, t, q, m)
    ensures s[p..p + m] == t[q..q + m]
    decreases m
  {
    if m > 0 {
      SameMeansEqual(s, p + 1, t, q + 1, m - 1);
      assert s[p..p + m] == [s[p]] + s[p + 1..p + m];
      assert t[q..q + m] == [t[q]] + t[q + 1..q + m];
    }
  }

  lemma {:induction false} SameSlice(s: string, p: nat, t: string, q: nat, m: nat, k: nat)
    requires Same(s, p, t, q, m) && k <= m
    ensures Same(s, p, t, q, k) && s[p..p + k] == t[q..q + k]
    decreases k
  {
    if k > 0 {
      SameSlice(s, p + 1, t, q + 1, m - 1, k - 1);
    }
    SameMeansEqual(s, p, t, q, k);
  }

  lemma {:induction false} SameTail(s: string, p: nat, t: string, q: nat, m: nat, k: nat)
    requires Same(s, p, t, q, m) && k <= m
    ensures Same(s, p + k, t, q + k, m - k)
    decreases k
  {
    if k > 0 {
      SameTail(s, p + 1, t, q + 1, m - 1, k - 1);
    }
  }

  /** The answer `e` for `s` at `p` leaves one character of the window to look at, or `t` ends there. */
  predicate Decided(e: int, p: int, t: string, q: int, m: int) {
    e < p + m || (e == p + m && q + m == |t|)
  }

  lemma {:induction false} QuoteEndMoves(s: string, p: nat, t: string, q: nat, m: nat)
    requires Same(s, p, t, q, m)
    requires Decided(QuoteEnd(s, p), p, t, q, m)
    ensures QuoteEnd(t, q) == QuoteEnd(s, p) - p + q
    decreases m
  {
    if m > 0 {
      if s[p] == '\\' && p + 1 < |s| {
        QuoteEndMoves(s, p + 2, t, q + 2, m - 2);
      } else if s[p] == '\'' {
        if p + 1 < |s| && s[p + 1] == '\'' {
          QuoteEndMoves(s, p + 2, t, q + 2, m - 2);
        }
      } else {
        QuoteEndMoves(s, p + 1, t, q + 1, m - 1);
      }
    }
  }

  lemma {:induction false} IdentEndMoves(s: string, p: nat, t: string, q: nat, m: nat)
    requires Same(s, p, t, q, m)
    requires Decided(IdentEnd(s, p), p, t, q, m)
    ensures IdentEnd(t, q) == IdentEnd(s, p) - p + q
    decreases m
  {
    if m > 0 {
      if s[p] == '"' {
        if p + 1 < |s| && s[p + 1] == '"' {
          IdentEndMoves(s, p + 2, t, q + 2, m - 2);
        }
      } else {
        IdentEndMoves(s, p + 1, t, q + 1, m - 1);
      }
    }
  }

  lemma {:induction false} LineEndMoves(s: string, p: nat, t: string, q: nat, m: nat)
    requires Same(s, p, t, q, m)
    requires LineEnd(s, p) <= p + m && (LineEnd(s, p) < |s| || q + m == |t|)
    ensures LineEnd(t, q) == LineEnd(s, p) - p + q
    decreases m
  {
    if m > 0 {
      if s[p] != '\n' {
        LineEndMoves(s, p + 1, t, q + 1, m - 1);
      }
    }
  }

  lemma {:induction false} PairEndMoves(s: string, p: nat, t: string, q: nat, m: nat, a: char, b: char)
    requires Same(s, p, t, q, m)
    requires PairEnd(s, p, a, b) <= p + m && (PairEnd(s, p, a, b) < |s| || q + m == |t|)
    ensures PairEnd(t, q, a, b) == PairEnd(s, p, a, b) - p + q
    decreases m
  {
    if m > 1 {
      if !(s[p] == a && s[p + 1] == b) {
        PairEndMoves(s, p + 1, t, q + 1, m - 1, a, b);
      }
    }
  }

  /** The character before `c` lets a `$$` at `c` open a body. */
  predicate FreeBefore(s: string, c: nat)
    requires c <= |s|
  {
    c == 0 || !JoinsDollar(s[c - 1])
  }

  lemma OpensMoves(s: string, c: nat, t: string, d: nat, m: nat)
    requires m > 0 && Same(s, c, t, d, m) && FreeBefore(s, c) == FreeBefore(t, d)
    requires m > 1 || (d + m == |t| && !OpensLine(s, c) && !OpensBlock(s, c) && !OpensBody(s, c))
    ensures OpensLine(s, c) == OpensLine(t, d)
    ensures OpensBlock(s, c) == OpensBlock(t, d)
    ensures OpensBody(s, c) == OpensBody(t, d)
    ensures m > 1 ==> Same(s, c + 2, t, d + 2, m - 2)
  {}

  lemma SkipMoves(s: string, c: nat, t: string, d: nat, m: nat)
    requires m > 0 && Same(s, c, t, d, m)
    requires FreeBefore(s, c) == FreeBefore(t, d)
    requires Decided(if Skip(s, c) > c then Skip(s, c) else c + 1, c, t, d, m)
    ensures Skip(t, d) == Skip(s, c) - c + d
  {
    if s[c] == '\'' {
      QuoteEndMoves(s, c + 1, t, d + 1, m - 1);
    } else if s[c] == '"' {
      IdentEndMoves(s, c + 1, t, d + 1, m - 1);
    } else {
      OpensMoves(s, c, t, d, m);
      if OpensLine(s, c) {
        LineEndMoves(s, c + 2, t, d + 2, m - 2);
      } else if OpensBlock(s, c) {
        PairEndMoves(s, c + 2, t, d + 2, m - 2, '*', '/');
      } else if OpensBody(s, c) {
        PairEndMoves(s, c + 2, t, d + 2, m - 2, '$', '$');
      }
    }
  }

  // ---------------------------------------------------------------- walking

  /** The position after whatever stands at `c`: a stretch, or one character. */
  function Next(s: string, c: nat): (n: nat)
    requires c < |s|
    ensures c < n <= |s|
  {
    if Skip(s, c) > c then Skip(s, c) else c + 1
  }

  /** Walking from `c`, stretch by stretch, arrives at `target`: it is a top-level position. */
  predicate Reaches(s: string, c: nat, target: nat)
    requires c <= |s| && target <= |s|
    decreases |s| - c
  {
    c == target || (c < target && Reaches(s, Next(s, c), target))
  }

  /** The text is lexically closed: a semicolon written after it would be a top-level one. */
  predicate Closed(a: string) {
    Reaches(a + ";", 0, |a|)
  }

  lemma NextMoves(s: string, c: nat, t: string, d: nat, m: nat)
    requires m > 0 && Same(s, c, t, d, m)
    requires FreeBefore(s, c) == FreeBefore(t, d)
    requires Decided(Next(s, c), c, t, d, m)
    ensures Next(t, d) == Next(s, c) - c + d
    ensures (Skip(t, d) > d) == (Skip(s, c) > c)
  {
    SkipMoves(s, c, t, d, m);
  }

  /** A shorter window further on, with the same character before it. */
  lemma {:induction false} SameDrop(s: string, p: nat, t: string, q: nat, m: nat, k: nat)
    requires Same(s, p, t, q, m) && 0 < k <= m
    ensures Same(s, p + k, t, q + k, m - k)
    ensures FreeBefore(s, p + k) == FreeBefore(t, q + k)
    decreases k
  {
    if k > 1 {
      SameDrop(s, p + 1, t, q + 1, m - 1, k - 1);
    }
  }

  /** The last character of a stretch that ends before the text does. */
  lemma StretchLast(s: string, c: nat)
    requires c < |s| && c < Skip(s, c) < |s|
    ensures s[Skip(s, c) - 1] in {'\'', '"', '\n', '/', '$'}
    ensures s[Skip(s, c) - 1] == '$' ==> s[c] != '\'' && s[c] != '"' && OpensBody(s, c)
  {
    if s[c] == '\'' {
      QuoteLast(s, c + 1);
    } else if s[c] == '"' {
      IdentLast(s, c + 1);
    } else if OpensLine(s, c) {
      LineLast(s, c + 2);
    } else if OpensBlock(s, c) {
      PairLast(s, c + 2, '*', '/');
    } else {
      PairLast(s, c + 2, '$', '$');
    }
  }

  lemma {:induction false} QuoteLast(s: string, p: nat)
    requires p <= |s| && QuoteEnd(s, p) < |s|
    ensures p < QuoteEnd(s, p) && s[QuoteEnd(s, p) - 1] == '\''
    decreases |s| - p
  {
    if s[p] == '\\' && p + 1 < |s| {
      QuoteLast(s, p + 2);
    } else if s[p] == '\'' {
      if p + 1 < |s| && s[p + 1] == '\'' {
        QuoteLast(s, p + 2);
      }
    } else {
      QuoteLast(s, p + 1);
    }
  }

  lemma {:induction false} IdentLast(s: string, p: nat)
    requires p <= |s| && IdentEnd(s, p) < |s|
    ensures p < IdentEnd(s, p) && s[IdentEnd(s, p) - 1] == '"'
    decreases |s| - p
  {
    if s[p] == '"' {
      if p + 1 < |s| && s[p + 1] == '"' {
        IdentLast(s, p + 2);
      }
    } else {
      IdentLast(s, p + 1);
    }
  }

  lemma {:induction false} LineLast(s: string, p: nat)
    requires p <= |s| && LineEnd(s, p) < |s|
    ensures p < LineEnd(s, p) && s[LineEnd(s, p) - 1] == '\n'
    decreases |s| - p
  {
    if s[p] != '\n' {
      LineLast(s, p + 1);
    }
  }

  lemma {:induction false} PairLast(s: string, p: nat, a: char, b: char)
    requires p <= |s| && PairEnd(s, p, a, b) < |s|
    ensures p < PairEnd(s, p, a, b) && s[PairEnd(s, p, a, b) - 1] == b
    decreases |s| - p
  {
    if !(s[p] == a && s[p + 1] == b) {
      PairLast(s, p + 1, a, b);
    }
  }
}
