/** The pieces of JavaScript's string library the core relies on: the white
    space set of `String.prototype.trim` and of the regular expression class
    `\s`, `trim`, `trimStart`, the rewrite `replace(/\s+/g, ' ')`, and the
    string comparison `<`. */
module JsText {

  /** A character that `trim` removes and `\s` matches: the ECMAScript
      WhiteSpace and LineTerminator code points. */
  predicate IsWhitespace(c: char) {
    if c <= ' ' then c == ' ' || '\t' <= c <= '\r' else IsWideWhitespace(c)
  }

  /** The white space above the ASCII range. */
  predicate IsWideWhitespace(c: char) {
    c == '\U{A0}' || c == '\U{1680}' || ('\U{2000}' <= c <= '\U{200A}')
    || c == '\U{2028}' || c == '\U{2029}' || c == '\U{202F}' || c == '\U{205F}'
    || c == '\U{3000}' || c == '\U{FEFF}'
  }

  predicate AllWhitespace(s: string) {
    forall i :: 0 <= i < |s| ==> IsWhitespace(s[i])
  }

  /** Neither the first nor the last character is white space. */
  predicate NoEdgeWhitespace(s: string) {
    s == [] || (!IsWhitespace(s[0]) && !IsWhitespace(s[|s| - 1]))
  }

  /** No two adjacent characters are both white space. */
  predicate NoDoubleWhitespace(s: string) {
    forall i :: 0 <= i < |s| - 1 ==> !(IsWhitespace(s[i]) && IsWhitespace(s[i + 1]))
  }

  /** Every white-space character is a plain space. */
  predicate OnlySpaces(s: string) {
    forall i :: 0 <= i < |s| ==> IsWhitespace(s[i]) ==> s[i] == ' '
  }

  /** The characters of `s` that are not white space, in order. */
  function NonWhitespace(s: string): string {
    if s == [] then []
    else (if IsWhitespace(s[0]) then [] else [s[0]]) + NonWhitespace(s[1..])
  }

  /** `trimStart`: drops the leading white space. */
  function TrimStart(s: string): (r: string)
    ensures |r| <= |s| && r == s[|s| - |r|..]
    ensures AllWhitespace(s[..|s| - |r|])
    ensures r == [] || !IsWhitespace(r[0])
  {
    if s != [] && IsWhitespace(s[0]) then TrimStart(s[1..]) else s
  }

  /** `trimEnd`: drops the trailing white space. */
  function TrimEnd(s: string): (r: string)
    ensures |r| <= |s| && r == s[..|r|]
    ensures AllWhitespace(s[|r|..])
    ensures r == [] || !IsWhitespace(r[|r| - 1])
  {
    if s != [] && IsWhitespace(s[|s| - 1]) then TrimEnd(s[..|s| - 1]) else s
  }

  /** White space in front does not change what `trimStart` keeps. */
  lemma {:induction false} TrimStartOfWhitespace(w: string, s: string)
    requires AllWhitespace(w)
    ensures TrimStart(w + s) == TrimStart(s)
    decreases |w|
  {
    if w == [] {
      assert w + s == s;
    } else {
      assert (w + s)[0] == w[0] && (w + s)[1..] == w[1..] + s;
      TrimStartOfWhitespace(w[1..], s);
    }
  }

  /** `trim`: the longest infix of `s` that neither starts nor ends with white
      space, obtained by dropping white space at both ends only. */
  function Trim(s: string): (r: string)
    ensures NoEdgeWhitespace(r)
    ensures exists i, j :: 0 <= i <= j <= |s| && r == s[i..j] && AllWhitespace(s[..i]) && AllWhitespace(s[j..])
  {
    var t := TrimStart(s);
    var r := TrimEnd(t);
    TrimSlices(s, t, r);
    assert NoEdgeWhitespace(r) by {
      if r != [] {
        assert r[0] == t[0];
      }
    }
    r
  }

  /** Where the trimmed parts sit in `s`. */
  lemma TrimSlices(s: string, t: string, r: string)
    requires |t| <= |s| && t == s[|s| - |t|..]
    requires |r| <= |t| && r == t[..|r|]
    ensures r == s[|s| - |t|..|s| - |t| + |r|]
    ensures s[|s| - |t| + |r|..] == t[|r|..]
  {
  }


  /** `replace(/\s+/g, ' ')`: every maximal run of white space becomes one
      space. */
  function Collapse(s: string): (r: string)
    ensures |r| <= |s|
    decreases |s|
  {
    if s == [] then []
    else if IsWhitespace(s[0]) then
      var rest := TrimStart(s);
      if rest == [] then [' '] else [' '] + Collapse(rest)
    else [s[0]] + Collapse(s[1..])
  }

  /** The collapse is empty only for the empty string. */
  lemma CollapseEmpty(s: string)
    ensures Collapse(s) == [] <==> s == []
  {
  }

  /** The collapse starts with white space exactly when the input does. */
  lemma CollapseFirst(s: string)
    requires s != []
    ensures Collapse(s) != [] && (IsWhitespace(Collapse(s)[0]) <==> IsWhitespace(s[0]))
  {
  }

  /** The collapse ends with white space exactly when the input does. */
  lemma {:induction false} CollapseLast(s: string)
    requires s != []
    ensures Collapse(s) != [] && (IsWhitespace(Collapse(s)[|Collapse(s)| - 1]) <==> IsWhitespace(s[|s| - 1]))
    decreases |s|
  {
    if IsWhitespace(s[0]) {
      var rest := TrimStart(s);
      if rest == [] {
        assert AllWhitespace(s[..|s|]);
      } else {
        CollapseLast(rest);
        LastOfCons([' '], Collapse(rest));
        assert s[|s| - 1] == rest[|rest| - 1];
      }
    } else if |s| > 1 {
      CollapseLast(s[1..]);
      LastOfCons([s[0]], Collapse(s[1..]));
      assert s[|s| - 1] == s[1..][|s| - 2];
    }
  }

  lemma LastOfCons(a: string, b: string)
    requires b != []
    ensures (a + b)[|a + b| - 1] == b[|b| - 1]
  {
  }

  /** The collapse leaves single spaces as the only white space, never two
      in a row. */
  lemma {:induction false} CollapseSpacing(s: string)
    ensures NoDoubleWhitespace(Collapse(s)) && OnlySpaces(Collapse(s))
    decreases |s|
  {
    if s == [] {
    } else if IsWhitespace(s[0]) {
      var rest := TrimStart(s);
      if rest != [] {
        CollapseSpacing(rest);
        CollapseFirst(rest);
        SpacingCons(' ', Collapse(rest));
      }
    } else {
      CollapseSpacing(s[1..]);
      SpacingCons(s[0], Collapse(s[1..]));
    }
  }

  lemma SpacingCons(c: char, t: string)
    requires NoDoubleWhitespace(t) && OnlySpaces(t)
    requires IsWhitespace(c) ==> c == ' ' && (t == [] || !IsWhitespace(t[0]))
    ensures NoDoubleWhitespace([c] + t) && OnlySpaces([c] + t)
  {
    var r := [c] + t;
    forall i | 1 <= i < |r| ensures r[i] == t[i - 1] {
    }
  }

  /** The lexicographic order of the characters, a proper prefix coming
      first. JavaScript's `a < b` compares UTF-16 code units, which orders
      strings the same way unless they hold characters outside the Basic
      Multilingual Plane; the month and day keys it sorts are ASCII. */
  predicate LexLess(a: string, b: string) {
    if a == [] then b != []
    else if b == [] then false
    else if a[0] != b[0] then a[0] < b[0]
    else LexLess(a[1..], b[1..])
  }

  // ---------------------------------------------------------------------
  // Properties of Trim

  lemma {:induction false} TrimStartOfEdgeless(s: string)
    requires s == [] || !IsWhitespace(s[0])
    ensures TrimStart(s) == s
  {
  }

  lemma {:induction false} TrimEndOfEdgeless(s: string)
    requires s == [] || !IsWhitespace(s[|s| - 1])
    ensures TrimEnd(s) == s
  {
  }

  /** Trim leaves a string without edge white space as it is, so trimming
      twice is trimming once. */
  lemma TrimOfEdgeless(s: string)
    requires NoEdgeWhitespace(s)
    ensures Trim(s) == s
  {
    TrimStartOfEdgeless(s);
    TrimEndOfEdgeless(s);
  }

  /** Trim gives the empty string exactly when `s` is all white space. */
  lemma TrimEmpty(s: string)
    ensures Trim(s) == [] <==> AllWhitespace(s)
  {
    var t := TrimStart(s);
    if Trim(s) == [] {
      assert t == [];
      assert s[..|s|] == s;
    }
  }

  // ---------------------------------------------------------------------
  // Properties of NonWhitespace

  lemma {:induction false} NonWhitespaceAppend(a: string, b: string)
    ensures NonWhitespace(a + b) == NonWhitespace(a) + NonWhitespace(b)
  {
    if a == [] {
      assert a + b == b;
    } else {
      assert (a + b)[1..] == a[1..] + b;
      NonWhitespaceAppend(a[1..], b);
    }
  }

  lemma {:induction false} NonWhitespaceOfWhitespace(s: string)
    requires AllWhitespace(s)
    ensures NonWhitespace(s) == []
  {
    if s != [] {
      NonWhitespaceOfWhitespace(s[1..]);
    }
  }

  /** Dropping white space from both ends keeps every other character. */
  lemma TrimKeepsText(s: string)
    ensures NonWhitespace(Trim(s)) == NonWhitespace(s)
  {
    TrimStartKeepsText(s);
    TrimEndKeepsText(TrimStart(s));
  }

  lemma TrimStartKeepsText(s: string)
    ensures NonWhitespace(TrimStart(s)) == NonWhitespace(s)
  {
    var t := TrimStart(s);
    var k := |s| - |t|;
    assert s == s[..k] + t;
    NonWhitespaceAppend(s[..k], t);
    NonWhitespaceOfWhitespace(s[..k]);
  }

  lemma TrimEndKeepsText(t: string)
    ensures NonWhitespace(TrimEnd(t)) == NonWhitespace(t)
  {
    var r := TrimEnd(t);
    assert t == r + t[|r|..];
    NonWhitespaceAppend(r, t[|r|..]);
    NonWhitespaceOfWhitespace(t[|r|..]);
  }


  /** Collapsing runs of white space keeps every other character. */
  lemma {:induction false} CollapseKeepsText(s: string)
    ensures NonWhitespace(Collapse(s)) == NonWhitespace(s)
    decreases |s|
  {
    if s == [] {
    } else if IsWhitespace(s[0]) {
      var rest := TrimStart(s);
      var k := |s| - |rest|;
      assert s == s[..k] + rest;
      NonWhitespaceAppend(s[..k], rest);
      NonWhitespaceOfWhitespace(s[..k]);
      NonWhitespaceAppend([' '], Collapse(rest));
      if rest != [] {
        CollapseKeepsText(rest);
      }
    } else {
      NonWhitespaceAppend([s[0]], Collapse(s[1..]));
      NonWhitespaceAppend([s[0]], s[1..]);
      assert s == [s[0]] + s[1..];
      CollapseKeepsText(s[1..]);
    }
  }

  /** A string whose white space is single spaces already is unchanged by the
      collapse. */
  lemma {:induction false} CollapseOfCollapsed(s: string)
    requires NoDoubleWhitespace(s) && OnlySpaces(s)
    ensures Collapse(s) == s
    decreases |s|
  {
    if s != [] {
      SpacingTail(s);
      if IsWhitespace(s[0]) {
        if |s| > 1 {
          assert !IsWhitespace(s[1]);
          assert TrimStart(s[1..]) == s[1..];
        }
        assert TrimStart(s) == s[1..];
      }
      CollapseOfCollapsed(s[1..]);
      assert s == [s[0]] + s[1..];
    }
  }

  lemma SpacingTail(s: string)
    requires s != [] && NoDoubleWhitespace(s) && OnlySpaces(s)
    ensures NoDoubleWhitespace(s[1..]) && OnlySpaces(s[1..])
  {
    forall i | 0 <= i < |s| - 1 ensures s[1..][i] == s[i + 1] {
    }
  }

  // ---------------------------------------------------------------------
  // Properties of LexLess

  lemma {:induction false} LexLessAsymmetric(a: string, b: string)
    requires LexLess(a, b)
    ensures !LexLess(b, a)
  {
    if a != [] && b != [] && a[0] == b[0] {
      LexLessAsymmetric(a[1..], b[1..]);
    }
  }

  lemma {:induction false} LexLessTransitive(a: string, b: string, c: string)
    requires LexLess(a, b) && LexLess(b, c)
    ensures LexLess(a, c)
  {
    if a != [] && b != [] && c != [] && a[0] == b[0] && b[0] == c[0] {
      LexLessTransitive(a[1..], b[1..], c[1..]);
    }
  }

  lemma {:induction false} LexLessTotal(a: string, b: string)
    requires a != b
    ensures LexLess(a, b) || LexLess(b, a)
  {
    if a != [] && b != [] && a[0] == b[0] {
      assert a == [a[0]] + a[1..] && b == [b[0]] + b[1..];
      LexLessTotal(a[1..], b[1..]);
    }
  }
}
