/** Category labels of the ledger (app/composables/useLedger.ts): the label
    normaliser, the default list, and the sorted, duplicate-free label sets
    built by `registerCategory`, the hydration merge and
    `availableCategories`. */
module Categories {
  import opened JsText
  import opened Sorting

  /** The built-in labels, in the order the source lists them. */
  const DefaultCategories: seq<string> := [
    "Salary", "Savings", "Rent", "Groceries", "Dining", "Transport",
    "Utilities", "Healthcare", "Subscriptions", "Lifestyle", "Gifts", "Education"
  ]

  /** The label used when a stored entry has no category. */
  const FallbackCategory: string := "Misc"

  /** `normaliseCategory`: `value.trim().replace(/\s+/g, ' ')`. */
  function NormaliseCategory(value: string): (r: string)
    ensures |r| <= |value|
  {
    Collapse(Trim(value))
  }

  /** The shape every normalised label has. */
  predicate IsNormalLabel(s: string) {
    NoEdgeWhitespace(s) && NoDoubleWhitespace(s) && OnlySpaces(s)
  }

  /** A normalised label has no white space at either end, never two white
      space characters in a row, and no white space other than spaces. */
  lemma NormaliseCategoryShape(value: string)
    ensures IsNormalLabel(NormaliseCategory(value))
  {
    CollapseOfEdgeless(Trim(value));
  }

  /** Collapsing text without white space at its ends gives a normal label. */
  lemma CollapseOfEdgeless(t: string)
    requires NoEdgeWhitespace(t)
    ensures IsNormalLabel(Collapse(t))
  {
    if t != [] {
      CollapseFirst(t);
      CollapseLast(t);
    }
    CollapseSpacing(t);
  }

  /** Normalisation only touches white space: the other characters survive in
      order. */
  lemma NormaliseCategoryKeepsText(value: string)
    ensures NonWhitespace(NormaliseCategory(value)) == NonWhitespace(value)
  {
    TrimKeepsText(value);
    CollapseKeepsText(Trim(value));
  }

  /** The normalised label is empty exactly when the input is all white
      space. */
  lemma NormaliseCategoryEmpty(value: string)
    ensures NormaliseCategory(value) == [] <==> AllWhitespace(value)
  {
    TrimEmpty(value);
    CollapseEmpty(Trim(value));
  }

  /** The labels normalisation leaves unchanged are exactly the normal
      ones. */
  lemma NormalLabelIsFixedPoint(s: string)
    ensures IsNormalLabel(s) <==> NormaliseCategory(s) == s
  {
    NormaliseCategoryShape(s);
    if IsNormalLabel(s) {
      TrimOfEdgeless(s);
      CollapseOfCollapsed(s);
    }
  }

  /** Normalising twice is normalising once. */
  lemma NormaliseCategoryIdempotent(value: string)
    ensures NormaliseCategory(NormaliseCategory(value)) == NormaliseCategory(value)
  {
    NormaliseCategoryShape(value);
    NormalLabelIsFixedPoint(NormaliseCategory(value));
  }

  // ---------------------------------------------------------------------
  // Label sets

  /** `Array.from(new Set(labels))`: first occurrences, in order. */
  function Dedup(labels: seq<string>): (r: seq<string>)
    ensures Distinct(r)
    ensures forall x :: x in r <==> x in labels
  {
    if labels == [] then []
    else
      var d := Dedup(labels[..|labels| - 1]);
      var last := labels[|labels| - 1];
      assert labels == labels[..|labels| - 1] + [last];
      if last in d then d else d + [last]
  }

  /** `.filter(Boolean)` on strings: drops the empty label. */
  function NonEmptyLabels(labels: seq<string>): (r: seq<string>)
    ensures forall x :: x in r <==> x in labels && x != []
    ensures Distinct(labels) ==> Distinct(r)
  {
    if labels == [] then []
    else
      var init := labels[..|labels| - 1];
      var rest := NonEmptyLabels(init);
      var last := labels[|labels| - 1];
      assert labels == init + [last];
      assert Distinct(labels) ==> Distinct(init) && last !in init by {
        if Distinct(labels) {
          forall k | 0 <= k < |init| ensures init[k] != last {
            assert init[k] == labels[k];
          }
        }
      }
      if last == [] then rest else rest + [last]
  }

  /** `Array.from(new Set(labels)).filter(Boolean).sort(collate)`. */
  function SortedLabelSet(labels: seq<string>, collate: (string, string) -> bool): (r: seq<string>)
    ensures Distinct(r)
    ensures forall x :: x in r <==> x in labels && x != []
  {
    var n := NonEmptyLabels(Dedup(labels));
    var r := SortBy(n, collate);
    DistinctByMultiset(n, r);
    forall x ensures x in r <==> x in n {
      assert x in r <==> x in multiset(r);
      assert x in n <==> x in multiset(n);
    }
    r
  }

  /** A label set is ordered by the collation whenever the collation is a
      consistent order. */
  lemma SortedLabelSetSorted(labels: seq<string>, collate: (string, string) -> bool)
    requires TotalPreorder(collate)
    ensures Sorted(SortedLabelSet(labels, collate), collate)
  {
    SortBySorted(NonEmptyLabels(Dedup(labels)), collate);
  }

  /** The list `registerCategory` leaves behind. */
  function Registered(user: seq<string>, category: string, collate: (string, string) -> bool): (r: seq<string>)
    ensures NormaliseCategory(category) != [] ==> NormaliseCategory(category) in r
    ensures multiset(r) == if NormaliseCategory(category) == [] || NormaliseCategory(category) in user
                           then multiset(user) else multiset(user) + multiset{NormaliseCategory(category)}
    ensures NormaliseCategory(category) == [] || NormaliseCategory(category) in user ==> r == user
  {
    var newLabel := NormaliseCategory(category);
    if newLabel == [] || newLabel in user then user
    else
      assert newLabel in multiset(user + [newLabel]);
      SortBy(user + [newLabel], collate)
  }

  /** Registering keeps a label list that is ordered and free of duplicates
      in that state. */
  lemma RegisteredKeepsSortedDistinct(user: seq<string>, category: string, collate: (string, string) -> bool)
    requires TotalPreorder(collate)
    requires Sorted(user, collate) && Distinct(user)
    ensures Sorted(Registered(user, category, collate), collate)
    ensures Distinct(Registered(user, category, collate))
  {
    var newLabel := NormaliseCategory(category);
    if newLabel != [] && newLabel !in user {
      InsertKeepsSortedDistinct(user, newLabel, collate);
    }
  }

  /** Adding a new label and sorting keeps the list ordered and free of
      duplicates. */
  lemma InsertKeepsSortedDistinct(user: seq<string>, x: string, collate: (string, string) -> bool)
    requires TotalPreorder(collate)
    requires Distinct(user) && x !in user
    ensures Sorted(SortBy(user + [x], collate), collate)
    ensures Distinct(SortBy(user + [x], collate))
  {
    SortBySorted(user + [x], collate);
    assert Distinct(user + [x]);
    DistinctByMultiset(user + [x], SortBy(user + [x], collate));
  }

  /** The user list after the hydration merge: the current list and the
      normalised stored labels, duplicates and empty labels removed, sorted. */
  function MergeCategories(user: seq<string>, stored: seq<string>, collate: (string, string) -> bool): (r: seq<string>)
    ensures Distinct(r)
    ensures forall x :: x in r <==> x != [] && (x in user || exists i :: 0 <= i < |stored| && NormaliseCategory(stored[i]) == x)
  {
    var normalised := seq(|stored|, i requires 0 <= i < |stored| => NormaliseCategory(stored[i]));
    forall x | x in normalised
      ensures exists i :: 0 <= i < |stored| && NormaliseCategory(stored[i]) == x
    {
      var i :| 0 <= i < |normalised| && normalised[i] == x;
      assert NormaliseCategory(stored[i]) == x;
    }
    forall i | 0 <= i < |stored|
      ensures NormaliseCategory(stored[i]) in normalised
    {
      assert normalised[i] == NormaliseCategory(stored[i]);
    }
    SortedLabelSet(user + normalised, collate)
  }

  /** `"  Dining   Out "` is stored as `"Dining Out"`. */
  lemma DiningOutExample()
    ensures NormaliseCategory("  Dining   Out ") == "Dining Out"
  {
    DiningOutPieces();
    TwoWords("  ", "Dining", "   ", "Out", " ");
    DiningOutJoined();
  }

  lemma DiningOutPieces()
    ensures "  Dining   Out " == "  " + "Dining" + "   " + "Out" + " "
    ensures AllWhitespace("  ") && AllWhitespace("   ") && AllWhitespace(" ")
    ensures forall i :: 0 <= i < |"Dining"| ==> !IsWhitespace("Dining"[i])
    ensures forall i :: 0 <= i < |"Out"| ==> !IsWhitespace("Out"[i])
  {
  }

  lemma DiningOutJoined()
    ensures "Dining" + " " + "Out" == "Dining Out"
  {
  }

  /** Two words with white space before, between and after them normalise
      to the two words joined by one space. */
  lemma TwoWords(a: string, w1: string, b: string, w2: string, c: string)
    requires AllWhitespace(a) && AllWhitespace(b) && AllWhitespace(c) && b != []
    requires w1 != [] && w2 != []
    requires forall i :: 0 <= i < |w1| ==> !IsWhitespace(w1[i])
    requires forall i :: 0 <= i < |w2| ==> !IsWhitespace(w2[i])
    ensures NormaliseCategory(a + w1 + b + w2 + c) == w1 + " " + w2
  {
    var middle := w1 + b + w2;
    ConcatFacts(a, w1, b, w2, c);
    TrimAround(a, middle, c);
    calc {
      NormaliseCategory(a + w1 + b + w2 + c);
      Collapse(middle);
      Collapse(w1 + (b + w2));
      { CollapseAfterWord(w1, b + w2); }
      w1 + Collapse(b + w2);
      { CollapseSeparator(b, w2); }
      w1 + ([' '] + w2);
      w1 + " " + w2;
    }
  }

  lemma ConcatFacts(a: string, w1: string, b: string, w2: string, c: string)
    requires w1 != [] && w2 != []
    ensures a + w1 + b + w2 + c == a + (w1 + b + w2) + c
    ensures w1 + b + w2 == w1 + (b + w2)
    ensures (w1 + b + w2)[0] == w1[0] && (w1 + b + w2)[|w1 + b + w2| - 1] == w2[|w2| - 1]
    ensures w1 + ([' '] + w2) == w1 + " " + w2
  {
  }

  lemma TrimAround(a: string, t: string, c: string)
    requires AllWhitespace(a) && AllWhitespace(c)
    requires t != [] && !IsWhitespace(t[0]) && !IsWhitespace(t[|t| - 1])
    ensures Trim(a + t + c) == t
  {
    assert a + t + c == a + (t + c);
    assert (t + c)[0] == t[0];
    TrimStartAfterWhitespace(a, t + c);
    TrimEndBeforeWhitespace(t, c);
  }

  lemma CollapseSeparator(b: string, w: string)
    requires AllWhitespace(b) && b != []
    requires w != [] && forall i :: 0 <= i < |w| ==> !IsWhitespace(w[i])
    ensures Collapse(b + w) == [' '] + w
  {
    TrimStartAfterWhitespace(b, w);
    assert (b + w)[0] == b[0];
    assert Collapse(b + w) == [' '] + Collapse(w);
    CollapseOfCollapsed(w);
  }

  lemma {:induction false} TrimStartAfterWhitespace(a: string, t: string)
    requires AllWhitespace(a)
    requires t == [] || !IsWhitespace(t[0])
    ensures TrimStart(a + t) == t
  {
    if a == [] {
      assert a + t == t;
      TrimStartOfEdgeless(t);
    } else {
      assert (a + t)[0] == a[0];
      assert (a + t)[1..] == a[1..] + t;
      assert AllWhitespace(a[1..]) by {
        assert forall i :: 0 <= i < |a| - 1 ==> a[1..][i] == a[i + 1];
      }
      TrimStartAfterWhitespace(a[1..], t);
    }
  }

  lemma {:induction false} TrimEndBeforeWhitespace(t: string, c: string)
    requires AllWhitespace(c)
    requires t == [] || !IsWhitespace(t[|t| - 1])
    ensures TrimEnd(t + c) == t
  {
    if c == [] {
      assert t + c == t;
      TrimEndOfEdgeless(t);
    } else {
      var init := c[..|c| - 1];
      assert (t + c)[|t + c| - 1] == c[|c| - 1];
      assert (t + c)[..|t + c| - 1] == t + init;
      assert AllWhitespace(init) by {
        assert forall i :: 0 <= i < |init| ==> init[i] == c[i];
      }
      TrimEndBeforeWhitespace(t, init);
    }
  }

  /** Collapsing a word followed by anything keeps the word. */
  lemma {:induction false} CollapseAfterWord(w: string, rest: string)
    requires forall i :: 0 <= i < |w| ==> !IsWhitespace(w[i])
    ensures Collapse(w + rest) == w + Collapse(rest)
  {
    if w == [] {
      assert w + rest == rest;
    } else {
      WordTail(w);
      ConsSplit(w, rest, Collapse(rest));
      CollapseCons(w[0], w[1..] + rest);
      CollapseAfterWord(w[1..], rest);
    }
  }

  lemma WordTail(w: string)
    requires w != [] && forall i :: 0 <= i < |w| ==> !IsWhitespace(w[i])
    ensures !IsWhitespace(w[0]) && forall i :: 0 <= i < |w[1..]| ==> !IsWhitespace(w[1..][i])
  {
    forall i | 0 <= i < |w[1..]| ensures w[1..][i] == w[i + 1] {
    }
  }

  lemma ConsSplit(w: string, rest: string, tail: string)
    requires w != []
    ensures w + rest == [w[0]] + (w[1..] + rest)
    ensures [w[0]] + (w[1..] + tail) == w + tail
  {
    assert w == [w[0]] + w[1..];
  }

  lemma CollapseCons(c: char, t: string)
    requires !IsWhitespace(c)
    ensures Collapse([c] + t) == [c] + Collapse(t)
  {
    assert ([c] + t)[1..] == t;
  }

  /** A word: non-empty and free of white space. */
  predicate IsWord(w: string) {
    w != [] && forall i :: 0 <= i < |w| ==> !IsWhitespace(w[i])
  }

  /** The words `ws` with the white space `gaps[k]` between `ws[k]` and
      `ws[k + 1]`. */
  function Spaced(ws: seq<string>, gaps: seq<string>): string
    requires |ws| >= 1 && |gaps| == |ws| - 1
    decreases |ws|
  {
    if |ws| == 1 then ws[0] else ws[0] + gaps[0] + Spaced(ws[1..], gaps[1..])
  }

  /** `ws.join(' ')`. */
  function JoinWords(ws: seq<string>): string
    requires |ws| >= 1
    decreases |ws|
  {
    if |ws| == 1 then ws[0] else ws[0] + " " + JoinWords(ws[1..])
  }

  /** Any number of words, with any non-empty white space between them and
      any white space around them, normalise to the words joined by single
      spaces. */
  lemma Words(a: string, ws: seq<string>, gaps: seq<string>, c: string)
    requires AllWhitespace(a) && AllWhitespace(c)
    requires |ws| >= 1 && |gaps| == |ws| - 1
    requires forall k :: 0 <= k < |ws| ==> IsWord(ws[k])
    requires forall k :: 0 <= k < |gaps| ==> gaps[k] != [] && AllWhitespace(gaps[k])
    ensures NormaliseCategory(a + Spaced(ws, gaps) + c) == JoinWords(ws)
  {
    SpacedEdges(ws, gaps);
    TrimAround(a, Spaced(ws, gaps), c);
    CollapseSpaced(ws, gaps);
  }

  lemma {:induction false} SpacedEdges(ws: seq<string>, gaps: seq<string>)
    requires |ws| >= 1 && |gaps| == |ws| - 1
    requires forall k :: 0 <= k < |ws| ==> IsWord(ws[k])
    ensures var t := Spaced(ws, gaps); t != [] && !IsWhitespace(t[0]) && !IsWhitespace(t[|t| - 1])
    decreases |ws|
  {
    if |ws| > 1 {
      assert IsWord(ws[0]);
      TailWords(ws, gaps);
      SpacedEdges(ws[1..], gaps[1..]);
      var rest := Spaced(ws[1..], gaps[1..]);
      var t := ws[0] + gaps[0] + rest;
      assert t[0] == ws[0][0];
      assert t[|t| - 1] == rest[|rest| - 1];
    }
  }

  lemma TailWords(ws: seq<string>, gaps: seq<string>)
    requires |ws| > 1 && |gaps| == |ws| - 1
    requires forall k :: 0 <= k < |ws| ==> IsWord(ws[k])
    ensures forall k :: 0 <= k < |ws[1..]| ==> IsWord(ws[1..][k])
  {
    forall k | 0 <= k < |ws[1..]| ensures IsWord(ws[1..][k]) {
      assert ws[1..][k] == ws[k + 1];
    }
  }

  lemma TailGaps(gaps: seq<string>)
    requires |gaps| > 0
    requires forall k :: 0 <= k < |gaps| ==> gaps[k] != [] && AllWhitespace(gaps[k])
    ensures forall k :: 0 <= k < |gaps[1..]| ==> gaps[1..][k] != [] && AllWhitespace(gaps[1..][k])
  {
    forall k | 0 <= k < |gaps[1..]| ensures gaps[1..][k] == gaps[k + 1] {
    }
  }

  lemma {:induction false} CollapseSpaced(ws: seq<string>, gaps: seq<string>)
    requires |ws| >= 1 && |gaps| == |ws| - 1
    requires forall k :: 0 <= k < |ws| ==> IsWord(ws[k])
    requires forall k :: 0 <= k < |gaps| ==> gaps[k] != [] && AllWhitespace(gaps[k])
    ensures Collapse(Spaced(ws, gaps)) == JoinWords(ws)
    decreases |ws|
  {
    assert IsWord(ws[0]);
    if |ws| == 1 {
      CollapseAfterWord(ws[0], []);
      assert ws[0] + [] == ws[0];
    } else {
      TailWords(ws, gaps);
      TailGaps(gaps);
      var rest := Spaced(ws[1..], gaps[1..]);
      SpacedEdges(ws[1..], gaps[1..]);
      CollapseSpaced(ws[1..], gaps[1..]);
      assert ws[0] + gaps[0] + rest == ws[0] + (gaps[0] + rest);
      CollapseAfterWord(ws[0], gaps[0] + rest);
      CollapseGap(gaps[0], rest);
      assert ws[0] + ([' '] + JoinWords(ws[1..])) == ws[0] + " " + JoinWords(ws[1..]);
    }
  }

  /** A run of white space before text that starts with a non-space
      collapses to one space. */
  lemma CollapseGap(b: string, t: string)
    requires b != [] && AllWhitespace(b)
    requires t != [] && !IsWhitespace(t[0])
    ensures Collapse(b + t) == [' '] + Collapse(t)
  {
    TrimStartAfterWhitespace(b, t);
    assert (b + t)[0] == b[0];
  }
}
