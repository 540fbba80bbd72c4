/** The derived views of the ledger (app/composables/useLedger.ts): the
    newest-first list, the running totals, the month summaries, the day
    groups and the list of available categories. */
module LedgerAggregates {
  import opened JsText
  import opened Sorting
  import opened Categories
  import opened LedgerEntries

  // ---------------------------------------------------------------------
  // The newest-first view

  /** The comparator of `sortedTransactions`, `b - a` on the instants: the
      later entry goes first, entries at the same instant keep their order. */
  predicate NewerFirst(a: Entry, b: Entry) {
    a.timestamp >= b.timestamp
  }

  lemma NewerFirstIsPreorder()
    ensures TotalPreorder(NewerFirst)
  {
  }

  /** `sortedTransactions`: the same entries, latest first. */
  function SortedTransactions(es: seq<Entry>): (r: seq<Entry>)
    ensures |r| == |es| && multiset(r) == multiset(es)
    ensures forall i, j :: 0 <= i < j < |r| ==> r[i].timestamp >= r[j].timestamp
  {
    NewerFirstIsPreorder();
    SortBySorted(es, NewerFirst);
    SortBy(es, NewerFirst)
  }

  // ---------------------------------------------------------------------
  // Sums

  /** The sum of the amounts of the income entries (`income`) or of all the
      other entries (`!income`), which is what the accumulator collects. */
  function Sum(es: seq<Entry>, income: bool): real {
    if es == [] then 0.0
    else Sum(es[..|es| - 1], income) + Share(es[|es| - 1], income)
  }

  /** What one entry adds to the income or to the expense side. */
  function Share(e: Entry, income: bool): real {
    if IsIncome(e) == income then e.amount else 0.0
  }

  lemma SumSnoc(es: seq<Entry>, e: Entry, income: bool)
    ensures Sum(es + [e], income) == Sum(es, income) + Share(e, income)
  {
    assert (es + [e])[..|es|] == es;
  }

  /** Both sums over one more element of `s`. */
  lemma SumPrefixStep(s: seq<Entry>, i: nat)
    requires i < |s|
    ensures Sum(s[..i + 1], true) == Sum(s[..i], true) + Share(s[i], true)
    ensures Sum(s[..i + 1], false) == Sum(s[..i], false) + Share(s[i], false)
  {
    assert s[..i + 1][..i] == s[..i];
  }

  /** Summing the sorted view is summing the list. */
  lemma SumsOfSorted(es: seq<Entry>)
    ensures Sum(SortedTransactions(es)[..|es|], true) == Sum(es, true)
    ensures Sum(SortedTransactions(es)[..|es|], false) == Sum(es, false)
  {
    var sorted := SortedTransactions(es);
    assert sorted[..|es|] == sorted;
    SumPermutation(sorted, es, true);
    SumPermutation(sorted, es, false);
  }

  /** Sums add up over concatenation. */
  lemma {:induction false} SumAppend(a: seq<Entry>, b: seq<Entry>, income: bool)
    ensures Sum(a + b, income) == Sum(a, income) + Sum(b, income)
    decreases |b|
  {
    if b != [] {
      var init := b[..|b| - 1];
      SumAppend(a, init, income);
      assert a + b == (a + init) + [b[|b| - 1]];
      SumSnoc(a + init, b[|b| - 1], income);
    } else {
      assert a + b == a;
    }
  }

  /** The order of the entries does not matter to a sum. */
  lemma {:induction false} SumPermutation(a: seq<Entry>, b: seq<Entry>, income: bool)
    requires multiset(a) == multiset(b)
    ensures Sum(a, income) == Sum(b, income)
    decreases |a|
  {
    if a != [] {
      var x := a[|a| - 1];
      assert x in multiset(b);
      var k :| 0 <= k < |b| && b[k] == x;
      RemoveMatching(a, b, k);
      SumPermutation(a[..|a| - 1], b[..k] + b[k + 1..], income);
      SumRemove(b, k, income);
    } else {
      assert b == [];
    }
  }

  lemma SumRemove(b: seq<Entry>, k: nat, income: bool)
    requires k < |b|
    ensures Sum(b, income) == Sum(b[..k] + b[k + 1..], income) + Share(b[k], income)
  {
    assert b == (b[..k] + [b[k]]) + b[k + 1..];
    SumAppend(b[..k] + [b[k]], b[k + 1..], income);
    SumSnoc(b[..k], b[k], income);
    SumAppend(b[..k], b[k + 1..], income);
  }

  // ---------------------------------------------------------------------
  // Totals

  datatype Totals = Totals(income: real, expenses: real, net: real)

  /** `totals`: the running accumulator over the newest-first view. Income
      is the sum of the income entries, expenses the sum of all the others,
      whatever their `type`, and `net` is their difference. */
  method ComputeTotals(es: seq<Entry>) returns (t: Totals)
    ensures t.income == Sum(es, true) && t.expenses == Sum(es, false)
    ensures t.net == t.income - t.expenses
    ensures es == [] ==> t == Totals(0.0, 0.0, 0.0)
  {
    var sorted := SortedTransactions(es);
    var income, expenses, net := 0.0, 0.0, 0.0;
    for i := 0 to |sorted|
      invariant income == Sum(sorted[..i], true) && expenses == Sum(sorted[..i], false)
      invariant net == income - expenses
    {
      SumPrefixStep(sorted, i);
      if IsIncome(sorted[i]) {
        income := income + sorted[i].amount;
      } else {
        expenses := expenses + sorted[i].amount;
      }
      net := income - expenses;
    }
    SumsOfSorted(es);
    t := Totals(income, expenses, net);
  }

  /** Every entry counts exactly once, on one side or the other: together
      the two sides hold all of the amounts. */
  lemma {:induction false} SidesCoverAll(es: seq<Entry>)
    ensures Sum(es, true) + Sum(es, false) == Amounts(es)
  {
    if es != [] {
      SidesCoverAll(es[..|es| - 1]);
    }
  }

  /** The total of all the amounts. */
  function Amounts(es: seq<Entry>): real {
    if es == [] then 0.0 else Amounts(es[..|es| - 1]) + es[|es| - 1].amount
  }

  // ---------------------------------------------------------------------
  // Grouping by key

  /** The entries whose key (`toMonthKey` or `toDayKey` of their instant) is
      `k`, in their original order. */
  function Filter(es: seq<Entry>, keyOf: int -> string, k: string): (r: seq<Entry>)
    ensures |r| <= |es|
  {
    if es == [] then []
    else
      var last := es[|es| - 1];
      Filter(es[..|es| - 1], keyOf, k) + (if keyOf(last.timestamp) == k then [last] else [])
  }

  lemma FilterSnoc(es: seq<Entry>, e: Entry, keyOf: int -> string, k: string)
    ensures Filter(es + [e], keyOf, k) == if keyOf(e.timestamp) == k then Filter(es, keyOf, k) + [e] else Filter(es, keyOf, k)
  {
    assert (es + [e])[..|es|] == es;
  }

  /** Some entry has key `k`. */
  predicate Occurs(es: seq<Entry>, keyOf: int -> string, k: string) {
    exists e :: e in es && keyOf(e.timestamp) == k
  }

  /** A group holds exactly the entries with its key. */
  lemma {:induction false} FilterMembers(es: seq<Entry>, keyOf: int -> string, k: string)
    ensures forall e :: e in Filter(es, keyOf, k) <==> e in es && keyOf(e.timestamp) == k
    ensures Filter(es, keyOf, k) != [] <==> Occurs(es, keyOf, k)
  {
    if es != [] {
      var init := es[..|es| - 1];
      FilterMembers(init, keyOf, k);
      assert es == init + [es[|es| - 1]];
    }
  }

  lemma OccursSnoc(es: seq<Entry>, e: Entry, keyOf: int -> string, k: string)
    ensures Occurs(es + [e], keyOf, k) <==> Occurs(es, keyOf, k) || keyOf(e.timestamp) == k
  {
    if Occurs(es + [e], keyOf, k) {
      var x :| x in es + [e] && keyOf(x.timestamp) == k;
      if x != e {
        assert x in es;
      }
    }
    if keyOf(e.timestamp) == k {
      assert e in es + [e];
    }
    if Occurs(es, keyOf, k) {
      var x :| x in es && keyOf(x.timestamp) == k;
      assert x in es + [e];
    }
  }

  /** Each entry occurs in a group as often as in the ledger, or not at all
      when its key differs. */
  lemma {:induction false} FilterMultiset(es: seq<Entry>, keyOf: int -> string, k: string, e: Entry)
    ensures multiset(Filter(es, keyOf, k))[e] == if keyOf(e.timestamp) == k then multiset(es)[e] else 0
  {
    if es != [] {
      var init := es[..|es| - 1];
      FilterMultiset(init, keyOf, k, e);
      assert es == init + [es[|es| - 1]];
    }
  }

  /** Reordering the ledger reorders each group in the same way. */
  lemma FilterPermutation(a: seq<Entry>, b: seq<Entry>, keyOf: int -> string, k: string)
    requires multiset(a) == multiset(b)
    ensures multiset(Filter(a, keyOf, k)) == multiset(Filter(b, keyOf, k))
  {
    forall e ensures multiset(Filter(a, keyOf, k))[e] == multiset(Filter(b, keyOf, k))[e] {
      FilterMultiset(a, keyOf, k, e);
      FilterMultiset(b, keyOf, k, e);
    }
  }

  /** A group taken from a newest-first list is newest first. */
  lemma {:induction false} FilterSorted(es: seq<Entry>, keyOf: int -> string, k: string)
    requires forall i, j :: 0 <= i < j < |es| ==> es[i].timestamp >= es[j].timestamp
    ensures forall i, j :: 0 <= i < j < |Filter(es, keyOf, k)| ==>
      Filter(es, keyOf, k)[i].timestamp >= Filter(es, keyOf, k)[j].timestamp
  {
    if es != [] {
      var init := es[..|es| - 1];
      assert forall i :: 0 <= i < |init| ==> init[i] == es[i];
      FilterSorted(init, keyOf, k);
      FilterMembers(init, keyOf, k);
      var f := Filter(init, keyOf, k);
      forall e | e in f ensures e.timestamp >= es[|es| - 1].timestamp {
        var i :| 0 <= i < |init| && init[i] == e;
      }
    }
  }

  /** The keys in the order a `Map` first sees them. */
  function KeyOrder(es: seq<Entry>, keyOf: int -> string): seq<string> {
    if es == [] then []
    else
      var ks := KeyOrder(es[..|es| - 1], keyOf);
      var k := keyOf(es[|es| - 1].timestamp);
      if k in ks then ks else ks + [k]
  }

  /** Every key that occurs, each once. */
  lemma {:induction false} KeyOrderFacts(es: seq<Entry>, keyOf: int -> string)
    ensures Distinct(KeyOrder(es, keyOf))
    ensures forall k :: k in KeyOrder(es, keyOf) <==> Occurs(es, keyOf, k)
  {
    if es != [] {
      var init := es[..|es| - 1];
      var last := es[|es| - 1];
      KeyOrderFacts(init, keyOf);
      assert es == init + [last];
      forall k ensures Occurs(es, keyOf, k) <==> Occurs(init, keyOf, k) || keyOf(last.timestamp) == k {
        OccursSnoc(init, last, keyOf, k);
      }
      DistinctSnoc(KeyOrder(init, keyOf), keyOf(last.timestamp));
    }
  }

  // ---------------------------------------------------------------------
  // Month summaries

  /** `Number(x.toFixed(2))` on an exact amount: the nearest multiple of a
      hundredth, a tie going away from zero, and no rounding at all from
      10^21 on, where `toFixed` falls back to the plain number. */
  function RoundCents(x: real): (r: real)
    ensures x >= 0.0 ==> r >= 0.0
    ensures x <= 0.0 ==> r <= 0.0
  {
    if x < 0.0 then -RoundUp(-x) else RoundUp(x)
  }

  function RoundUp(x: real): real {
    if x >= 1_000_000_000_000_000_000_000.0 then x
    else (x * 100.0 + 0.5).Floor as real / 100.0
  }

  /** Rounding moves an amount by at most half a hundredth. */
  lemma RoundCentsClose(x: real)
    ensures -0.005 <= RoundCents(x) - x <= 0.005
  {
  }

  /** An amount already in whole hundredths is left as it is, so rounding
      twice is rounding once. */
  lemma RoundCentsOfCents(n: int)
    ensures RoundCents(n as real / 100.0) == n as real / 100.0
  {
    var x := n as real / 100.0;
    if x < 0.0 {
      assert (-x * 100.0 + 0.5).Floor == -n;
    } else {
      assert (x * 100.0 + 0.5).Floor == n;
    }
  }

  datatype MonthlySummary = MonthlySummary(monthKey: string, income: real, expenses: real, net: real)

  /** The summary of month `k`: its income and expense sums and their
      difference, each rounded to hundredths after summing. */
  function SummaryOf(es: seq<Entry>, monthKeyOf: int -> string, k: string): (m: MonthlySummary)
    ensures m.monthKey == k
  {
    var month := Filter(es, monthKeyOf, k);
    SummaryFrom(k, Sums(Sum(month, true), Sum(month, false)))
  }

  function MonthKeys(r: seq<MonthlySummary>): (ks: seq<string>)
    ensures |ks| == |r| && forall i :: 0 <= i < |r| ==> ks[i] == r[i].monthKey
  {
    if r == [] then [] else MonthKeys(r[..|r| - 1]) + [r[|r| - 1].monthKey]
  }

  /** The comparator of the month list, `a < b ? -1 : 1`; on the distinct
      keys of a map it orders as `<=` does. */
  predicate MonthBefore(a: MonthlySummary, b: MonthlySummary) {
    !LexLess(b.monthKey, a.monthKey)
  }

  lemma MonthBeforeIsPreorder()
    ensures TotalPreorder(MonthBefore)
  {
    forall a: MonthlySummary, b: MonthlySummary ensures MonthBefore(a, b) || MonthBefore(b, a) {
      if LexLess(b.monthKey, a.monthKey) {
        LexLessAsymmetric(b.monthKey, a.monthKey);
      }
    }
    forall a: MonthlySummary, b: MonthlySummary, c: MonthlySummary | MonthBefore(a, b) && MonthBefore(b, c)
      ensures MonthBefore(a, c)
    {
      NotLessTransitive(c.monthKey, b.monthKey, a.monthKey);
    }
  }

  /** `!(b < a)` is transitive. */
  lemma NotLessTransitive(c: string, b: string, a: string)
    requires !LexLess(c, b) && !LexLess(b, a)
    ensures !LexLess(c, a)
  {
    if LexLess(c, a) {
      if a != b && b != c {
        LexLessTotal(a, b);
        LexLessTotal(b, c);
        LexLessTransitive(a, b, c);
        LexLessAsymmetric(a, c);
      }
    }
  }

  /** Sorted rows never have a later month before an earlier one. */
  lemma MonthsAscending(rows: seq<MonthlySummary>)
    ensures forall i, j :: 0 <= i < j < |SortBy(rows, MonthBefore)| ==>
      !LexLess(SortBy(rows, MonthBefore)[j].monthKey, SortBy(rows, MonthBefore)[i].monthKey)
  {
    MonthBeforeIsPreorder();
    SortBySorted(rows, MonthBefore);
  }

  /** The two sums a month bucket holds. */
  datatype Sums = Sums(income: real, expenses: real)

  /** `entry.income += item.amount` or `entry.expenses += item.amount`. */
  function AddTo(s: Sums, e: Entry): (r: Sums)
    ensures r.income == s.income + Share(e, true) && r.expenses == s.expenses + Share(e, false)
  {
    if IsIncome(e) then s.(income := s.income + e.amount) else s.(expenses := s.expenses + e.amount)
  }

  /** The month bucket after the loop has seen `es`. */
  function MonthBuckets(es: seq<Entry>, monthKeyOf: int -> string): map<string, Sums> {
    if es == [] then map[]
    else
      var b := MonthBuckets(es[..|es| - 1], monthKeyOf);
      var item := es[|es| - 1];
      var key := monthKeyOf(item.timestamp);
      b[key := AddTo(if key in b then b[key] else Sums(0.0, 0.0), item)]
  }

  /** The bucket holds one pair of sums per month that occurs: that month's
      income and expense sums. */
  lemma MonthBucketsFacts(es: seq<Entry>, monthKeyOf: int -> string)
    ensures forall k :: k in MonthBuckets(es, monthKeyOf) <==> Occurs(es, monthKeyOf, k)
    ensures forall k :: k in MonthBuckets(es, monthKeyOf) ==>
      MonthBuckets(es, monthKeyOf)[k] == Sums(Sum(Filter(es, monthKeyOf, k), true), Sum(Filter(es, monthKeyOf, k), false))
  {
    forall k {
      MonthBucketAt(es, monthKeyOf, k);
    }
  }

  /** The same, for one month key. */
  lemma {:induction false} MonthBucketAt(es: seq<Entry>, monthKeyOf: int -> string, k: string)
    ensures k in MonthBuckets(es, monthKeyOf) <==> Occurs(es, monthKeyOf, k)
    ensures k in MonthBuckets(es, monthKeyOf) ==>
      MonthBuckets(es, monthKeyOf)[k] == Sums(Sum(Filter(es, monthKeyOf, k), true), Sum(Filter(es, monthKeyOf, k), false))
  {
    if es != [] {
      var init := es[..|es| - 1];
      var item := es[|es| - 1];
      MonthBucketAt(init, monthKeyOf, k);
      var b := MonthBuckets(init, monthKeyOf);
      var key := monthKeyOf(item.timestamp);
      assert MonthBuckets(es, monthKeyOf) == b[key := AddTo(if key in b then b[key] else Sums(0.0, 0.0), item)];
      var f := Filter(init, monthKeyOf, k);
      assert Filter(es, monthKeyOf, k) == f + (if key == k then [item] else []);
      OccursSnoc(init, item, monthKeyOf, k);
      SplitLast(es);
      if key == k {
        FilterMembers(init, monthKeyOf, k);
        BucketHit(b, f, item, k);
        assert Filter(es, monthKeyOf, k) == f + [item];
      } else {
        assert Filter(es, monthKeyOf, k) == f;
        assert k in MonthBuckets(es, monthKeyOf) ==> k in b && MonthBuckets(es, monthKeyOf)[k] == b[k];
      }
    }
  }

  lemma SplitLast(es: seq<Entry>)
    requires es != []
    ensures es == es[..|es| - 1] + [es[|es| - 1]]
  {
  }

  /** Adding an entry to a month's bucket adds it to both of that month's
      sums. */
  lemma BucketHit(b: map<string, Sums>, f: seq<Entry>, item: Entry, k: string)
    requires k in b <==> f != []
    requires k in b ==> b[k] == Sums(Sum(f, true), Sum(f, false))
    ensures AddTo(if k in b then b[k] else Sums(0.0, 0.0), item) == Sums(Sum(f + [item], true), Sum(f + [item], false))
  {
    SumSnoc(f, item, true);
    SumSnoc(f, item, false);
  }

  /** `monthlySummaries`: one summary per month that has entries, ascending
      by month key. */
  method MonthlySummaries(es: seq<Entry>, monthKeyOf: int -> string) returns (r: seq<MonthlySummary>)
    ensures forall i :: 0 <= i < |r| ==> r[i] == SummaryOf(es, monthKeyOf, r[i].monthKey)
    ensures forall k :: k in MonthKeys(r) <==> Occurs(es, monthKeyOf, k)
    ensures forall i, j :: 0 <= i < j < |r| ==> LexLess(r[i].monthKey, r[j].monthKey)
  {
    var sorted := SortedTransactions(es);
    var bucket: map<string, Sums> := map[];
    var keys: seq<string> := [];
    for i := 0 to |sorted|
      invariant bucket == MonthBuckets(sorted[..i], monthKeyOf)
      invariant keys == KeyOrder(sorted[..i], monthKeyOf)
    {
      var item := sorted[i];
      var key := monthKeyOf(item.timestamp);
      var found := if key in bucket then bucket[key] else Sums(0.0, 0.0);
      var entry := found;
      if IsIncome(item) {
        entry := entry.(income := entry.income + item.amount);
      } else {
        entry := entry.(expenses := entry.expenses + item.amount);
      }
      assert entry == AddTo(found, item);
      MonthStep(sorted, monthKeyOf, i);
      if key !in bucket {
        keys := keys + [key];
      }
      bucket := bucket[key := entry];
    }
    assert sorted[..|sorted|] == sorted;
    MonthKeysInBucket(sorted, monthKeyOf);
    var rows := MonthRowsOf(keys, bucket);
    r := SortBy(rows, MonthBefore);
    MonthlyAfterLoop(es, monthKeyOf, keys, bucket, r);
  }

  /** One pass of the month loop. */
  lemma MonthStep(sorted: seq<Entry>, monthKeyOf: int -> string, i: nat)
    requires i < |sorted|
    ensures var b := MonthBuckets(sorted[..i], monthKeyOf);
      var key := monthKeyOf(sorted[i].timestamp);
      MonthBuckets(sorted[..i + 1], monthKeyOf) == b[key := AddTo(if key in b then b[key] else Sums(0.0, 0.0), sorted[i])] &&
      KeyOrder(sorted[..i + 1], monthKeyOf) ==
        if key in b then KeyOrder(sorted[..i], monthKeyOf) else KeyOrder(sorted[..i], monthKeyOf) + [key]
  {
    assert sorted[..i + 1][..i] == sorted[..i];
    MonthKeysMatch(sorted[..i], monthKeyOf, monthKeyOf(sorted[i].timestamp));
  }

  /** The rows built from the bucket, in the bucket's key order. */
  function MonthRowsOf(keys: seq<string>, bucket: map<string, Sums>): (rows: seq<MonthlySummary>)
    requires forall k :: k in keys ==> k in bucket
    ensures |rows| == |keys|
  {
    seq(|keys|, j requires 0 <= j < |keys| => SummaryFrom(keys[j], bucket[keys[j]]))
  }

  /** What the rows, once sorted, are. */
  lemma MonthlyAfterLoop(es: seq<Entry>, monthKeyOf: int -> string, keys: seq<string>, bucket: map<string, Sums>,
                         r: seq<MonthlySummary>)
    requires keys == KeyOrder(SortedTransactions(es), monthKeyOf)
    requires bucket == MonthBuckets(SortedTransactions(es), monthKeyOf)
    requires forall k :: k in keys ==> k in bucket
    requires r == SortBy(MonthRowsOf(keys, bucket), MonthBefore)
    ensures forall i :: 0 <= i < |r| ==> r[i] == SummaryOf(es, monthKeyOf, r[i].monthKey)
    ensures forall k :: k in MonthKeys(r) <==> Occurs(es, monthKeyOf, k)
    ensures forall i, j :: 0 <= i < j < |r| ==> LexLess(r[i].monthKey, r[j].monthKey)
  {
    var rows := MonthRowsOf(keys, bucket);
    MonthRows(es, SortedTransactions(es), monthKeyOf, keys, bucket, rows);
    MonthRowsSorted(es, monthKeyOf, rows, r);
  }


  /** The loop's key list records a month exactly when the bucket has it. */
  lemma MonthKeysMatch(es: seq<Entry>, monthKeyOf: int -> string, k: string)
    ensures k in MonthBuckets(es, monthKeyOf) <==> k in KeyOrder(es, monthKeyOf)
  {
    MonthBucketsFacts(es, monthKeyOf);
    KeyOrderFacts(es, monthKeyOf);
  }

  lemma MonthKeysInBucket(es: seq<Entry>, monthKeyOf: int -> string)
    ensures forall k :: k in KeyOrder(es, monthKeyOf) ==> k in MonthBuckets(es, monthKeyOf)
  {
    forall k | k in KeyOrder(es, monthKeyOf) ensures k in MonthBuckets(es, monthKeyOf) {
      MonthKeysMatch(es, monthKeyOf, k);
    }
  }

  /** The row `Array.from(bucket.entries()).map(...)` makes of one bucket. */
  function SummaryFrom(k: string, s: Sums): (m: MonthlySummary)
    ensures m.monthKey == k && m.net == RoundCents(s.income - s.expenses)
  {
    MonthlySummary(k, RoundCents(s.income), RoundCents(s.expenses), RoundCents(s.income - s.expenses))
  }

  /** Before sorting, the rows are the summaries of the months, each once. */
  lemma MonthRows(es: seq<Entry>, sorted: seq<Entry>, monthKeyOf: int -> string, keys: seq<string>,
                  bucket: map<string, Sums>, rows: seq<MonthlySummary>)
    requires sorted == SortedTransactions(es)
    requires bucket == MonthBuckets(sorted, monthKeyOf) && keys == KeyOrder(sorted, monthKeyOf)
    requires forall k :: k in keys ==> k in bucket
    requires rows == seq(|keys|, j requires 0 <= j < |keys| => SummaryFrom(keys[j], bucket[keys[j]]))
    ensures forall j :: 0 <= j < |rows| ==> rows[j] == SummaryOf(es, monthKeyOf, rows[j].monthKey)
    ensures Distinct(MonthKeys(rows))
    ensures forall k :: k in MonthKeys(rows) <==> Occurs(es, monthKeyOf, k)
  {
    forall j | 0 <= j < |rows| ensures rows[j] == SummaryOf(es, monthKeyOf, rows[j].monthKey) {
      RowIsSummary(es, sorted, monthKeyOf, keys[j]);
    }
    assert MonthKeys(rows) == keys;
    KeyOrderFacts(sorted, monthKeyOf);
    forall k ensures Occurs(sorted, monthKeyOf, k) <==> Occurs(es, monthKeyOf, k) {
      OccursPermutation(sorted, es, monthKeyOf, k);
    }
  }

  /** The row built from a month's bucket is that month's summary. */
  lemma RowIsSummary(es: seq<Entry>, sorted: seq<Entry>, monthKeyOf: int -> string, k: string)
    requires multiset(sorted) == multiset(es)
    requires k in MonthBuckets(sorted, monthKeyOf)
    ensures SummaryFrom(k, MonthBuckets(sorted, monthKeyOf)[k]) == SummaryOf(es, monthKeyOf, k)
  {
    MonthBucketsFacts(sorted, monthKeyOf);
    MonthSumsPermuted(es, sorted, monthKeyOf, k);
  }

  lemma MonthSumsPermuted(es: seq<Entry>, sorted: seq<Entry>, monthKeyOf: int -> string, k: string)
    requires multiset(sorted) == multiset(es)
    ensures Sum(Filter(sorted, monthKeyOf, k), true) == Sum(Filter(es, monthKeyOf, k), true)
    ensures Sum(Filter(sorted, monthKeyOf, k), false) == Sum(Filter(es, monthKeyOf, k), false)
  {
    FilterPermutation(sorted, es, monthKeyOf, k);
    SumPermutation(Filter(sorted, monthKeyOf, k), Filter(es, monthKeyOf, k), true);
    SumPermutation(Filter(sorted, monthKeyOf, k), Filter(es, monthKeyOf, k), false);
  }

  /** Whether a key occurs does not depend on the order of the entries. */
  lemma OccursPermutation(a: seq<Entry>, b: seq<Entry>, keyOf: int -> string, k: string)
    requires multiset(a) == multiset(b)
    ensures Occurs(a, keyOf, k) <==> Occurs(b, keyOf, k)
  {
    if Occurs(a, keyOf, k) {
      var e :| e in a && keyOf(e.timestamp) == k;
      assert e in multiset(b);
    }
    if Occurs(b, keyOf, k) {
      var e :| e in b && keyOf(e.timestamp) == k;
      assert e in multiset(a);
    }
  }

  /** Sorting the rows keeps what each row says and leaves the months in
      strictly ascending order. */
  lemma MonthRowsSorted(es: seq<Entry>, monthKeyOf: int -> string, rows: seq<MonthlySummary>, r: seq<MonthlySummary>)
    requires forall j :: 0 <= j < |rows| ==> rows[j] == SummaryOf(es, monthKeyOf, rows[j].monthKey)
    requires Distinct(MonthKeys(rows))
    requires forall k :: k in MonthKeys(rows) <==> Occurs(es, monthKeyOf, k)
    requires r == SortBy(rows, MonthBefore)
    ensures forall i :: 0 <= i < |r| ==> r[i] == SummaryOf(es, monthKeyOf, r[i].monthKey)
    ensures forall k :: k in MonthKeys(r) <==> Occurs(es, monthKeyOf, k)
    ensures forall i, j :: 0 <= i < j < |r| ==> LexLess(r[i].monthKey, r[j].monthKey)
  {
    SameElements(rows, r);
    MonthKeysOfSame(rows, r);
    MonthRowsDistinct(rows);
    DistinctByMultiset(rows, r);
    forall i | 0 <= i < |r| ensures r[i] == SummaryOf(es, monthKeyOf, r[i].monthKey) {
      assert r[i] in rows;
      var j :| 0 <= j < |rows| && rows[j] == r[i];
    }
    MonthsAscending(rows);
    MonthsStrict(es, monthKeyOf, r);
  }

  lemma MonthKeysOfSame(a: seq<MonthlySummary>, b: seq<MonthlySummary>)
    requires forall x :: x in a <==> x in b
    ensures forall k :: k in MonthKeys(a) <==> k in MonthKeys(b)
  {
    forall k | k in MonthKeys(a) ensures k in MonthKeys(b) {
      var i :| 0 <= i < |a| && MonthKeys(a)[i] == k;
      assert a[i] in b;
      var j :| 0 <= j < |b| && b[j] == a[i];
      assert MonthKeys(b)[j] == k;
    }
    forall k | k in MonthKeys(b) ensures k in MonthKeys(a) {
      var j :| 0 <= j < |b| && MonthKeys(b)[j] == k;
      assert b[j] in a;
      var i :| 0 <= i < |a| && a[i] == b[j];
      assert MonthKeys(a)[i] == k;
    }
  }

  lemma MonthRowsDistinct(rows: seq<MonthlySummary>)
    requires Distinct(MonthKeys(rows))
    ensures Distinct(rows)
  {
    forall a, b | 0 <= a < b < |rows| ensures rows[a] != rows[b] {
      assert MonthKeys(rows)[a] != MonthKeys(rows)[b];
    }
  }

  /** Rows that are in `<=` order, pairwise different, and determined by
      their month are in strictly ascending order. */
  lemma MonthsStrict(es: seq<Entry>, monthKeyOf: int -> string, r: seq<MonthlySummary>)
    requires forall i, j :: 0 <= i < j < |r| ==> !LexLess(r[j].monthKey, r[i].monthKey)
    requires forall i :: 0 <= i < |r| ==> r[i] == SummaryOf(es, monthKeyOf, r[i].monthKey)
    requires Distinct(r)
    ensures forall i, j :: 0 <= i < j < |r| ==> LexLess(r[i].monthKey, r[j].monthKey)
  {
    forall i, j | 0 <= i < j < |r| ensures LexLess(r[i].monthKey, r[j].monthKey) {
      if r[i].monthKey == r[j].monthKey {
        assert false;
      }
      LexLessTotal(r[i].monthKey, r[j].monthKey);
    }
  }

  // ---------------------------------------------------------------------
  // Day groups

  datatype DayGroup = DayGroup(dayKey: string, entries: seq<Entry>)

  function DayKeys(r: seq<DayGroup>): (ks: seq<string>)
    ensures |ks| == |r| && forall i :: 0 <= i < |r| ==> ks[i] == r[i].dayKey
  {
    if r == [] then [] else DayKeys(r[..|r| - 1]) + [r[|r| - 1].dayKey]
  }

  /** All the entries of a list of groups, group after group. */
  function Flatten(gs: seq<DayGroup>): seq<Entry> {
    if gs == [] then [] else Flatten(gs[..|gs| - 1]) + gs[|gs| - 1].entries
  }

  /** The comparator of the day list, `a < b ? 1 : -1`; on distinct keys it
      orders as `>=` does. */
  predicate DayBefore(a: DayGroup, b: DayGroup) {
    !LexLess(a.dayKey, b.dayKey)
  }

  lemma DayBeforeIsPreorder()
    ensures TotalPreorder(DayBefore)
  {
    forall a: DayGroup, b: DayGroup ensures DayBefore(a, b) || DayBefore(b, a) {
      if LexLess(a.dayKey, b.dayKey) {
        LexLessAsymmetric(a.dayKey, b.dayKey);
      }
    }
    forall a: DayGroup, b: DayGroup, c: DayGroup | DayBefore(a, b) && DayBefore(b, c)
      ensures DayBefore(a, c)
    {
      NotLessTransitive(a.dayKey, b.dayKey, c.dayKey);
    }
  }

  /** Sorted groups never have an earlier day before a later one. */
  lemma DaysDescending(groups: seq<DayGroup>)
    ensures forall i, j :: 0 <= i < j < |SortBy(groups, DayBefore)| ==>
      !LexLess(SortBy(groups, DayBefore)[i].dayKey, SortBy(groups, DayBefore)[j].dayKey)
  {
    DayBeforeIsPreorder();
    SortBySorted(groups, DayBefore);
  }

  /** The day bucket after the loop has seen `es`. */
  function DayBuckets(es: seq<Entry>, dayKeyOf: int -> string): map<string, seq<Entry>> {
    if es == [] then map[]
    else
      var b := DayBuckets(es[..|es| - 1], dayKeyOf);
      var item := es[|es| - 1];
      var key := dayKeyOf(item.timestamp);
      b[key := (if key in b then b[key] else []) + [item]]
  }

  /** The bucket holds one group per day that occurs: that day's entries,
      in the order seen. */
  lemma {:induction false} DayBucketsFacts(es: seq<Entry>, dayKeyOf: int -> string)
    ensures forall k :: k in DayBuckets(es, dayKeyOf) <==> Occurs(es, dayKeyOf, k)
    ensures forall k :: k in DayBuckets(es, dayKeyOf) ==> DayBuckets(es, dayKeyOf)[k] == Filter(es, dayKeyOf, k)
  {
    if es != [] {
      var init := es[..|es| - 1];
      var item := es[|es| - 1];
      DayBucketsFacts(init, dayKeyOf);
      assert es == init + [item];
      forall k ensures Occurs(es, dayKeyOf, k) <==> Occurs(init, dayKeyOf, k) || dayKeyOf(item.timestamp) == k {
        OccursSnoc(init, item, dayKeyOf, k);
      }
      FilterMembers(init, dayKeyOf, dayKeyOf(item.timestamp));
    }
  }

  /** `groupedByDay`: one group per day that has entries, latest day first;
      each group holds that day's entries newest first, and together the
      groups hold every entry exactly once. */
  method GroupedByDay(es: seq<Entry>, dayKeyOf: int -> string) returns (r: seq<DayGroup>)
    ensures forall i :: 0 <= i < |r| ==> r[i].entries == Filter(SortedTransactions(es), dayKeyOf, r[i].dayKey)
    ensures forall k :: k in DayKeys(r) <==> Occurs(es, dayKeyOf, k)
    ensures forall i, j :: 0 <= i < j < |r| ==> LexLess(r[j].dayKey, r[i].dayKey)
    ensures forall i, e :: 0 <= i < |r| && e in r[i].entries ==> dayKeyOf(e.timestamp) == r[i].dayKey
    ensures forall i :: 0 <= i < |r| ==> NewestFirst(r[i].entries)
    ensures multiset(Flatten(r)) == multiset(es)
  {
    var sorted := SortedTransactions(es);
    var bucket: map<string, seq<Entry>> := map[];
    var keys: seq<string> := [];
    for i := 0 to |sorted|
      invariant bucket == DayBuckets(sorted[..i], dayKeyOf)
      invariant keys == KeyOrder(sorted[..i], dayKeyOf)
    {
      var item := sorted[i];
      var key := dayKeyOf(item.timestamp);
      var group := if key in bucket then bucket[key] else [];
      group := group + [item];
      DayStep(sorted, dayKeyOf, i);
      if key !in bucket {
        keys := keys + [key];
      }
      bucket := bucket[key := group];
    }
    assert sorted[..|sorted|] == sorted;
    DayKeysInBucket(sorted, dayKeyOf);
    var groups := seq(|keys|, j requires 0 <= j < |keys| => DayGroup(keys[j], SortBy(bucket[keys[j]], NewerFirst)));
    DayGroupsBuilt(sorted, dayKeyOf, keys, bucket, groups);
    r := SortBy(groups, DayBefore);
    DayGroupsSorted(sorted, dayKeyOf, groups, r);
    DayGroupsFinal(es, sorted, dayKeyOf, groups, r);
  }
  /** One pass of the day loop. */
  lemma DayStep(sorted: seq<Entry>, dayKeyOf: int -> string, i: nat)
    requires i < |sorted|
    ensures var b := DayBuckets(sorted[..i], dayKeyOf);
      var key := dayKeyOf(sorted[i].timestamp);
      DayBuckets(sorted[..i + 1], dayKeyOf) == b[key := (if key in b then b[key] else []) + [sorted[i]]] &&
      KeyOrder(sorted[..i + 1], dayKeyOf) ==
        if key in b then KeyOrder(sorted[..i], dayKeyOf) else KeyOrder(sorted[..i], dayKeyOf) + [key]
  {
    assert sorted[..i + 1][..i] == sorted[..i];
    DayKeysMatch(sorted[..i], dayKeyOf, dayKeyOf(sorted[i].timestamp));
  }


  /** The loop's key list records a day exactly when the bucket has it. */
  lemma DayKeysMatch(es: seq<Entry>, dayKeyOf: int -> string, k: string)
    ensures k in DayBuckets(es, dayKeyOf) <==> k in KeyOrder(es, dayKeyOf)
  {
    DayBucketsFacts(es, dayKeyOf);
    KeyOrderFacts(es, dayKeyOf);
  }

  lemma DayKeysInBucket(es: seq<Entry>, dayKeyOf: int -> string)
    ensures forall k :: k in KeyOrder(es, dayKeyOf) ==> k in DayBuckets(es, dayKeyOf)
  {
    forall k | k in KeyOrder(es, dayKeyOf) ensures k in DayBuckets(es, dayKeyOf) {
      DayKeysMatch(es, dayKeyOf, k);
    }
  }

  /** Before sorting, the groups are the days' entries, each day once. */
  lemma DayGroupsBuilt(sorted: seq<Entry>, dayKeyOf: int -> string, keys: seq<string>,
                       bucket: map<string, seq<Entry>>, groups: seq<DayGroup>)
    requires NewestFirst(sorted)
    requires bucket == DayBuckets(sorted, dayKeyOf) && keys == KeyOrder(sorted, dayKeyOf)
    requires forall k :: k in keys ==> k in bucket
    requires groups == seq(|keys|, j requires 0 <= j < |keys| => DayGroup(keys[j], SortBy(bucket[keys[j]], NewerFirst)))
    ensures forall j :: 0 <= j < |groups| ==> groups[j].entries == Filter(sorted, dayKeyOf, groups[j].dayKey)
    ensures Distinct(DayKeys(groups))
    ensures forall k :: k in DayKeys(groups) <==> Occurs(sorted, dayKeyOf, k)
  {
    DayBucketsFacts(sorted, dayKeyOf);
    forall j | 0 <= j < |groups| ensures groups[j].entries == Filter(sorted, dayKeyOf, groups[j].dayKey) {
      FilterSorted(sorted, dayKeyOf, keys[j]);
      SortByOfSorted(bucket[keys[j]], NewerFirst);
    }
    assert DayKeys(groups) == keys;
    KeyOrderFacts(sorted, dayKeyOf);
  }

  /** What the sorted groups say about the ledger itself. */
  lemma DayGroupsFinal(es: seq<Entry>, sorted: seq<Entry>, dayKeyOf: int -> string, groups: seq<DayGroup>, r: seq<DayGroup>)
    requires sorted == SortedTransactions(es)
    requires forall k :: k in DayKeys(groups) <==> Occurs(sorted, dayKeyOf, k)
    requires forall i :: 0 <= i < |r| ==> r[i].entries == Filter(sorted, dayKeyOf, r[i].dayKey)
    requires forall k :: k in DayKeys(r) <==> k in DayKeys(groups)
    requires Distinct(DayKeys(r))
    ensures forall k :: k in DayKeys(r) <==> Occurs(es, dayKeyOf, k)
    ensures forall i, e :: 0 <= i < |r| && e in r[i].entries ==> dayKeyOf(e.timestamp) == r[i].dayKey
    ensures forall i :: 0 <= i < |r| ==> NewestFirst(r[i].entries)
    ensures multiset(Flatten(r)) == multiset(es)
  {
    forall k ensures Occurs(sorted, dayKeyOf, k) <==> Occurs(es, dayKeyOf, k) {
      OccursPermutation(sorted, es, dayKeyOf, k);
    }
    forall i | 0 <= i < |r| ensures NewestFirst(r[i].entries) {
      FilterSorted(sorted, dayKeyOf, r[i].dayKey);
    }
    forall i | 0 <= i < |r| ensures forall e :: e in r[i].entries ==> dayKeyOf(e.timestamp) == r[i].dayKey {
      FilterMembers(sorted, dayKeyOf, r[i].dayKey);
    }
    forall e | e in sorted ensures dayKeyOf(e.timestamp) in DayKeys(r) {
      assert Occurs(sorted, dayKeyOf, dayKeyOf(e.timestamp));
    }
    FlattenCountAll(sorted, dayKeyOf, r);
  }

  /** Newest first, as `sortedTransactions` and each day group are. */
  predicate NewestFirst(es: seq<Entry>) {
    forall a, b :: 0 <= a < b < |es| ==> es[a].timestamp >= es[b].timestamp
  }

  /** Sorting the groups keeps each group and leaves the days in strictly
      descending order. */
  lemma DayGroupsSorted(sorted: seq<Entry>, dayKeyOf: int -> string, groups: seq<DayGroup>, r: seq<DayGroup>)
    requires forall j :: 0 <= j < |groups| ==> groups[j].entries == Filter(sorted, dayKeyOf, groups[j].dayKey)
    requires Distinct(DayKeys(groups))
    requires r == SortBy(groups, DayBefore)
    ensures forall i :: 0 <= i < |r| ==> r[i].entries == Filter(sorted, dayKeyOf, r[i].dayKey)
    ensures forall k :: k in DayKeys(r) <==> k in DayKeys(groups)
    ensures Distinct(DayKeys(r))
    ensures forall i, j :: 0 <= i < j < |r| ==> LexLess(r[j].dayKey, r[i].dayKey)
  {
    SameElements(groups, r);
    DayKeysOfSame(groups, r);
    DayGroupsDistinct(groups);
    DistinctByMultiset(groups, r);
    forall i | 0 <= i < |r| ensures r[i].entries == Filter(sorted, dayKeyOf, r[i].dayKey) {
      assert r[i] in groups;
      var j :| 0 <= j < |groups| && groups[j] == r[i];
    }
    DaysDescending(groups);
    DaysStrict(sorted, dayKeyOf, r);
  }

  lemma DayKeysOfSame(a: seq<DayGroup>, b: seq<DayGroup>)
    requires forall x :: x in a <==> x in b
    ensures forall k :: k in DayKeys(a) <==> k in DayKeys(b)
  {
    forall k | k in DayKeys(a) ensures k in DayKeys(b) {
      var i :| 0 <= i < |a| && DayKeys(a)[i] == k;
      assert a[i] in b;
      var j :| 0 <= j < |b| && b[j] == a[i];
      assert DayKeys(b)[j] == k;
    }
    forall k | k in DayKeys(b) ensures k in DayKeys(a) {
      var j :| 0 <= j < |b| && DayKeys(b)[j] == k;
      assert b[j] in a;
      var i :| 0 <= i < |a| && a[i] == b[j];
      assert DayKeys(a)[i] == k;
    }
  }

  lemma DayGroupsDistinct(groups: seq<DayGroup>)
    requires Distinct(DayKeys(groups))
    ensures Distinct(groups)
  {
    forall a, b | 0 <= a < b < |groups| ensures groups[a] != groups[b] {
      assert DayKeys(groups)[a] != DayKeys(groups)[b];
    }
  }

  /** Groups in `>=` order, pairwise different and determined by their day,
      are in strictly descending order with pairwise different days. */
  lemma DaysStrict(sorted: seq<Entry>, dayKeyOf: int -> string, r: seq<DayGroup>)
    requires forall i, j :: 0 <= i < j < |r| ==> !LexLess(r[i].dayKey, r[j].dayKey)
    requires forall i :: 0 <= i < |r| ==> r[i].entries == Filter(sorted, dayKeyOf, r[i].dayKey)
    requires Distinct(r)
    ensures Distinct(DayKeys(r))
    ensures forall i, j :: 0 <= i < j < |r| ==> LexLess(r[j].dayKey, r[i].dayKey)
  {
    forall i, j | 0 <= i < j < |r| ensures r[i].dayKey != r[j].dayKey {
      if r[i].dayKey == r[j].dayKey {
        assert false;
      }
    }
    forall i, j | 0 <= i < j < |r| ensures LexLess(r[j].dayKey, r[i].dayKey) {
      LexLessTotal(r[i].dayKey, r[j].dayKey);
    }
  }

  /** Groups that filter a list by pairwise different keys covering every
      entry hold exactly the entries of the list. */
  lemma FlattenCountAll(es: seq<Entry>, dayKeyOf: int -> string, r: seq<DayGroup>)
    requires forall i :: 0 <= i < |r| ==> r[i].entries == Filter(es, dayKeyOf, r[i].dayKey)
    requires Distinct(DayKeys(r))
    requires forall e :: e in es ==> dayKeyOf(e.timestamp) in DayKeys(r)
    ensures multiset(Flatten(r)) == multiset(es)
  {
    forall e ensures multiset(Flatten(r))[e] == multiset(es)[e] {
      FlattenCount(es, dayKeyOf, r, e);
    }
  }

  /** How often an entry occurs across filtered groups with pairwise
      different keys: as often as in the list if its key is among them,
      otherwise never. */
  lemma {:induction false} FlattenCount(es: seq<Entry>, dayKeyOf: int -> string, r: seq<DayGroup>, e: Entry)
    requires forall i :: 0 <= i < |r| ==> r[i].entries == Filter(es, dayKeyOf, r[i].dayKey)
    requires Distinct(DayKeys(r))
    ensures multiset(Flatten(r))[e] == if dayKeyOf(e.timestamp) in DayKeys(r) then multiset(es)[e] else 0
  {
    if r != [] {
      var init := r[..|r| - 1];
      var last := r[|r| - 1];
      assert DayKeys(r) == DayKeys(init) + [last.dayKey];
      DistinctSnoc(DayKeys(init), last.dayKey);
      assert forall i :: 0 <= i < |init| ==> init[i] == r[i];
      FlattenCount(es, dayKeyOf, init, e);
      FilterMultiset(es, dayKeyOf, last.dayKey, e);
    }
  }

  // ---------------------------------------------------------------------
  // Available categories

  /** The normalised label of each entry, in order. */
  function EntryLabels(es: seq<Entry>): (labels: seq<string>)
    ensures |labels| == |es|
    ensures forall i :: 0 <= i < |es| ==> labels[i] == NormaliseCategory(es[i].category)
  {
    seq(|es|, i requires 0 <= i < |es| => NormaliseCategory(es[i].category))
  }

  /** A label occurs among the entry labels exactly when some entry has it. */
  lemma EntryLabelsMembers(es: seq<Entry>)
    ensures forall x :: x in EntryLabels(es) <==> exists e :: e in es && NormaliseCategory(e.category) == x
  {
    var labels := EntryLabels(es);
    forall x | x in labels ensures exists e :: e in es && NormaliseCategory(e.category) == x {
      var i :| 0 <= i < |labels| && labels[i] == x;
      assert es[i] in es;
    }
    forall e | e in es ensures NormaliseCategory(e.category) in labels {
      var i :| 0 <= i < |es| && es[i] == e;
      assert labels[i] == NormaliseCategory(e.category);
    }
  }

  /** `availableCategories`: the built-in labels, the user's labels and the
      normalised labels of the entries, without duplicates or the empty
      label, in collation order. */
  function AvailableCategories(user: seq<string>, es: seq<Entry>, collate: (string, string) -> bool): (r: seq<string>)
    ensures Distinct(r)
    ensures forall x :: x in r <==>
      (x != [] && (x in DefaultCategories || x in user || exists e :: e in es && NormaliseCategory(e.category) == x))
  {
    EntryLabelsMembers(es);
    SortedLabelSet(DefaultCategories + user + EntryLabels(es), collate)
  }

  /** The available categories are in collation order. */
  lemma AvailableCategoriesSorted(user: seq<string>, es: seq<Entry>, collate: (string, string) -> bool)
    requires TotalPreorder(collate)
    ensures Sorted(AvailableCategories(user, es, collate), collate)
  {
    SortedLabelSetSorted(DefaultCategories + user + EntryLabels(es), collate);
  }
}
