/** The ledger's state and the operations that change it (`useLedger` in
    app/composables/useLedger.ts): the transaction list and the user's
    category list, the mutations the composable returns, and the hydration
    that runs once the page is mounted. */
module LedgerStore {
  import opened Wrappers
  import opened JsonValue
  import opened Sorting
  import opened Categories
  import opened LedgerEntries

  // ---------------------------------------------------------------------
  // Inputs of the mutations

  /** What `addTransaction` receives: an entry without `id` and `createdAt`.
      `note` may be left out. */
  datatype Payload = Payload(
    kind: Json,
    amount: real,
    category: string,
    note: Option<Json>,
    timestamp: int)

  /** What `updateTransaction` receives: any of the fields but `id`; `None`
      marks a field the patch does not carry. */
  datatype Patch = Patch(
    kind: Option<Json>,
    amount: Option<real>,
    category: Option<string>,
    note: Option<Json>,
    timestamp: Option<int>,
    createdAt: Option<Json>)

  const EmptyPatch: Patch := Patch(None, None, None, None, None, None)

  /** The entry `addTransaction` builds: the payload's fields, a fresh id,
      the creation time and the normalised category. */
  function NewEntry(payload: Payload, freshId: string, createdAt: string): (e: Entry)
    ensures e.id == JStr(freshId) && e.createdAt == JStr(createdAt)
    ensures e.kind == payload.kind && e.amount == payload.amount && e.note == payload.note
    ensures e.timestamp == payload.timestamp
    ensures e.category == NormaliseCategory(payload.category)
  {
    Entry(JStr(freshId), payload.kind, payload.amount, NormaliseCategory(payload.category),
          payload.note, payload.timestamp, JStr(createdAt))
  }

  /** `{ ...item, ...patch }` with the category normalised again. */
  function ApplyPatch(e: Entry, p: Patch): (r: Entry)
    ensures r.id == e.id
    ensures r.kind == p.kind.GetOr(e.kind) && r.amount == p.amount.GetOr(e.amount)
    ensures r.note == (if p.note.Some? then p.note else e.note)
    ensures r.timestamp == p.timestamp.GetOr(e.timestamp) && r.createdAt == p.createdAt.GetOr(e.createdAt)
    ensures r.category == NormaliseCategory(p.category.GetOr(e.category))
  {
    Entry(e.id, p.kind.GetOr(e.kind), p.amount.GetOr(e.amount),
          NormaliseCategory(p.category.GetOr(e.category)),
          if p.note.Some? then p.note else e.note,
          p.timestamp.GetOr(e.timestamp), p.createdAt.GetOr(e.createdAt))
  }

  /** A patched entry carries a normalised category. */
  lemma ApplyPatchNormal(e: Entry, p: Patch)
    ensures IsNormalLabel(ApplyPatch(e, p).category)
  {
    NormaliseCategoryShape(p.category.GetOr(e.category));
  }

  /** A patch that carries nothing leaves a stored entry as it is. */
  lemma ApplyEmptyPatch(e: Entry)
    requires IsNormalLabel(e.category)
    ensures ApplyPatch(e, EmptyPatch) == e
  {
    NormalLabelIsFixedPoint(e.category);
  }

  /** Applying the same patch twice is applying it once. */
  lemma ApplyPatchTwice(e: Entry, p: Patch)
    ensures ApplyPatch(ApplyPatch(e, p), p) == ApplyPatch(e, p)
  {
    PatchedCategoryTwice(e.category, p.category);
  }

  /** The category part of `ApplyPatchTwice`, on strings alone. */
  lemma PatchedCategoryTwice(c: string, q: Option<string>)
    ensures NormaliseCategory(q.GetOr(NormaliseCategory(q.GetOr(c)))) == NormaliseCategory(q.GetOr(c))
  {
    if q.None? {
      NormaliseCategoryIdempotent(c);
    }
  }

  /** Putting a new entry in front keeps every category normalised. */
  lemma PrependNewEntry(payload: Payload, freshId: string, createdAt: string, ts: seq<Entry>)
    requires forall e :: e in ts ==> IsNormalLabel(e.category)
    ensures forall e :: e in [NewEntry(payload, freshId, createdAt)] + ts ==> IsNormalLabel(e.category)
  {
    NormaliseCategoryShape(payload.category);
  }

  /** After `addTransaction` the user list holds its old labels and the new
      entry's normalised category, unless that is empty, and nothing else. */
  lemma AddRegistersCategory(user: seq<string>, payload: Payload, freshId: string, createdAt: string,
                             collate: (string, string) -> bool)
    ensures forall x :: x in Registered(user, NewEntry(payload, freshId, createdAt).category, collate) <==>
      x in user || (x == NormaliseCategory(payload.category) && x != [])
  {
    NormaliseCategoryShape(payload.category);
    RegisteredNormal(user, NewEntry(payload, freshId, createdAt).category, collate);
  }

  // ---------------------------------------------------------------------
  // updateTransaction

  /** Whether the strict comparison `item.id !== id` fails. */
  predicate HasId(e: Entry, id: string) {
    e.id == JStr(id)
  }

  /** The callback of `updateTransaction`'s `map`. */
  function Patched(e: Entry, id: string, p: Patch): (r: Entry)
    ensures r.id == e.id
    ensures !HasId(e, id) ==> r == e
  {
    if HasId(e, id) then ApplyPatch(e, p) else e
  }

  /** The list `updateTransaction` leaves behind. */
  function UpdatedList(ts: seq<Entry>, id: string, p: Patch): (r: seq<Entry>)
    ensures |r| == |ts|
  {
    seq(|ts|, i requires 0 <= i < |ts| => Patched(ts[i], id, p))
  }

  /** Updating keeps the length and every id; entries with another id are
      untouched; entries with the id take the patch. */
  lemma UpdatedListFacts(ts: seq<Entry>, id: string, p: Patch)
    ensures forall i :: 0 <= i < |ts| ==> UpdatedList(ts, id, p)[i].id == ts[i].id
    ensures forall i :: 0 <= i < |ts| && !HasId(ts[i], id) ==> UpdatedList(ts, id, p)[i] == ts[i]
    ensures forall i :: 0 <= i < |ts| && HasId(ts[i], id) ==> UpdatedList(ts, id, p)[i] == ApplyPatch(ts[i], p)
  {
  }

  /** Updating keeps every category in the list normalised. */
  lemma UpdatedListNormal(ts: seq<Entry>, id: string, p: Patch)
    requires forall e :: e in ts ==> IsNormalLabel(e.category)
    ensures forall e :: e in UpdatedList(ts, id, p) ==> IsNormalLabel(e.category)
  {
    var r := UpdatedList(ts, id, p);
    forall e | e in r ensures IsNormalLabel(e.category) {
      var k :| 0 <= k < |r| && r[k] == e;
      if HasId(ts[k], id) {
        ApplyPatchNormal(ts[k], p);
      } else {
        assert ts[k] in ts;
      }
    }
  }

  /** An id no entry carries leaves the list as it is. */
  lemma UpdateAbsentId(ts: seq<Entry>, id: string, p: Patch)
    requires forall i :: 0 <= i < |ts| ==> !HasId(ts[i], id)
    ensures UpdatedList(ts, id, p) == ts
  {
  }

  /** Sending the same patch twice changes nothing the first did not. */
  lemma UpdateTwice(ts: seq<Entry>, id: string, p: Patch)
    ensures UpdatedList(UpdatedList(ts, id, p), id, p) == UpdatedList(ts, id, p)
  {
    var once := UpdatedList(ts, id, p);
    forall i | 0 <= i < |ts|
      ensures UpdatedList(once, id, p)[i] == once[i]
    {
      if HasId(ts[i], id) {
        ApplyPatchTwice(ts[i], p);
      }
    }
  }

  /** The user list after `updateTransaction`: `registerCategory` runs on
      the patched category of each matching entry, in list order. */
  function RegisterMatches(user: seq<string>, ts: seq<Entry>, id: string, p: Patch,
                           collate: (string, string) -> bool): (r: seq<string>)
    ensures multiset(user) <= multiset(r)
    decreases |ts|
  {
    if ts == [] then user
    else
      var before := RegisterMatches(user, ts[..|ts| - 1], id, p, collate);
      var last := ts[|ts| - 1];
      if HasId(last, id) then Registered(before, ApplyPatch(last, p).category, collate) else before
  }

  /** One more entry seen by the update loop. */
  lemma RegisterMatchesStep(user: seq<string>, ts: seq<Entry>, i: nat, id: string, p: Patch,
                            collate: (string, string) -> bool)
    requires i < |ts|
    ensures RegisterMatches(user, ts[..i + 1], id, p, collate) ==
      if HasId(ts[i], id) then Registered(RegisterMatches(user, ts[..i], id, p, collate), ApplyPatch(ts[i], p).category, collate)
      else RegisterMatches(user, ts[..i], id, p, collate)
  {
    assert ts[..i + 1][..i] == ts[..i];
  }

  lemma PrefixSnoc(s: seq<Entry>, i: nat)
    requires i < |s|
    ensures s[..i] + [s[i]] == s[..i + 1]
  {
  }

  /** `registerCategory` called on each label in turn. */
  function RegisterAll(user: seq<string>, labels: seq<string>, collate: (string, string) -> bool): seq<string>
    decreases |labels|
  {
    if labels == [] then user
    else Registered(RegisterAll(user, labels[..|labels| - 1], collate), labels[|labels| - 1], collate)
  }

  /** The update loop registers the matched labels in list order. */
  lemma {:induction false} RegisterMatchesAsFold(user: seq<string>, ts: seq<Entry>, id: string, p: Patch,
                                                 collate: (string, string) -> bool)
    ensures RegisterMatches(user, ts, id, p, collate) == RegisterAll(user, MatchedLabels(ts, id, p), collate)
    decreases |ts|
  {
    if ts != [] {
      var n := |ts| - 1;
      RegisterMatchesAsFold(user, ts[..n], id, p, collate);
      MatchedLabelsSnoc(ts, id, p);
      var labels := MatchedLabels(ts[..n], id, p);
      if HasId(ts[n], id) {
        var c := ApplyPatch(ts[n], p).category;
        assert (labels + [c])[..|labels|] == labels;
      } else {
        assert labels + [] == labels;
      }
    }
  }

  /** Registering a label that is already normal adds exactly that label,
      unless it is empty. */
  lemma RegisteredNormal(user: seq<string>, newLabel: string, collate: (string, string) -> bool)
    requires IsNormalLabel(newLabel)
    ensures forall x :: x in Registered(user, newLabel, collate) <==> x in user || (x == newLabel && newLabel != [])
  {
    NormalLabelIsFixedPoint(newLabel);
    var r := Registered(user, newLabel, collate);
    forall x ensures x in r <==> x in multiset(user) || (x == newLabel && newLabel != []) {
      assert x in r <==> x in multiset(r);
    }
  }

  /** The patched categories of the matching entries, in list order. */
  function MatchedLabels(ts: seq<Entry>, id: string, p: Patch): seq<string> {
    Picked(ts, id, PatchedLabel(p))
  }

  /** The category an entry takes from `p`. */
  function PatchedLabel(p: Patch): Entry -> string {
    (e: Entry) => ApplyPatch(e, p).category
  }

  /** `f` of each entry with the id, in list order. */
  function Picked(ts: seq<Entry>, id: string, f: Entry -> string): seq<string>
    decreases |ts|
  {
    if ts == [] then []
    else
      var last := ts[|ts| - 1];
      Picked(ts[..|ts| - 1], id, f) + (if HasId(last, id) then [f(last)] else [])
  }

  /** Every matching entry contributes its patched category. */
  lemma MatchedLabelsComplete(ts: seq<Entry>, id: string, p: Patch)
    ensures forall k :: 0 <= k < |ts| && HasId(ts[k], id) ==> ApplyPatch(ts[k], p).category in MatchedLabels(ts, id, p)
  {
    forall k | 0 <= k < |ts| && HasId(ts[k], id) {
      PickedAt(ts, id, PatchedLabel(p), k);
    }
  }

  /** `f` of the entry at position `k` is picked when it has the id. */
  lemma {:induction false} PickedAt(ts: seq<Entry>, id: string, f: Entry -> string, k: nat)
    requires k < |ts| && HasId(ts[k], id)
    ensures f(ts[k]) in Picked(ts, id, f)
    decreases |ts|
  {
    var n := |ts| - 1;
    var init := ts[..n];
    if k < n {
      assert init[k] == ts[k];
      PickedAt(init, id, f, k);
    }
  }

  /** Every contributed label is normal. */
  lemma MatchedLabelsNormal(ts: seq<Entry>, id: string, p: Patch)
    ensures forall x :: x in MatchedLabels(ts, id, p) ==> IsNormalLabel(x)
  {
    var f := PatchedLabel(p);
    forall e ensures IsNormalLabel(f(e)) {
      PatchedLabelNormal(e, p);
    }
    PickedNormal(ts, id, f);
  }

  /** Whatever is picked by a label function with normal results is normal. */
  lemma {:induction false} PickedNormal(ts: seq<Entry>, id: string, f: Entry -> string)
    requires forall e :: IsNormalLabel(f(e))
    ensures forall x :: x in Picked(ts, id, f) ==> IsNormalLabel(x)
    decreases |ts|
  {
    if ts != [] {
      PickedNormal(ts[..|ts| - 1], id, f);
    }
  }

  lemma PatchedLabelNormal(e: Entry, p: Patch)
    ensures IsNormalLabel(PatchedLabel(p)(e))
  {
    ApplyPatchNormal(e, p);
  }

  /** The labels of a list are those of all but its last entry, then the
      last entry's when it has the id. */
  lemma MatchedLabelsSnoc(ts: seq<Entry>, id: string, p: Patch)
    requires ts != []
    ensures MatchedLabels(ts, id, p) == MatchedLabels(ts[..|ts| - 1], id, p) +
      (if HasId(ts[|ts| - 1], id) then [ApplyPatch(ts[|ts| - 1], p).category] else [])
  {
    assert PatchedLabel(p)(ts[|ts| - 1]) == ApplyPatch(ts[|ts| - 1], p).category;
  }

  /** After `updateTransaction` the user list holds its old labels and the
      non-empty patched categories, and nothing else. */
  lemma RegisterMatchesLabels(user: seq<string>, ts: seq<Entry>, id: string, p: Patch,
                              collate: (string, string) -> bool)
    ensures forall x :: x in RegisterMatches(user, ts, id, p, collate) <==>
      x in user || (x != [] && x in MatchedLabels(ts, id, p))
  {
    RegisterMatchesAsFold(user, ts, id, p, collate);
    MatchedLabelsNormal(ts, id, p);
    forall x {
      RegisterAllLabel(user, MatchedLabels(ts, id, p), collate, x);
    }
  }

  /** Registering normal labels one by one adds exactly the non-empty ones. */
  lemma {:induction false} RegisterAllLabel(user: seq<string>, labels: seq<string>,
                                            collate: (string, string) -> bool, x: string)
    requires forall l :: l in labels ==> IsNormalLabel(l)
    ensures x in RegisterAll(user, labels, collate) <==> x in user || (x != [] && x in labels)
    decreases |labels|
  {
    if labels != [] {
      var init := labels[..|labels| - 1];
      var c := labels[|labels| - 1];
      assert labels == init + [c];
      RegisterAllLabel(user, init, collate, x);
      RegisteredNormal(RegisterAll(user, init, collate), c, collate);
    }
  }

  /** Updating keeps an ordered, duplicate-free user list in that state. */
  lemma RegisterMatchesSortedDistinct(user: seq<string>, ts: seq<Entry>, id: string, p: Patch,
                                      collate: (string, string) -> bool)
    requires TotalPreorder(collate)
    requires Sorted(user, collate) && Distinct(user)
    ensures Sorted(RegisterMatches(user, ts, id, p, collate), collate)
    ensures Distinct(RegisterMatches(user, ts, id, p, collate))
  {
    RegisterMatchesAsFold(user, ts, id, p, collate);
    RegisterAllSortedDistinct(user, MatchedLabels(ts, id, p), collate);
  }

  lemma {:induction false} RegisterAllSortedDistinct(user: seq<string>, labels: seq<string>,
                                                     collate: (string, string) -> bool)
    requires TotalPreorder(collate)
    requires Sorted(user, collate) && Distinct(user)
    ensures Sorted(RegisterAll(user, labels, collate), collate)
    ensures Distinct(RegisterAll(user, labels, collate))
    decreases |labels|
  {
    if labels != [] {
      var init := labels[..|labels| - 1];
      RegisterAllSortedDistinct(user, init, collate);
      RegisteredKeepsSortedDistinct(RegisterAll(user, init, collate), labels[|labels| - 1], collate);
    }
  }

  /** An id no entry carries leaves the user list as it is. */
  lemma RegisterMatchesAbsentId(user: seq<string>, ts: seq<Entry>, id: string, p: Patch,
                                collate: (string, string) -> bool)
    requires forall i :: 0 <= i < |ts| ==> !HasId(ts[i], id)
    ensures RegisterMatches(user, ts, id, p, collate) == user
  {
    RegisterMatchesAsFold(user, ts, id, p, collate);
    PickedNone(ts, id, PatchedLabel(p));
  }

  /** Nothing is picked when no entry has the id. */
  lemma {:induction false} PickedNone(ts: seq<Entry>, id: string, f: Entry -> string)
    requires forall i :: 0 <= i < |ts| ==> !HasId(ts[i], id)
    ensures Picked(ts, id, f) == []
    decreases |ts|
  {
    if ts != [] {
      var n := |ts| - 1;
      assert forall i :: 0 <= i < n ==> ts[..n][i] == ts[i];
      PickedNone(ts[..n], id, f);
    }
  }

  /** Lists that agree on which entries have the id, and on the label of
      each that has it, give the same picks. */
  lemma {:induction false} PickedAlike(ts: seq<Entry>, us: seq<Entry>, id: string, f: Entry -> string)
    requires |us| == |ts|
    requires forall i :: 0 <= i < |ts| ==> (HasId(us[i], id) <==> HasId(ts[i], id))
    requires forall i :: 0 <= i < |ts| && HasId(ts[i], id) ==> f(us[i]) == f(ts[i])
    ensures Picked(us, id, f) == Picked(ts, id, f)
    decreases |ts|
  {
    if ts != [] {
      var n := |ts| - 1;
      assert forall i :: 0 <= i < n ==> ts[..n][i] == ts[i] && us[..n][i] == us[i];
      PickedAlike(ts[..n], us[..n], id, f);
    }
  }

  /** Patching the updated list again yields the same labels. */
  lemma MatchedLabelsOfUpdated(ts: seq<Entry>, id: string, p: Patch)
    ensures MatchedLabels(UpdatedList(ts, id, p), id, p) == MatchedLabels(ts, id, p)
  {
    var us := UpdatedList(ts, id, p);
    var f := PatchedLabel(p);
    UpdatedListFacts(ts, id, p);
    forall i | 0 <= i < |ts| && HasId(ts[i], id) ensures f(us[i]) == f(ts[i]) {
      PatchedCategoryTwice(ts[i].category, p.category);
    }
    PickedAlike(ts, us, id, f);
  }

  /** Registering normal labels that are empty or already present changes
      nothing. */
  lemma {:induction false} RegisterAllPresent(user: seq<string>, labels: seq<string>,
                                              collate: (string, string) -> bool)
    requires forall l :: l in labels ==> IsNormalLabel(l) && (l == [] || l in user)
    ensures RegisterAll(user, labels, collate) == user
    decreases |labels|
  {
    if labels != [] {
      var init := labels[..|labels| - 1];
      var c := labels[|labels| - 1];
      assert forall l :: l in init ==> l in labels;
      RegisterAllPresent(user, init, collate);
      NormalLabelIsFixedPoint(c);
    }
  }

  /** Sending the same patch a second time registers nothing new: the
      user list stays where the first call left it. */
  lemma RegisterMatchesTwice(user: seq<string>, ts: seq<Entry>, id: string, p: Patch,
                             collate: (string, string) -> bool)
    ensures RegisterMatches(RegisterMatches(user, ts, id, p, collate), UpdatedList(ts, id, p), id, p, collate) ==
      RegisterMatches(user, ts, id, p, collate)
  {
    var once := RegisterMatches(user, ts, id, p, collate);
    RegisterMatchesAsFold(once, UpdatedList(ts, id, p), id, p, collate);
    MatchedLabelsOfUpdated(ts, id, p);
    RegisterMatchesLabels(user, ts, id, p, collate);
    MatchedLabelsNormal(ts, id, p);
    RegisterAllPresent(once, MatchedLabels(ts, id, p), collate);
  }

  // ---------------------------------------------------------------------
  // removeTransaction

  /** `filter((item) => item.id !== id)`. */
  function Without(ts: seq<Entry>, id: string): (r: seq<Entry>)
    ensures |r| <= |ts|
    ensures forall e :: e in r <==> e in ts && !HasId(e, id)
  {
    if ts == [] then []
    else if HasId(ts[0], id) then Without(ts[1..], id)
    else [ts[0]] + Without(ts[1..], id)
  }

  /** Filtering a concatenation filters each part. */
  lemma {:induction false} WithoutAppend(a: seq<Entry>, b: seq<Entry>, id: string)
    ensures Without(a + b, id) == Without(a, id) + Without(b, id)
  {
    if a == [] {
      assert a + b == b;
    } else {
      var ab := a + b;
      assert ab[0] == a[0] && ab[1..] == a[1..] + b;
      WithoutAppend(a[1..], b, id);
      if HasId(a[0], id) {
        assert Without(ab, id) == Without(a[1..] + b, id);
      } else {
        assert Without(ab, id) == [a[0]] + Without(a[1..] + b, id);
        assert [a[0]] + (Without(a[1..], id) + Without(b, id)) == ([a[0]] + Without(a[1..], id)) + Without(b, id);
      }
    }
  }

  /** The positions of the entries `filter` keeps, ascending. */
  function Survivors(ts: seq<Entry>, id: string): (ks: seq<nat>)
    ensures forall a, b :: 0 <= a < b < |ks| ==> ks[a] < ks[b]
    ensures forall k :: 0 <= k < |ks| ==> ks[k] < |ts|
    ensures forall j :: 0 <= j < |ts| ==> (j in ks <==> !HasId(ts[j], id))
  {
    if ts == [] then []
    else
      var n := |ts| - 1;
      var prev := Survivors(ts[..n], id);
      assert forall j :: 0 <= j < n ==> ts[..n][j] == ts[j];
      if HasId(ts[n], id) then prev else prev + [n]
  }

  /** `filter` keeps the entries without the id in their original order,
      each as often as it occurs: the k-th entry left is the entry at the
      k-th surviving position. */
  lemma {:induction false} WithoutKeepsOrder(ts: seq<Entry>, id: string)
    ensures |Without(ts, id)| == |Survivors(ts, id)|
    ensures forall k :: 0 <= k < |Without(ts, id)| ==> Without(ts, id)[k] == ts[Survivors(ts, id)[k]]
  {
    if ts != [] {
      var n := |ts| - 1;
      var init := ts[..n];
      WithoutKeepsOrder(init, id);
      LastSplit(ts);
      WithoutAppend(init, [ts[n]], id);
      WithoutSingle(ts[n], id);
      var keep := !HasId(ts[n], id);
      assert Without(ts, id) == if keep then Without(init, id) + [ts[n]] else Without(init, id) + [];
      KeptOrderStep(ts, Without(init, id), Survivors(init, id), Without(ts, id), Survivors(ts, id), keep);
    }
  }

  /** One more entry seen by `filter`, kept or not, keeps the positions and
      the entries lined up. */
  lemma KeptOrderStep(ts: seq<Entry>, w: seq<Entry>, ks: seq<nat>, r: seq<Entry>, ks': seq<nat>, keep: bool)
    requires ts != [] && |w| == |ks|
    requires forall k :: 0 <= k < |ks| ==> ks[k] < |ts| - 1 && w[k] == ts[..|ts| - 1][ks[k]]
    requires r == if keep then w + [ts[|ts| - 1]] else w + []
    requires ks' == if keep then ks + [|ts| - 1] else ks
    ensures |r| == |ks'|
    ensures forall k :: 0 <= k < |r| ==> r[k] == ts[ks'[k]]
  {
    forall k | 0 <= k < |r| ensures r[k] == ts[ks'[k]] {
      if k < |w| {
        assert r[k] == w[k] && ks'[k] == ks[k];
      }
    }
  }

  lemma LastSplit(ts: seq<Entry>)
    requires ts != []
    ensures ts == ts[..|ts| - 1] + [ts[|ts| - 1]]
  {
  }

  lemma WithoutSingle(e: Entry, id: string)
    ensures Without([e], id) == if HasId(e, id) then [] else [e]
  {
    assert [e][0] == e && [e][1..] == [];
  }

  /** Removing an id no entry carries changes nothing, and only then. */
  lemma {:induction false} WithoutAbsentId(ts: seq<Entry>, id: string)
    ensures Without(ts, id) == ts <==> forall i :: 0 <= i < |ts| ==> !HasId(ts[i], id)
  {
    if ts != [] {
      WithoutAbsentId(ts[1..], id);
      if HasId(ts[0], id) {
        assert ts[0] in ts;
        assert Without(ts, id) != ts;
      } else {
        assert forall i :: 1 <= i < |ts| ==> ts[1..][i - 1] == ts[i];
      }
    }
  }

  /** Removing twice is removing once. */
  lemma RemoveTwice(ts: seq<Entry>, id: string)
    ensures Without(Without(ts, id), id) == Without(ts, id)
  {
    var r := Without(ts, id);
    WithoutAbsentId(r, id);
    assert forall i :: 0 <= i < |r| ==> r[i] in r;
  }

  /** Updating keeps every id, so removing afterwards removes the same
      entries. */
  lemma RemoveAfterUpdate(ts: seq<Entry>, id: string, p: Patch)
    ensures Without(UpdatedList(ts, id, p), id) == Without(ts, id)
  {
    UpdatedListFacts(ts, id, p);
    WithoutAlike(ts, UpdatedList(ts, id, p), id);
  }

  /** Two lists whose entries carry the id at the same positions, and agree
      where they do not, lose the same entries to the filter. */
  lemma {:induction false} WithoutAlike(ts: seq<Entry>, us: seq<Entry>, id: string)
    requires |us| == |ts|
    requires forall i :: 0 <= i < |ts| ==> (HasId(us[i], id) <==> HasId(ts[i], id))
    requires forall i :: 0 <= i < |ts| && !HasId(ts[i], id) ==> us[i] == ts[i]
    ensures Without(us, id) == Without(ts, id)
    decreases |ts|
  {
    if ts != [] {
      assert forall i :: 0 <= i < |ts| - 1 ==> ts[1..][i] == ts[i + 1] && us[1..][i] == us[i + 1];
      WithoutAlike(ts[1..], us[1..], id);
    }
  }

  /** Removing the entry just added gives back the list as it was, when its
      id was fresh. */
  lemma RemoveAfterAdd(ts: seq<Entry>, e: Entry, id: string)
    requires HasId(e, id)
    requires forall i :: 0 <= i < |ts| ==> !HasId(ts[i], id)
    ensures Without([e] + ts, id) == ts
  {
    assert ([e] + ts)[1..] == ts;
    WithoutAbsentId(ts, id);
  }

  // ---------------------------------------------------------------------
  // Start-up and hydration

  /** The initial user list: what storage holds, or the defaults when that
      is empty. */
  function InitialCategories(stored: seq<string>): (r: seq<string>)
    ensures r != []
    ensures stored != [] ==> r == stored
    ensures stored == [] ==> r == DefaultCategories
  {
    if |stored| > 0 then stored else DefaultCategories
  }

  /** The transaction list after hydration. The list read back replaces the
      current one when it is non-empty and different; replacing a list by
      an equal one changes nothing, so a non-empty read-back list wins. */
  function HydratedList(current: seq<Entry>, hydrated: seq<Entry>): (r: seq<Entry>)
    ensures hydrated != [] ==> r == hydrated
    ensures hydrated == [] ==> r == current
  {
    if |hydrated| > 0 && hydrated != current then hydrated else current
  }

  /** The user list after hydration: stored labels are merged in only when
      there are any. */
  function HydratedCategories(user: seq<string>, stored: seq<string>, collate: (string, string) -> bool): (r: seq<string>)
    ensures stored == [] ==> r == user
    ensures stored != [] ==> forall x :: x in r <==>
      x != [] && (x in user || exists i :: 0 <= i < |stored| && NormaliseCategory(stored[i]) == x)
    ensures stored != [] ==> Distinct(r)
  {
    if |stored| > 0 then MergeCategories(user, stored, collate) else user
  }

  /** The list the hydration merge produces is ordered by `collate`. */
  lemma HydratedCategoriesSorted(user: seq<string>, stored: seq<string>, collate: (string, string) -> bool)
    requires TotalPreorder(collate)
    requires stored != []
    ensures Sorted(HydratedCategories(user, stored, collate), collate)
  {
    var normalised := seq(|stored|, i requires 0 <= i < |stored| => NormaliseCategory(stored[i]));
    SortedLabelSetSorted(user + normalised, collate);
  }

  // ---------------------------------------------------------------------
  // The store

  class Ledger {
    var transactions: seq<Entry>
    var userCategories: seq<string>
    /** `localeCompare` as an ordering: `collate(a, b)` when `a` may come
        before `b`. */
    const collate: (string, string) -> bool

    /** Every stored entry carries a normalised category. */
    ghost predicate Valid()
      reads this`transactions
    {
      forall e :: e in transactions ==> IsNormalLabel(e.category)
    }

    /** The two `useState` initialisers, given the normalised stored
        entries and the stored category list. */
    constructor (entries: seq<Entry>, storedCategories: seq<string>, collate: (string, string) -> bool)
      requires forall e :: e in entries ==> IsNormalLabel(e.category)
      ensures Valid()
      ensures transactions == entries
      ensures userCategories == InitialCategories(storedCategories)
      ensures this.collate == collate
    {
      transactions := entries;
      userCategories := InitialCategories(storedCategories);
      this.collate := collate;
    }

    /** `registerCategory`. */
    method RegisterCategory(category: string)
      modifies this`userCategories
      ensures userCategories == Registered(old(userCategories), category, collate)
    {
      var newLabel := NormaliseCategory(category);
      if newLabel == [] {
        return;
      }
      if newLabel !in userCategories {
        userCategories := SortBy(userCategories + [newLabel], collate);
      }
    }

    /** `addTransaction`: the new entry goes first and its category is
        registered. `freshId` and `createdAt` are what `generateId()` and
        the clock give. */
    method AddTransaction(payload: Payload, freshId: string, createdAt: string) returns (entry: Entry)
      requires Valid()
      modifies this
      ensures Valid()
      ensures entry == NewEntry(payload, freshId, createdAt)
      ensures transactions == [entry] + old(transactions)
      ensures userCategories == Registered(old(userCategories), entry.category, collate)
    {
      entry := NewEntry(payload, freshId, createdAt);
      PrependNewEntry(payload, freshId, createdAt, transactions);
      transactions := [entry] + transactions;
      assert Valid();
      RegisterCategory(entry.category);
    }

    /** `updateTransaction`: the `map` over the list, registering the
        category of each entry it patches. */
    method UpdateTransaction(id: string, patch: Patch)
      requires Valid()
      modifies this
      ensures Valid()
      ensures transactions == UpdatedList(old(transactions), id, patch)
      ensures userCategories == RegisterMatches(old(userCategories), old(transactions), id, patch, collate)
    {
      var next := MapPatched(transactions, id, patch);
      UpdatedListNormal(transactions, id, patch);
      transactions := next;
    }

    /** The `map` callback of `updateTransaction` run over `items`: it
        returns the patched list and registers each patched category on
        the way. */
    method MapPatched(items: seq<Entry>, id: string, patch: Patch) returns (next: seq<Entry>)
      modifies this`userCategories
      ensures next == UpdatedList(items, id, patch)
      ensures userCategories == RegisterMatches(old(userCategories), items, id, patch, collate)
    {
      next := [];
      var i := 0;
      while i < |items|
        invariant 0 <= i <= |items|
        invariant next == UpdatedList(items, id, patch)[..i]
        invariant userCategories == RegisterMatches(old(userCategories), items[..i], id, patch, collate)
      {
        var item := items[i];
        var updated := Patched(item, id, patch);
        RegisterMatchesStep(old(userCategories), items, i, id, patch, collate);
        if HasId(item, id) {
          RegisterCategory(updated.category);
        }
        PrefixSnoc(UpdatedList(items, id, patch), i);
        next := next + [updated];
        i := i + 1;
      }
      assert items[..i] == items;
      assert UpdatedList(items, id, patch)[..i] == UpdatedList(items, id, patch);
    }

    /** `removeTransaction`. */
    method RemoveTransaction(id: string)
      requires Valid()
      modifies this`transactions
      ensures Valid()
      ensures transactions == Without(old(transactions), id)
    {
      transactions := Without(transactions, id);
    }

    /** `clearAll`; the user's categories stay. */
    method ClearAll()
      modifies this`transactions
      ensures Valid()
      ensures transactions == []
    {
      transactions := [];
    }

    /** The `onMounted` hydration, given what storage holds now. When the
        normaliser throws, the callback stops and nothing changes. */
    method Hydrate(cal: Calendar, storedEntries: Json, storedCategories: seq<string>, ids: nat -> string)
      returns (failure: Option<NormaliseError>)
      requires Valid()
      modifies this
      ensures Valid()
      ensures NormaliseSpec(cal, storedEntries, ids).Err? ==>
        failure == Some(NormaliseSpec(cal, storedEntries, ids).error) &&
        transactions == old(transactions) && userCategories == old(userCategories)
      ensures NormaliseSpec(cal, storedEntries, ids).Ok? ==>
        failure == None &&
        transactions == HydratedList(old(transactions), NormaliseSpec(cal, storedEntries, ids).value) &&
        userCategories == HydratedCategories(old(userCategories), storedCategories, collate)
    {
      var hydrated := NormaliseLedgerEntries(cal, storedEntries, ids);
      if hydrated.Err? {
        return Some(hydrated.error);
      }
      NormaliseWellFormed(cal, storedEntries, ids);
      if |hydrated.value| > 0 && hydrated.value != transactions {
        transactions := hydrated.value;
      }
      if |storedCategories| > 0 {
        userCategories := MergeCategories(userCategories, storedCategories, collate);
      }
      failure := None;
    }
  }

  /** `useLedger` on start-up: normalise what storage holds and build the
      store; an exception from the normaliser escapes. */
  method OpenLedger(cal: Calendar, storedEntries: Json, storedCategories: seq<string>, ids: nat -> string,
                    collate: (string, string) -> bool)
    returns (r: Result<Ledger, NormaliseError>)
    ensures NormaliseSpec(cal, storedEntries, ids).Err? ==>
      r == Err(NormaliseSpec(cal, storedEntries, ids).error)
    ensures NormaliseSpec(cal, storedEntries, ids).Ok? ==>
      r.Ok? && fresh(r.value) && r.value.Valid() &&
      r.value.transactions == NormaliseSpec(cal, storedEntries, ids).value &&
      r.value.userCategories == InitialCategories(storedCategories) &&
      r.value.collate == collate
  {
    var entries := NormaliseLedgerEntries(cal, storedEntries, ids);
    if entries.Err? {
      return Err(entries.error);
    }
    NormaliseWellFormed(cal, storedEntries, ids);
    var ledger := new Ledger(entries.value, storedCategories, collate);
    r := Ok(ledger);
  }
}
