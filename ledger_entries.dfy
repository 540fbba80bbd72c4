/** Ledger entries and `normaliseLedgerEntries` (app/composables/useLedger.ts),
    which turns whatever storage returned into entries, dropping malformed
    records. */
module LedgerEntries {
  import opened Wrappers
  import opened JsonValue
  import opened Categories

  /** What the ledger asks of JavaScript's `Date`, over epoch milliseconds.
      `parse` is `new Date(value)` (`None` for an Invalid Date), `iso` is
      `toISOString`, and `monthKey` and `dayKey` are `toMonthKey` and
      `toDayKey` in the local time zone. */
  datatype Calendar = Calendar(
    parse: Json -> Option<int>,
    iso: int -> string,
    monthKey: int -> string,
    dayKey: int -> string)

  /** Reading a canonical timestamp string back gives the same instant, and
      the string is never empty. */
  ghost predicate CanonicalTimestamps(cal: Calendar) {
    forall t :: cal.iso(t) != [] && cal.parse(JStr(cal.iso(t))) == Some(t)
  }

  /** `LedgerEntry`. The declared types of `id`, `type`, `note` and
      `createdAt` are not checked on the way in, so they hold any value;
      `note` may be absent. `timestamp` is the instant of the canonical
      ISO string. */
  datatype Entry = Entry(
    id: Json,
    kind: Json,
    amount: real,
    category: string,
    note: Option<Json>,
    timestamp: int,
    createdAt: Json)

  /** `item.type === 'income'`; every other type counts as an expense. */
  predicate IsIncome(e: Entry) {
    e.kind == JStr("income")
  }

  /** The exceptions the normaliser lets escape: `toISOString` on an Invalid
      Date, and `trim` on a category that is not a string. */
  datatype NormaliseError = InvalidTimestamp | CategoryNotString

  /** What one pass of the loop body does with one stored item. */
  datatype ItemOutcome = Skip | Keep(entry: Entry) | Throw(error: NormaliseError)

  /** The loop body of `normaliseLedgerEntries` for one item; `freshId` is
      the value `generateId()` would return. */
  function NormaliseItem(cal: Calendar, item: Json, freshId: string): (r: ItemOutcome)
    ensures !(item.JArr? || item.JObj?) ==> r == Skip
    ensures r.Keep? ==> Some(r.entry.kind) == Field(item, "type") && r.entry.note.Some?
  {
    var timestamp := Field(item, "timestamp");
    var kind := Field(item, "type");
    var amount := Field(item, "amount");
    if !(item.JArr? || item.JObj?) then Skip
    else if !Truthy(timestamp) || !Truthy(kind) || !(amount.Some? && amount.value.JNum?) then Skip
    else match cal.parse(timestamp.value)
      case None => Throw(InvalidTimestamp)
      case Some(t) =>
        var category := Field(item, "category");
        if !Nullish(category) && !category.value.JStr? then Throw(CategoryNotString)
        else
          Keep(Entry(
            id := Coalesce(Field(item, "id"), JStr(freshId)),
            kind := kind.value,
            amount := if amount.value.n.Finite? then amount.value.n.value else 0.0,
            category := NormaliseCategory(if Nullish(category) then FallbackCategory else category.value.s),
            note := Some(Coalesce(Field(item, "note"), JStr(""))),
            timestamp := t,
            createdAt := Coalesce(Field(item, "createdAt"), JStr(cal.iso(t)))))
  }

  /** What the loop body does with each stored item; `ids(i)` is the
      identifier `generateId()` would return for item `i`. */
  function Outcomes(cal: Calendar, items: seq<Json>, ids: nat -> string): (outs: seq<ItemOutcome>)
    ensures |outs| == |items|
  {
    seq(|items|, i requires 0 <= i < |items| => NormaliseItem(cal, items[i], ids(i)))
  }

  /** The loop run over a sequence of item outcomes: the entries pushed, or
      the exception that ended it. */
  function Collect(outs: seq<ItemOutcome>): (r: Result<seq<Entry>, NormaliseError>)
    ensures r.Ok? ==> |r.value| <= |outs|
  {
    if outs == [] then Ok([])
    else match Collect(outs[..|outs| - 1])
      case Err(e) => Err(e)
      case Ok(entries) =>
        match outs[|outs| - 1]
        case Skip => Ok(entries)
        case Keep(e) => Ok(entries + [e])
        case Throw(err) => Err(err)
  }

  /** `normaliseLedgerEntries(raw)`: a non-array yields no entries, and an
      array never yields more entries than it has items. */
  function NormaliseSpec(cal: Calendar, raw: Json, ids: nat -> string): (r: Result<seq<Entry>, NormaliseError>)
    ensures !raw.JArr? ==> r == Ok([])
    ensures raw.JArr? && r.Ok? ==> |r.value| <= |raw.items|
  {
    if raw.JArr? then Collect(Outcomes(cal, raw.items, ids)) else Ok([])
  }

  /** The positions of the accepted items. */
  function KeptIndices(outs: seq<ItemOutcome>): (ks: seq<nat>)
    ensures forall a, b :: 0 <= a < b < |ks| ==> ks[a] < ks[b]
    ensures forall k :: 0 <= k < |ks| ==> ks[k] < |outs|
    ensures forall j :: 0 <= j < |outs| ==> (j in ks <==> outs[j].Keep?)
    ensures |ks| <= |outs|
  {
    if outs == [] then []
    else
      var prev := KeptIndices(outs[..|outs| - 1]);
      assert forall j :: 0 <= j < |outs| - 1 ==> outs[..|outs| - 1][j] == outs[j];
      if outs[|outs| - 1].Keep? then prev + [|outs| - 1] else prev
  }

  /** `normaliseLedgerEntries`: the imperative loop that pushes each accepted
      item onto `entries` and stops at the first exception. */
  method NormaliseLedgerEntries(cal: Calendar, raw: Json, ids: nat -> string) returns (r: Result<seq<Entry>, NormaliseError>)
    ensures r == NormaliseSpec(cal, raw, ids)
  {
    if !raw.JArr? {
      return Ok([]);
    }
    var items := raw.items;
    var outs := Outcomes(cal, items, ids);
    var entries: seq<Entry> := [];
    var i := 0;
    while i < |items|
      invariant 0 <= i <= |items|
      invariant Collect(outs[..i]) == Ok(entries)
    {
      var outcome := outs[i];
      match outcome {
        case Skip =>
          CollectSnoc(outs, i);
        case Keep(e) =>
          CollectSnoc(outs, i);
          entries := entries + [e];
        case Throw(err) =>
          CollectThrowAt(outs, i);
          return Err(err);
      }
      i := i + 1;
    }
    assert outs[..i] == outs;
    return Ok(entries);
  }

  /** One more pass of the loop over a run that has not thrown. */
  lemma CollectSnoc(outs: seq<ItemOutcome>, i: nat)
    requires i < |outs| && Collect(outs[..i]).Ok?
    ensures outs[i].Skip? ==> Collect(outs[..i + 1]) == Collect(outs[..i])
    ensures outs[i].Keep? ==> Collect(outs[..i + 1]) == Ok(Collect(outs[..i]).value + [outs[i].entry])
    ensures outs[i].Throw? ==> Collect(outs[..i + 1]) == Err(outs[i].error)
  {
    assert outs[..i + 1][..i] == outs[..i];
  }

  /** The first item that throws decides the result. */
  lemma CollectThrowAt(outs: seq<ItemOutcome>, i: nat)
    requires i < |outs| && Collect(outs[..i]).Ok? && outs[i].Throw?
    ensures Collect(outs) == Err(outs[i].error)
  {
    CollectSnoc(outs, i);
    ErrPersists(outs, i + 1);
  }

  /** Once the loop has thrown, later items change nothing. */
  lemma {:induction false} ErrPersists(outs: seq<ItemOutcome>, m: nat)
    requires m <= |outs|
    requires Collect(outs[..m]).Err?
    ensures Collect(outs) == Collect(outs[..m])
    decreases |outs| - m
  {
    if m < |outs| {
      assert outs[..m + 1][..m] == outs[..m];
      ErrPersists(outs, m + 1);
    } else {
      assert outs[..m] == outs;
    }
  }

  // ---------------------------------------------------------------------
  // What survives normalisation

  /** An item is accepted exactly when it is an object with a truthy
      `timestamp` and `type`, a numeric `amount`, a timestamp that parses and
      a category that is absent or a string; the accepted entry keeps the
      present `id`, `type`, `note` and `createdAt`, replaces a non-finite
      amount by 0, normalises the category (`"Misc"` when absent) and defaults
      `note` to `""` and `createdAt` to the canonical timestamp. */
  lemma ItemAcceptance(cal: Calendar, item: Json, freshId: string)
    ensures NormaliseItem(cal, item, freshId).Keep? <==>
      item.JObj? && Truthy(Field(item, "timestamp")) && Truthy(Field(item, "type")) &&
      Field(item, "amount").Some? && Field(item, "amount").value.JNum? &&
      cal.parse(Field(item, "timestamp").value).Some? &&
      (Nullish(Field(item, "category")) || Field(item, "category").value.JStr?)
    ensures NormaliseItem(cal, item, freshId).Keep? ==>
      var e := NormaliseItem(cal, item, freshId).entry;
      var amount := Field(item, "amount").value.n;
      var category := Field(item, "category");
      Some(e.timestamp) == cal.parse(Field(item, "timestamp").value) &&
      Some(e.kind) == Field(item, "type") &&
      (!Nullish(Field(item, "id")) ==> Some(e.id) == Field(item, "id")) &&
      (Nullish(Field(item, "id")) ==> e.id == JStr(freshId)) &&
      e.amount == (if amount.Finite? then amount.value else 0.0) &&
      (Nullish(category) ==> e.category == FallbackCategory) &&
      (!Nullish(category) ==> e.category == NormaliseCategory(category.value.s)) &&
      (!Nullish(Field(item, "note")) ==> e.note == Field(item, "note")) &&
      (Nullish(Field(item, "note")) ==> e.note == Some(JStr(""))) &&
      (!Nullish(Field(item, "createdAt")) ==> Some(e.createdAt) == Field(item, "createdAt")) &&
      (Nullish(Field(item, "createdAt")) ==> e.createdAt == JStr(cal.iso(e.timestamp)))
  {
    if NormaliseItem(cal, item, freshId).Keep? && Nullish(Field(item, "category")) {
      FallbackIsNormal();
    }
  }

  lemma FallbackIsNormal()
    ensures NormaliseCategory(FallbackCategory) == FallbackCategory
  {
    FallbackIsNormalLabel();
    NormalLabelIsFixedPoint(FallbackCategory);
  }

  lemma FallbackIsNormalLabel()
    ensures IsNormalLabel(FallbackCategory)
  {
    var f := FallbackCategory;
    assert |f| == 4 && f[0] == 'M' && f[1] == 'i' && f[2] == 's' && f[3] == 'c';
    assert forall i :: 0 <= i < |f| ==> !JsText.IsWhitespace(f[i]);
  }

  /** The loop ends in an exception exactly when some item throws, and then
      with the first such item's exception; otherwise its result is the
      accepted items' entries, in their original order. */
  lemma CollectCharacterised(outs: seq<ItemOutcome>)
    ensures Collect(outs).Ok? <==> forall j :: 0 <= j < |outs| ==> !outs[j].Throw?
    ensures Collect(outs).Err? ==>
      exists j :: 0 <= j < |outs| && outs[j] == Throw(Collect(outs).error) &&
        forall i :: 0 <= i < j ==> !outs[i].Throw?
    ensures Collect(outs).Ok? ==>
      var es := Collect(outs).value;
      var ks := KeptIndices(outs);
      |es| == |ks| && forall k :: 0 <= k < |es| ==> outs[ks[k]] == Keep(es[k])
  {
    CollectOkWithoutThrow(outs);
    CollectErrAtFirstThrow(outs);
    CollectKeeps(outs);
  }

  /** The normaliser succeeds exactly when no item throws. */
  lemma {:induction false} CollectOkWithoutThrow(outs: seq<ItemOutcome>)
    ensures Collect(outs).Ok? <==> forall j :: 0 <= j < |outs| ==> !outs[j].Throw?
  {
    if outs != [] {
      var init := outs[..|outs| - 1];
      CollectOkWithoutThrow(init);
      assert forall j :: 0 <= j < |init| ==> init[j] == outs[j];
    }
  }

  /** A failure is the error of the first item that throws. */
  lemma {:induction false} CollectErrAtFirstThrow(outs: seq<ItemOutcome>)
    ensures Collect(outs).Err? ==>
      exists j :: 0 <= j < |outs| && outs[j] == Throw(Collect(outs).error) &&
        forall i :: 0 <= i < j ==> !outs[i].Throw?
  {
    if outs != [] {
      var init := outs[..|outs| - 1];
      CollectErrAtFirstThrow(init);
      CollectOkWithoutThrow(init);
      assert forall j :: 0 <= j < |init| ==> init[j] == outs[j];
      var prev := Collect(init);
      if prev.Err? {
        var j :| 0 <= j < |init| && init[j] == Throw(prev.error) &&
          forall i :: 0 <= i < j ==> !init[i].Throw?;
        assert outs[j].Throw?;
      }
    }
  }

  /** On success the entries are the kept items, in order. */
  lemma {:induction false} CollectKeeps(outs: seq<ItemOutcome>)
    ensures Collect(outs).Ok? ==>
      var es := Collect(outs).value;
      var ks := KeptIndices(outs);
      |es| == |ks| && forall k :: 0 <= k < |es| ==> outs[ks[k]] == Keep(es[k])
  {
    if outs != [] {
      var init := outs[..|outs| - 1];
      CollectKeeps(init);
      assert forall j :: 0 <= j < |init| ==> init[j] == outs[j];
    }
  }

  // ---------------------------------------------------------------------
  // Normalising normalised data

  /** The shape of every entry the normaliser produces. */
  predicate WellFormed(e: Entry) {
    e.id != JNull && Truthy(Some(e.kind)) && e.note.Some? && e.note.value != JNull &&
    e.createdAt != JNull && IsNormalLabel(e.category)
  }

  /** The untyped fields hold no number that `JSON.stringify` would turn
      into `null`. */
  predicate Storable(e: Entry) {
    Durable(e.id) && Durable(e.kind) && (e.note.Some? ==> Durable(e.note.value)) && Durable(e.createdAt)
  }

  /** An entry as `JSON.parse` reads back what `saveToStorage` wrote for
      it: `undefined` fields are omitted, and numbers that are not finite
      become `null`. */
  function ToJson(cal: Calendar, e: Entry): (r: Json)
    ensures r.JObj? && ("note" in r.fields <==> e.note.Some?)
    ensures Durable(r)
  {
    var fields := map[
      "id" := Stringified(e.id), "type" := Stringified(e.kind), "amount" := JNum(Finite(e.amount)),
      "category" := JStr(e.category), "timestamp" := JStr(cal.iso(e.timestamp)),
      "createdAt" := Stringified(e.createdAt)];
    var all := if e.note.Some? then fields["note" := Stringified(e.note.value)] else fields;
    assert forall k :: k in all ==> Durable(all[k]);
    JObj(all)
  }

  /** A list of entries as it is read back from storage: one record per
      entry, and no number in it that is not finite. */
  function Serialise(cal: Calendar, es: seq<Entry>): (r: Json)
    ensures r.JArr? && |r.items| == |es|
    ensures Durable(r)
  {
    JArr(seq(|es|, i requires 0 <= i < |es| => ToJson(cal, es[i])))
  }

  /** Every entry the normaliser accepts is well formed. */
  lemma ItemWellFormed(cal: Calendar, item: Json, freshId: string)
    requires NormaliseItem(cal, item, freshId).Keep?
    ensures WellFormed(NormaliseItem(cal, item, freshId).entry)
  {
    ItemFieldsPresent(cal, item, freshId);
    ItemCategory(cal, item, freshId);
    var category := Field(item, "category");
    NormaliseCategoryShape(if Nullish(category) then FallbackCategory else category.value.s);
  }

  lemma ItemFieldsPresent(cal: Calendar, item: Json, freshId: string)
    requires NormaliseItem(cal, item, freshId).Keep?
    ensures var e := NormaliseItem(cal, item, freshId).entry;
      e.id != JNull && Truthy(Some(e.kind)) && e.note.Some? && e.note.value != JNull && e.createdAt != JNull
  {
  }

  lemma ItemCategory(cal: Calendar, item: Json, freshId: string)
    requires NormaliseItem(cal, item, freshId).Keep?
    ensures var category := Field(item, "category");
      NormaliseItem(cal, item, freshId).entry.category ==
        NormaliseCategory(if Nullish(category) then FallbackCategory else category.value.s)
  {
    ItemAcceptance(cal, item, freshId);
    FallbackIsNormal();
  }

  lemma {:induction false} CollectWellFormed(outs: seq<ItemOutcome>)
    requires forall j :: 0 <= j < |outs| && outs[j].Keep? ==> WellFormed(outs[j].entry)
    requires Collect(outs).Ok?
    ensures forall e :: e in Collect(outs).value ==> WellFormed(e)
  {
    if outs != [] {
      var init := outs[..|outs| - 1];
      assert forall j :: 0 <= j < |init| ==> init[j] == outs[j];
      CollectWellFormed(init);
    }
  }

  /** The normaliser only produces well-formed entries. */
  lemma NormaliseWellFormed(cal: Calendar, raw: Json, ids: nat -> string)
    requires NormaliseSpec(cal, raw, ids).Ok?
    ensures forall e :: e in NormaliseSpec(cal, raw, ids).value ==> WellFormed(e)
  {
    if raw.JArr? {
      var outs := Outcomes(cal, raw.items, ids);
      forall j | 0 <= j < |outs| && outs[j].Keep? ensures WellFormed(outs[j].entry) {
        ItemWellFormed(cal, raw.items[j], ids(j));
      }
      CollectWellFormed(outs);
    }
  }

  /** The fields of the stored record of a storable entry. */
  lemma ToJsonFields(cal: Calendar, e: Entry)
    requires Storable(e)
    ensures ToJson(cal, e).JObj?
    ensures Field(ToJson(cal, e), "id") == Some(e.id)
    ensures Field(ToJson(cal, e), "type") == Some(e.kind)
    ensures Field(ToJson(cal, e), "amount") == Some(JNum(Finite(e.amount)))
    ensures Field(ToJson(cal, e), "category") == Some(JStr(e.category))
    ensures Field(ToJson(cal, e), "timestamp") == Some(JStr(cal.iso(e.timestamp)))
    ensures Field(ToJson(cal, e), "createdAt") == Some(e.createdAt)
    ensures Field(ToJson(cal, e), "note") == e.note
  {
  }

  /** A record whose fields are those of a well-formed entry is accepted as
      that entry, with its category normalised. */
  lemma ItemOfFields(cal: Calendar, item: Json, e: Entry, freshId: string)
    requires CanonicalTimestamps(cal) && item.JObj?
    requires e.id != JNull && Truthy(Some(e.kind)) && e.note.Some? && e.note.value != JNull
    requires e.createdAt != JNull
    requires Field(item, "id") == Some(e.id)
    requires Field(item, "type") == Some(e.kind)
    requires Field(item, "amount") == Some(JNum(Finite(e.amount)))
    requires Field(item, "category") == Some(JStr(e.category))
    requires Field(item, "timestamp") == Some(JStr(cal.iso(e.timestamp)))
    requires Field(item, "createdAt") == Some(e.createdAt)
    requires Field(item, "note") == e.note
    ensures NormaliseItem(cal, item, freshId) == Keep(e.(category := NormaliseCategory(e.category)))
  {
    ItemOfFieldsAccepted(cal, item, e, freshId);
    ItemOfFieldsEntry(cal, item, e, freshId);
  }

  lemma ItemOfFieldsAccepted(cal: Calendar, item: Json, e: Entry, freshId: string)
    requires CanonicalTimestamps(cal) && item.JObj?
    requires e.id != JNull && Truthy(Some(e.kind)) && e.note.Some? && e.note.value != JNull
    requires e.createdAt != JNull
    requires Field(item, "id") == Some(e.id)
    requires Field(item, "type") == Some(e.kind)
    requires Field(item, "amount") == Some(JNum(Finite(e.amount)))
    requires Field(item, "category") == Some(JStr(e.category))
    requires Field(item, "timestamp") == Some(JStr(cal.iso(e.timestamp)))
    requires Field(item, "createdAt") == Some(e.createdAt)
    requires Field(item, "note") == e.note
    ensures NormaliseItem(cal, item, freshId).Keep?
  {
    assert cal.iso(e.timestamp) != [] && cal.parse(JStr(cal.iso(e.timestamp))) == Some(e.timestamp);
  }

  lemma ItemOfFieldsEntry(cal: Calendar, item: Json, e: Entry, freshId: string)
    requires CanonicalTimestamps(cal) && item.JObj?
    requires e.id != JNull && Truthy(Some(e.kind)) && e.note.Some? && e.note.value != JNull
    requires e.createdAt != JNull
    requires Field(item, "id") == Some(e.id)
    requires Field(item, "type") == Some(e.kind)
    requires Field(item, "amount") == Some(JNum(Finite(e.amount)))
    requires Field(item, "category") == Some(JStr(e.category))
    requires Field(item, "timestamp") == Some(JStr(cal.iso(e.timestamp)))
    requires Field(item, "createdAt") == Some(e.createdAt)
    requires Field(item, "note") == e.note
    requires NormaliseItem(cal, item, freshId).Keep?
    ensures var x := NormaliseItem(cal, item, freshId).entry;
      x.id == e.id && x.kind == e.kind && x.amount == e.amount && x.note == e.note &&
      x.timestamp == e.timestamp && x.createdAt == e.createdAt && x.category == NormaliseCategory(e.category)
  {
    assert cal.parse(JStr(cal.iso(e.timestamp))) == Some(e.timestamp);
    ItemAcceptance(cal, item, freshId);
  }

  /** A well-formed, storable entry, stored and read back, is accepted
      unchanged. */
  lemma ItemRoundTrip(cal: Calendar, e: Entry, freshId: string)
    requires CanonicalTimestamps(cal) && WellFormed(e) && Storable(e)
    ensures NormaliseItem(cal, ToJson(cal, e), freshId) == Keep(e)
  {
    ToJsonFields(cal, e);
    ItemOfFields(cal, ToJson(cal, e), e, freshId);
    NormalLabelIsFixedPoint(e.category);
  }

  /** An item whose `type` is an infinity (`1e400` in the stored text) is
      accepted, but its entry is stored with `"type": null`, so the next
      load drops it. */
  lemma InfiniteTypeLostOnReload(cal: Calendar, item: Json, freshId: string, freshId': string)
    requires NormaliseItem(cal, item, freshId).Keep?
    requires Field(item, "type") == Some(JNum(Infinity(false)))
    ensures NormaliseItem(cal, ToJson(cal, NormaliseItem(cal, item, freshId).entry), freshId') == Skip
  {
    StoredInfiniteTypeSkipped(cal, NormaliseItem(cal, item, freshId).entry, freshId');
  }

  /** A stored record whose `type` was not a finite number reads back with
      `"type": null` and is skipped. */
  lemma StoredInfiniteTypeSkipped(cal: Calendar, e: Entry, freshId: string)
    requires e.kind.JNum? && !e.kind.n.Finite?
    ensures NormaliseItem(cal, ToJson(cal, e), freshId) == Skip
  {
    assert Field(ToJson(cal, e), "type") == Some(JNull);
  }

  lemma {:induction false} CollectOfKept(outs: seq<ItemOutcome>, es: seq<Entry>)
    requires |outs| == |es| && forall j :: 0 <= j < |outs| ==> outs[j] == Keep(es[j])
    ensures Collect(outs) == Ok(es)
  {
    if outs != [] {
      var init := outs[..|outs| - 1];
      assert forall j :: 0 <= j < |init| ==> init[j] == outs[j];
      CollectOfKept(init, es[..|es| - 1]);
      assert es == es[..|es| - 1] + [es[|es| - 1]];
    }
  }

  /** Storing well-formed, storable entries and normalising them again
      gives them back. */
  lemma NormaliseRoundTrip(cal: Calendar, es: seq<Entry>, ids: nat -> string)
    requires CanonicalTimestamps(cal)
    requires forall e :: e in es ==> WellFormed(e) && Storable(e)
    ensures NormaliseSpec(cal, Serialise(cal, es), ids) == Ok(es)
  {
    var items := Serialise(cal, es).items;
    var outs := Outcomes(cal, items, ids);
    forall j | 0 <= j < |outs| ensures outs[j] == Keep(es[j]) {
      ItemRoundTrip(cal, es[j], ids(j));
    }
    CollectOfKept(outs, es);
  }

  /** An accepted item whose own fields are durable gives a storable
      entry: the fields it takes are copied from the item or are strings. */
  lemma ItemStorable(cal: Calendar, item: Json, freshId: string)
    requires Durable(item)
    requires NormaliseItem(cal, item, freshId).Keep?
    ensures Storable(NormaliseItem(cal, item, freshId).entry)
  {
    var e := NormaliseItem(cal, item, freshId).entry;
    ItemAcceptance(cal, item, freshId);
    assert Durable(e.id) by { FieldDurable(item, "id"); }
    assert Durable(e.kind) by { FieldDurable(item, "type"); }
    assert e.note.Some? ==> Durable(e.note.value) by { FieldDurable(item, "note"); }
    assert Durable(e.createdAt) by { FieldDurable(item, "createdAt"); }
  }

  lemma FieldDurable(item: Json, key: string)
    requires Durable(item)
    ensures Field(item, key).Some? ==> Durable(Field(item, key).value)
  {
  }

  lemma {:induction false} CollectStorable(outs: seq<ItemOutcome>)
    requires forall j :: 0 <= j < |outs| && outs[j].Keep? ==> Storable(outs[j].entry)
    requires Collect(outs).Ok?
    ensures forall e :: e in Collect(outs).value ==> Storable(e)
  {
    if outs != [] {
      var init := outs[..|outs| - 1];
      assert forall j :: 0 <= j < |init| ==> init[j] == outs[j];
      CollectStorable(init);
    }
  }

  /** Normalising durable data gives storable entries. */
  lemma NormaliseStorable(cal: Calendar, raw: Json, ids: nat -> string)
    requires Durable(raw)
    requires NormaliseSpec(cal, raw, ids).Ok?
    ensures forall e :: e in NormaliseSpec(cal, raw, ids).value ==> Storable(e)
  {
    if raw.JArr? {
      var outs := Outcomes(cal, raw.items, ids);
      forall j | 0 <= j < |outs| && outs[j].Keep? ensures Storable(outs[j].entry) {
        ItemStorable(cal, raw.items[j], ids(j));
      }
      CollectStorable(outs);
    }
  }

  /** Normalising is idempotent: the stored form of a list normalised from
      durable data (as everything the ledger itself wrote is) normalises to
      the same list, whatever identifiers are on offer. */
  lemma NormaliseIdempotent(cal: Calendar, raw: Json, ids: nat -> string, ids': nat -> string)
    requires CanonicalTimestamps(cal)
    requires Durable(raw)
    requires NormaliseSpec(cal, raw, ids).Ok?
    ensures NormaliseSpec(cal, Serialise(cal, NormaliseSpec(cal, raw, ids).value), ids') == NormaliseSpec(cal, raw, ids)
  {
    NormaliseWellFormed(cal, raw, ids);
    NormaliseStorable(cal, raw, ids);
    NormaliseRoundTrip(cal, NormaliseSpec(cal, raw, ids).value, ids');
  }
}
