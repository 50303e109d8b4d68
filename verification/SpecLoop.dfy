/** The specification feedback loop: rows are extracted from elec_spec, and elec_spec is rebuilt from the rows. */
module SpecLoop {
  import opened Text

  datatype Key =
    | ProductCategory | Quantity | RatedVoltageKv | RatedCurrentA | RatedPowerKva | RatedPowerKw | FrequencyHz | Phases
    | BreakingCapacityKa | InstallationType | CoolingType | ProtectionClass | Standards | DeliveryCondition | Notes
    | Other(name: string)

  /** SPEC_FIELDS, in order. */
  const FIELDS: seq<Key> := [
    ProductCategory, Quantity, RatedVoltageKv, RatedCurrentA, RatedPowerKva, RatedPowerKw, FrequencyHz, Phases,
    BreakingCapacityKa, InstallationType, CoolingType, ProtectionClass, Standards, DeliveryCondition, Notes]

  predicate IsField(k: Key) { !k.Other? }

  predicate IsInt(k: Key) { k.Quantity? || k.Phases? }

  predicate IsFloat(k: Key) {
    k.RatedVoltageKv? || k.RatedCurrentA? || k.RatedPowerKva? || k.RatedPowerKw? || k.FrequencyHz?
        || k.BreakingCapacityKa?
  }

  /** A JSON value. Printed stands for a number, a truth value or an object, known by its text, which is never empty;
      a list item is its text, or None. */
  datatype Value = Null | Str(s: string) | Printed(text: string) | List(items: seq<Option<string>>)

  /** Outcome of int(float(text)) or float(text): the text of the number, ValueError, or OverflowError. */
  datatype Parse = Number(text: string) | NotNumber | Overflow

  datatype NumberCodec = NumberCodec(toInt: string -> Parse, toFloat: string -> Parse)

  /** A number prints as a text that parses to the same number. Only the conversion to int overflows. */
  ghost predicate PrintsBack(c: NumberCodec) {
    && (forall s :: c.toInt(s).Number? ==> c.toInt(s).text != "" && c.toInt(c.toInt(s).text) == c.toInt(s))
    && (forall s :: c.toFloat(s).Number? ==> c.toFloat(s).text != "" && c.toFloat(c.toFloat(s).text) == c.toFloat(s))
    && (forall s :: !c.toFloat(s).Overflow?)
  }

  type Codec = c: NumberCodec | PrintsBack(c) ghost witness NumberCodec(s => NotNumber, s => NotNumber)

  // ---- values as text ----

  function Kept(items: seq<Option<string>>): seq<string> {
    if items == [] then []
    else if items[0].Some? && items[0].value != "" then [items[0].value] + Kept(items[1..])
    else Kept(items[1..])
  }

  /** _value_to_text */
  function ValueText(v: Value): string {
    match v
    case Null => ""
    case Str(s) => s
    case Printed(text) => text
    case List(items) => Join(Kept(items), ", ")
  }

  /** The values the final filter drops. */
  predicate Blank(v: Value) { v == Null || v == Str("") || v == List([]) }

  /** [part.strip() for part in parts if part.strip()] */
  function CleanParts(parts: seq<string>): seq<string> {
    if parts == [] then []
    else if Strip(parts[0]) != "" then [Strip(parts[0])] + CleanParts(parts[1..])
    else CleanParts(parts[1..])
  }

  function Items(parts: seq<string>): (items: seq<Option<string>>) {
    seq(|parts|, i requires 0 <= i < |parts| => Some(parts[i]))
  }

  /** What a non-empty required_value becomes in elec_spec. */
  function Typed(c: Codec, k: Key, text: string): Value {
    if IsInt(k) then (if c.toInt(text).Number? then Printed(c.toInt(text).text) else Null)
    else if IsFloat(k) then (if c.toFloat(text).Number? then Printed(c.toFloat(text).text) else Null)
    else if k.Standards? then List(Items(CleanParts(Split(text, ','))))
    else Str(text)
  }

  // ---- rows ----

  /** The columns that steer the loop; required is "" for NULL, isProtected says reviewed or matched. */
  datatype ItemRow = ItemRow(required: string, isProtected: bool, locks: set<string>)

  /** The parts of the notice that stay put: delivery text of the raw record, joined upload summaries. */
  datatype Source = Source(delivery: string, summaries: string)

  datatype State = State(rows: map<Key, ItemRow>, spec: map<Key, Value>)

  /** build_spec_item_candidates: required_value */
  function CandidateText(src: Source, spec: map<Key, Value>, k: Key): string {
    if k in spec then ValueText(spec[k])
    else if k.DeliveryCondition? then src.delivery
    else if k.Notes? then src.summaries
    else ""
  }

  /** merge_candidate_with_existing */
  function Merge(text: string, existing: Option<ItemRow>): ItemRow {
    match existing
    case None => ItemRow(text, false, {})
    case Some(e) =>
      ItemRow(
        if "required_value" in e.locks then e.required else text,
        e.isProtected,
        if e.isProtected || "locked_fields" in e.locks then e.locks else {})
  }

  function RowAt(rows: map<Key, ItemRow>, k: Key): Option<ItemRow> { if k in rows then Some(rows[k]) else None }

  function FieldKeys(): set<Key> {
    {ProductCategory, Quantity, RatedVoltageKv, RatedCurrentA, RatedPowerKva, RatedPowerKw, FrequencyHz, Phases,
     BreakingCapacityKa, InstallationType, CoolingType, ProtectionClass, Standards, DeliveryCondition, Notes}
  }

  function ExtractedRows(src: Source, s: State): map<Key, ItemRow> {
    map k | k in s.rows.Keys + FieldKeys() ::
      if IsField(k) then Merge(CandidateText(src, s.spec, k), RowAt(s.rows, k)) else s.rows[k]
  }

  function RequiredAt(rows: map<Key, ItemRow>, k: Key): string { if k in rows then rows[k].required else "" }

  function SpecAt(spec: map<Key, Value>, k: Key): Option<Value> { if k in spec then Some(spec[k]) else None }

  /** What a row with this text makes of the value its key had. */
  function FieldValue(c: Codec, k: Key, text: string, value: Option<Value>): Option<Value> {
    if IsField(k) && k != DeliveryCondition && text != "" then Some(Typed(c, k, text)) else value
  }

  /** The same, but notes without a value take the delivery text first. */
  function Updated(c: Codec, k: Key, text: string, delivery: string, value: Option<Value>): Option<Value> {
    FieldValue(c, k, text, if k == Notes && value == None && delivery != "" then Some(Str(delivery)) else value)
  }

  /** The value of k behind all rows, before the filter. */
  function Unfiltered(c: Codec, rows: map<Key, ItemRow>, spec: map<Key, Value>, k: Key): Option<Value> {
    Updated(c, k, RequiredAt(rows, k), RequiredAt(rows, DeliveryCondition), SpecAt(spec, k))
  }

  function NonBlank(v: Option<Value>): Option<Value> { if v.Some? && Blank(v.value) then None else v }

  function RebuiltSpec(c: Codec, rows: map<Key, ItemRow>, spec: map<Key, Value>): map<Key, Value> {
    map k | k in spec.Keys + FieldKeys()
        && NonBlank(Unfiltered(c, rows, spec, k)).Some? :: Unfiltered(c, rows, spec, k).value
  }

  predicate Converts(c: Codec, text: string) { text == "" || !c.toInt(text).Overflow? }

  /** Some integer field cannot be converted: int(float("inf")) raises. */
  predicate Overflows(c: Codec, rows: map<Key, ItemRow>) {
    !Converts(c, RequiredAt(rows, Quantity)) || !Converts(c, RequiredAt(rows, Phases))
  }

  /** One extract request; when a conversion raises, the transaction is rolled back. */
  function Round(c: Codec, src: Source, s: State): State {
    var rows := ExtractedRows(src, s);
    if Overflows(c, rows) then s else State(rows, RebuiltSpec(c, rows, s.spec))
  }

  function Rounds(c: Codec, src: Source, s: State, n: nat): State
    decreases n
  {
    if n == 0 then s else Rounds(c, src, Round(c, src, s), n - 1)
  }

  // ---- the code's loops ----

  /** RequiredAt, with only the listed rows counted. */
  function TextIn(rows: map<Key, ItemRow>, listed: seq<Key>, k: Key): string {
    if k in listed then RequiredAt(rows, k) else ""
  }

  /** What one row does to the dictionary, unless its conversion raises. */
  function AfterRow(c: Codec, spec: map<Key, Value>, key: Key, text: string): map<Key, Value> {
    if !IsField(key) || text == "" then spec
    else if key == DeliveryCondition then if Notes in spec then spec else spec[Notes := Str(text)]
    else spec[key := Typed(c, key, text)]
  }

  lemma AfterRowAt(c: Codec, rows: map<Key, ItemRow>, done: seq<Key>, key: Key, before: map<Key, Value>,
                   spec: map<Key, Value>, k: Key)
    requires key in rows && key !in done
    requires SpecAt(spec, k) == Updated(c, k, TextIn(rows, done, k), TextIn(rows, done, DeliveryCondition),
        SpecAt(before, k))
    ensures
      var now := done + [key];
      SpecAt(AfterRow(c, spec, key, rows[key].required), k)
        == Updated(c, k, TextIn(rows, now, k), TextIn(rows, now, DeliveryCondition), SpecAt(before, k))
  {
  }

  /** The dictionary behind the listed rows, key by key. */
  ghost predicate Behind(c: Codec, rows: map<Key, ItemRow>, listed: seq<Key>, existing: map<Key, Value>,
                         spec: map<Key, Value>) {
    forall k ::
      SpecAt(spec, k) == Updated(c, k, TextIn(rows, listed, k), TextIn(rows, listed, DeliveryCondition),
          SpecAt(existing, k))
  }

  lemma AfterRowIsBehind(c: Codec, rows: map<Key, ItemRow>, done: seq<Key>, key: Key, existing: map<Key, Value>,
                         spec: map<Key, Value>)
    requires key in rows && key !in done && Behind(c, rows, done, existing, spec)
    ensures Behind(c, rows, done + [key], existing, AfterRow(c, spec, key, rows[key].required))
  {
    forall k
      ensures SpecAt(AfterRow(c, spec, key, rows[key].required), k)
              == Updated(c, k, TextIn(rows, done + [key], k), TextIn(rows, done + [key], DeliveryCondition),
                  SpecAt(existing, k))
    {
      AfterRowAt(c, rows, done, key, existing, spec, k);
    }
  }

  /** One turn of the loop. */
  method ApplyRow(c: Codec, spec: map<Key, Value>, key: Key, value: string)
    returns (raised: bool, updated: map<Key, Value>)
    ensures raised <==> IsInt(key) && !Converts(c, value)
    ensures !raised ==> updated == AfterRow(c, spec, key, value)
  {
    raised, updated := false, spec;
    if IsField(key) && value != "" {
      if IsInt(key) && c.toInt(value).Overflow? {
        raised := true;
      } else if key == DeliveryCondition {
        if Notes !in updated { updated := updated[Notes := Str(value)]; }
      } else {
        updated := updated[key := Typed(c, key, value)];
      }
    }
  }

  lemma AllBehind(c: Codec, rows: map<Key, ItemRow>, listed: seq<Key>, existing: map<Key, Value>, spec: map<Key, Value>)
    requires (forall k :: k in listed <==> k in rows) && Behind(c, rows, listed, existing, spec)
    ensures Filtered(spec) == RebuiltSpec(c, rows, existing)
  {
    forall k
      ensures SpecAt(spec, k) == Unfiltered(c, rows, existing, k)
    {
      assert TextIn(rows, listed, k) == RequiredAt(rows, k);
      assert TextIn(rows, listed, DeliveryCondition) == RequiredAt(rows, DeliveryCondition);
    }
    FilteredIsRebuilt(c, rows, existing, spec);
  }

  predicate AllConvert(c: Codec, rows: map<Key, ItemRow>, keys: seq<Key>) {
    forall i :: 0 <= i < |keys| && IsInt(keys[i]) ==> Converts(c, RequiredAt(rows, keys[i]))
  }

  lemma OverflowsWhenListed(c: Codec, rows: map<Key, ItemRow>, listed: seq<Key>)
    requires forall k :: k in listed <==> k in rows
    ensures Overflows(c, rows) <==> !AllConvert(c, rows, listed)
  {
    forall k | IsInt(k) && k !in rows
      ensures Converts(c, RequiredAt(rows, k))
    {
    }
    if AllConvert(c, rows, listed) {
      forall k | IsInt(k) && k in rows
        ensures Converts(c, RequiredAt(rows, k))
      {
        var i :| 0 <= i < |listed| && listed[i] == k;
      }
    }
  }

  /** spec_items_to_elec_spec; listed is the order in which the rows were selected. */
  method SpecItemsToElecSpec(c: Codec, rows: map<Key, ItemRow>, listed: seq<Key>, existing: map<Key, Value>)
    returns (raised: bool, spec: map<Key, Value>)
    requires forall k :: k in listed <==> k in rows
    requires forall i, j :: 0 <= i < j < |listed| ==> listed[i] != listed[j]
    ensures raised == Overflows(c, rows)
    ensures !raised ==> spec == RebuiltSpec(c, rows, existing)
  {
    raised, spec := ApplyRows(c, rows, listed, existing);
    OverflowsWhenListed(c, rows, listed);
    if !raised {
      AllBehind(c, rows, listed, existing, spec);
      spec := Filtered(spec);
    }
  }

  /** The row loop; it stops at the first integer that overflows. */
  method ApplyRows(c: Codec, rows: map<Key, ItemRow>, listed: seq<Key>, existing: map<Key, Value>)
    returns (raised: bool, updated: map<Key, Value>)
    requires forall k :: k in listed ==> k in rows
    requires forall i, j :: 0 <= i < j < |listed| ==> listed[i] != listed[j]
    ensures raised == !AllConvert(c, rows, listed)
    ensures !raised ==> Behind(c, rows, listed, existing, updated)
  {
    updated := existing;
    for i := 0 to |listed|
      invariant AllConvert(c, rows, listed[..i]) && Behind(c, rows, listed[..i], existing, updated)
    {
      ghost var was := updated;
      var key := listed[i];
      assert listed[..i + 1] == listed[..i] + [key] && key in listed;
      raised, updated := ApplyRow(c, updated, key, RequiredAt(rows, key));
      if raised { return; }
      AfterRowIsBehind(c, rows, listed[..i], key, existing, was);
    }
    assert listed[..|listed|] == listed;
    raised := false;
  }

  /** {k: v for k, v in updated.items() if v not in (None, "", [])} */
  function Filtered(spec: map<Key, Value>): map<Key, Value> { map k | k in spec && !Blank(spec[k]) :: spec[k] }

  lemma FilteredIsRebuilt(c: Codec, rows: map<Key, ItemRow>, existing: map<Key, Value>, updated: map<Key, Value>)
    requires forall k :: SpecAt(updated, k) == Unfiltered(c, rows, existing, k)
    ensures Filtered(updated) == RebuiltSpec(c, rows, existing)
  {
    var spec := Filtered(updated);
    forall k
      ensures SpecAt(spec, k) == SpecAt(RebuiltSpec(c, rows, existing), k)
    {
      assert SpecAt(updated, k) == Unfiltered(c, rows, existing, k);
      RebuiltAt(c, rows, existing, k);
    }
    SameSpec(spec, RebuiltSpec(c, rows, existing));
  }

  lemma RebuiltAt(c: Codec, rows: map<Key, ItemRow>, spec: map<Key, Value>, k: Key)
    ensures SpecAt(RebuiltSpec(c, rows, spec), k) == NonBlank(Unfiltered(c, rows, spec, k))
  {
  }

  lemma ExtractedAt(src: Source, s: State, k: Key)
    ensures RowAt(ExtractedRows(src, s), k)
            == if IsField(k) then Some(Merge(CandidateText(src, s.spec, k), RowAt(s.rows, k))) else RowAt(s.rows, k)
  {
  }

  lemma FieldsListed(k: Key)
    ensures k in FIELDS <==> IsField(k)
  {
  }

  lemma SameSpec(a: map<Key, Value>, b: map<Key, Value>)
    requires forall k :: SpecAt(a, k) == SpecAt(b, k)
    ensures a == b
  {
    forall k
      ensures k in a <==> k in b
      ensures k in a ==> a[k] == b[k]
    {
      assert SpecAt(a, k) == SpecAt(b, k);
    }
  }

  lemma SameRows(a: map<Key, ItemRow>, b: map<Key, ItemRow>)
    requires forall k :: RowAt(a, k) == RowAt(b, k)
    ensures a == b
  {
    forall k
      ensures k in a <==> k in b
      ensures k in a ==> a[k] == b[k]
    {
      assert RowAt(a, k) == RowAt(b, k);
    }
  }

  /** The row loop of the request: every field's row is merged with the one found before the loop. */
  method WriteRows(src: Source, spec: map<Key, Value>, rows: map<Key, ItemRow>, fields: seq<Key>)
    returns (written: map<Key, ItemRow>)
    ensures forall k :: k in written <==> k in rows || k in fields
    ensures forall k :: k in written ==>
              written[k] == if k in fields then Merge(CandidateText(src, spec, k), RowAt(rows, k)) else rows[k]
  {
    written := rows;
    for i := 0 to |fields|
      invariant forall k :: k in written <==> k in rows || k in fields[..i]
      invariant forall k :: k in written ==>
                  written[k] == if k in fields[..i] then Merge(CandidateText(src, spec, k), RowAt(rows, k)) else rows[k]
    {
      var key := fields[i];
      assert fields[..i + 1] == fields[..i] + [key];
      written := written[key := Merge(CandidateText(src, spec, key), RowAt(rows, key))];
    }
    assert fields[..|fields|] == fields;
  }

  lemma WrittenIsExtracted(src: Source, s: State, written: map<Key, ItemRow>)
    requires forall k :: k in written <==> k in s.rows || k in FIELDS
    requires forall k :: k in written ==>
               written[k] == if k in FIELDS then Merge(CandidateText(src, s.spec, k), RowAt(s.rows, k)) else s.rows[k]
    ensures written == ExtractedRows(src, s)
    ensures forall k :: k in written <==> k in s.rows || IsField(k)
  {
    forall k
      ensures RowAt(written, k) == RowAt(ExtractedRows(src, s), k)
      ensures k in written <==> k in s.rows || IsField(k)
    {
      FieldsListed(k);
      ExtractedAt(src, s, k);
    }
    SameRows(written, ExtractedRows(src, s));
  }

  method ExtractRows(src: Source, s: State) returns (written: map<Key, ItemRow>)
    ensures written == ExtractedRows(src, s)
    ensures forall k :: k in written <==> k in s.rows || IsField(k)
  {
    written := WriteRows(src, s.spec, s.rows, FIELDS);
    WrittenIsExtracted(src, s, written);
  }

  /** The rows and the elec_spec of one notice. */
  class SpecStore {
    var rows: map<Key, ItemRow>
    var spec: map<Key, Value>

    function Snapshot(): State reads this { State(rows, spec) }

    /** extract_spec_items; listed is the order in which the written rows are selected again. */
    method ExtractSpecItems(c: Codec, src: Source, listed: seq<Key>) returns (ok: bool)
      requires forall k :: k in listed <==> k in rows || IsField(k)
      requires forall i, j :: 0 <= i < j < |listed| ==> listed[i] != listed[j]
      modifies this
      ensures ok == !Overflows(c, ExtractedRows(src, old(Snapshot())))
      ensures Snapshot() == Round(c, src, old(Snapshot()))
    {
      var written := ExtractRows(src, Snapshot());
      var raised, rebuilt := SpecItemsToElecSpec(c, written, listed, spec);
      if raised {
        ok := false;
      } else {
        rows, spec, ok := written, rebuilt, true;
      }
    }
  }

  // ---- what one request does to a row and to a key ----

  /** The text of a field's row behind an extraction: the locked one, else what elec_spec says, else the delivery text
      and the upload summaries for their two fields. */
  function RowText(src: Source, s: State, k: Key): string {
    if k in s.rows && "required_value" in s.rows[k].locks then s.rows[k].required
    else if k in s.spec then ValueText(s.spec[k])
    else
      match k
      case DeliveryCondition => src.delivery
      case Notes => src.summaries
      case _ => ""
  }

  predicate IntOverflows(c: Codec, text: string) { text != "" && c.toInt(text).Overflow? }

  ghost predicate Follows(src: Source, s: State, k: Key, after: ItemRow) {
    && after.required == RowText(src, s, k)
    && after.isProtected == (k in s.rows && s.rows[k].isProtected)
    && after.locks ==
       if k in s.rows && (s.rows[k].isProtected || "locked_fields" in s.rows[k].locks) then s.rows[k].locks else {}
  }

  lemma ExtractedRow(src: Source, s: State, k: Key)
    requires IsField(k)
    ensures k in ExtractedRows(src, s) && Follows(src, s, k, ExtractedRows(src, s)[k])
  {
    assert ExtractedRows(src, s)[k] == Merge(CandidateText(src, s.spec, k), RowAt(s.rows, k));
  }

  /** A request fails exactly when the quantity or the phase count overflows; then nothing changes. */
  lemma RoundFails(c: Codec, src: Source, s: State)
    ensures Overflows(c, ExtractedRows(src, s))
            <==> IntOverflows(c, RowText(src, s, Quantity)) || IntOverflows(c, RowText(src, s, Phases))
    ensures Overflows(c, ExtractedRows(src, s)) ==> Round(c, src, s) == s
  {
    ExtractedRow(src, s, Quantity);
    ExtractedRow(src, s, Phases);
  }

  /** A locked text stays, an unlocked one follows its source; only a reviewed row, or one that locks its lock list,
      keeps its locks; and the rows of other keys are left alone. */
  lemma RoundRow(c: Codec, src: Source, s: State, k: Key)
    requires !Overflows(c, ExtractedRows(src, s))
    ensures IsField(k) ==> k in Round(c, src, s).rows && Follows(src, s, k, Round(c, src, s).rows[k])
    ensures !IsField(k) ==> RowAt(Round(c, src, s).rows, k) == RowAt(s.rows, k)
  {
    if IsField(k) {
      ExtractedRow(src, s, k);
    } else {
      ExtractedAt(src, s, k);
    }
  }

  function ValueBehind(c: Codec, src: Source, s: State, k: Key): Option<Value> {
    if IsField(k) && k != DeliveryCondition && RowText(src, s, k) != "" then Some(Typed(c, k, RowText(src, s, k)))
    else if k == Notes && k !in s.spec && RowText(src, s, DeliveryCondition) != ""
    then Some(Str(RowText(src, s, DeliveryCondition)))
    else SpecAt(s.spec, k)
  }

  /** A row with text sets its key, except that the delivery text only fills a missing note; any other value stays,
      and blank values go. */
  lemma RoundKey(c: Codec, src: Source, s: State, k: Key)
    requires !Overflows(c, ExtractedRows(src, s))
    ensures SpecAt(Round(c, src, s).spec, k) == NonBlank(ValueBehind(c, src, s, k))
  {
    var rows := ExtractedRows(src, s);
    RebuiltAt(c, rows, s.spec, k);
    KeyBehind(c, k, RequiredAt(rows, k), RequiredAt(rows, DeliveryCondition), SpecAt(s.spec, k));
    ExtractedRow(src, s, DeliveryCondition);
    if IsField(k) { ExtractedRow(src, s, k); }
  }

  lemma KeyBehind(c: Codec, k: Key, text: string, delivery: string, value: Option<Value>)
    ensures Updated(c, k, text, delivery, value) ==
            if IsField(k) && k != DeliveryCondition && text != "" then Some(Typed(c, k, text))
            else if k == Notes && value == None && delivery != "" then Some(Str(delivery))
            else value
  {
  }

  /** A reviewed row whose text is locked. */
  predicate Pinned(s: State, k: Key) {
    IsField(k) && k in s.rows && s.rows[k].isProtected && "required_value" in s.rows[k].locks
  }

  /** What every request keeps, any number of them keeps. */
  lemma {:induction false} RoundsKeep(c: Codec, src: Source, s: State, n: nat, keeps: State -> bool)
    requires keeps(s) && forall t :: keeps(t) ==> keeps(Round(c, src, t))
    ensures keeps(Rounds(c, src, s, n))
    decreases n
  {
    if n > 0 { RoundsKeep(c, src, Round(c, src, s), n - 1, keeps); }
  }

  /** Over any number of requests it stays as it is. */
  lemma PinnedRowStays(c: Codec, src: Source, s: State, k: Key, n: nat)
    requires Pinned(s, k)
    ensures Pinned(Rounds(c, src, s, n), k) && Rounds(c, src, s, n).rows[k] == s.rows[k]
  {
    var keeps := (t: State) => Pinned(t, k) && t.rows[k] == s.rows[k];
    forall t | keeps(t)
      ensures keeps(Round(c, src, t))
    {
      if Overflows(c, ExtractedRows(src, t)) { RoundFails(c, src, t); } else { RoundRow(c, src, t, k); }
    }
    RoundsKeep(c, src, s, n, keeps);
  }

  /** A text its key can carry in elec_spec. */
  predicate HasValue(c: Codec, k: Key, text: string) {
    k != DeliveryCondition && text != "" && !Blank(Typed(c, k, text))
  }

  /** The row is pinned to this text, and its key in elec_spec is the typed text. */
  ghost predicate Governed(c: Codec, s: State, k: Key, text: string) {
    Pinned(s, k) && s.rows[k].required == text && HasValue(c, k, text) && SpecAt(s.spec, k) == Some(Typed(c, k, text))
  }

  lemma PinnedRoundGoverns(c: Codec, src: Source, s: State, k: Key, text: string)
    requires Pinned(s, k) && !Overflows(c, ExtractedRows(src, s))
    requires s.rows[k].required == text && HasValue(c, k, text)
    ensures Governed(c, Round(c, src, s), k, text)
  {
    RoundKey(c, src, s, k);
    RoundRow(c, src, s, k);
  }

  lemma GovernedStep(c: Codec, src: Source, s: State, k: Key, text: string)
    requires Governed(c, s, k, text)
    ensures Governed(c, Round(c, src, s), k, text)
  {
    if Overflows(c, ExtractedRows(src, s)) { RoundFails(c, src, s); } else { PinnedRoundGoverns(c, src, s, k, text); }
  }

  lemma GovernedOn(c: Codec, src: Source, s: State, k: Key, text: string, n: nat)
    requires Governed(c, s, k, text)
    ensures Governed(c, Rounds(c, src, s, n), k, text)
  {
    var keeps := (t: State) => Governed(c, t, k, text);
    forall t | keeps(t)
      ensures keeps(Round(c, src, t))
    {
      GovernedStep(c, src, t, k, text);
    }
    RoundsKeep(c, src, s, n, keeps);
  }

  /** And once a request succeeds, its key in elec_spec is its typed text, and stays so over any number of requests. */
  lemma PinnedRowGoverns(c: Codec, src: Source, s: State, k: Key, text: string, n: nat)
    requires Pinned(s, k) && s.rows[k].required == text && HasValue(c, k, text)
    requires !Overflows(c, ExtractedRows(src, s))
    ensures SpecAt(Rounds(c, src, Round(c, src, s), n).spec, k) == Some(Typed(c, k, text))
  {
    PinnedRoundGoverns(c, src, s, k, text);
    GovernedOn(c, src, Round(c, src, s), k, text, n);
    assert Governed(c, Rounds(c, src, Round(c, src, s), n), k, text);
  }

  ghost predicate PartOf(q: string, parts: seq<string>) { exists p :: p in parts && Strip(p) == q }

  lemma PartOfRest(q: string, parts: seq<string>)
    requires parts != []
    ensures PartOf(q, parts) <==> Strip(parts[0]) == q || PartOf(q, parts[1..])
  {
    if p :| p in parts && Strip(p) == q { assert p == parts[0] || p in parts[1..]; }
  }

  lemma {:induction false} CleanPartsMembers(parts: seq<string>, q: string)
    ensures q in CleanParts(parts) <==> q != "" && PartOf(q, parts)
  {
    if parts != [] {
      CleanPartsMembers(parts[1..], q);
      PartOfRest(q, parts);
    }
  }

  /** How a text is typed: counts as integers, ratings as floats, a number that does not convert as nothing, standards
      as their parts, anything else as the text. */
  lemma TypedByKey(c: Codec, k: Key, text: string)
    ensures k in {Quantity, Phases} ==>
              Typed(c, k, text) == match c.toInt(text) case Number(n) => Printed(n) case _ => Null
    ensures k in {RatedVoltageKv, RatedCurrentA, RatedPowerKva, RatedPowerKw, FrequencyHz, BreakingCapacityKa} ==>
              Typed(c, k, text) == match c.toFloat(text) case Number(n) => Printed(n) case _ => Null
    ensures k in {ProductCategory, InstallationType, CoolingType, ProtectionClass, DeliveryCondition, Notes} ==>
              Typed(c, k, text) == Str(text)
    ensures k == Standards ==>
              var parts := Split(text, ',');
              Typed(c, k, text).List?
              && (forall i :: i in Typed(c, k, text).items <==> i.Some? && i.value != "" && PartOf(i.value, parts))
  {
    if k == Standards {
      var parts := Split(text, ',');
      var items := Items(CleanParts(parts));
      forall i
        ensures i in items <==> i.Some? && i.value != "" && PartOf(i.value, parts)
      {
        if i.Some? { CleanPartsMembers(parts, i.value); }
        if i.Some? && i.value in CleanParts(parts) {
          var j :| 0 <= j < |items| && CleanParts(parts)[j] == i.value;
          assert items[j] == i;
        }
      }
    }
  }

  // ---- a typed value is a fixed point of text and back ----

  lemma {:induction false} CleanPartsClean(parts: seq<string>)
    requires forall p :: p in parts ==> ',' !in p
    ensures forall p :: p in CleanParts(parts) ==> p != "" && Stripped(p) && ',' !in p
  {
    if parts != [] {
      CleanPartsClean(parts[1..]);
      StripStrips(parts[0]);
      StripKeepsOut(parts[0], ',');
    }
  }

  lemma {:induction false} StripLeftKeepsOut(s: string, c: char)
    requires c !in s
    ensures c !in StripLeft(s)
  {
    if s != "" && IsSpace(s[0]) { StripLeftKeepsOut(s[1..], c); }
  }

  lemma StripKeepsOut(s: string, c: char)
    requires c !in s
    ensures c !in Strip(s)
  {
    StripLeftKeepsOut(s, c);
  }

  lemma JoinBehind(lead: string, parts: seq<string>)
    requires |parts| > 1
    ensures lead + Join(parts, ", ") == (lead + parts[0]) + [','] + (" " + Join(parts[1..], ", "))
  {
    Reassociate(lead, parts[0], Join(parts[1..], ", "));
  }

  lemma Reassociate(lead: string, a: string, b: string)
    ensures lead + (a + ", " + b) == (lead + a) + [','] + (" " + b)
  {
  }

  lemma StripLead(lead: string, s: string)
    requires (lead == "" || lead == " ") && Stripped(s)
    ensures Strip(lead + s) == s
  {
    StripPadded(lead, s, "");
    assert lead + s + "" == lead + s;
  }

  lemma FirstPart(first: string, pieces: seq<string>)
    requires Strip(first) != ""
    ensures CleanParts([first] + pieces) == [Strip(first)] + CleanParts(pieces)
  {
  }

  lemma {:induction false} JoinedPartsParse(parts: seq<string>, lead: string)
    requires lead == "" || lead == " "
    requires forall p :: p in parts ==> p != "" && Stripped(p) && ',' !in p
    ensures CleanParts(Split(lead + Join(parts, ", "), ',')) == parts
  {
    if parts == [] {
      SplitNone(lead, ',');
      assert lead + "" == lead;
      StripLead(lead, "");
    } else {
      var first := lead + parts[0];
      assert parts[0] in parts;
      StripLead(lead, parts[0]);
      assert parts == [parts[0]] + parts[1..];
      if |parts| == 1 {
        SplitNone(first, ',');
        FirstPart(first, []);
      } else {
        var rest := " " + Join(parts[1..], ", ");
        JoinBehind(lead, parts);
        SplitCons(first, rest, ',');
        JoinedPartsParse(parts[1..], " ");
        FirstPart(first, Split(rest, ','));
      }
    }
  }

  lemma {:induction false} KeptItems(parts: seq<string>)
    requires forall p :: p in parts ==> p != ""
    ensures Kept(Items(parts)) == parts
  {
    if parts != [] {
      assert parts[0] in parts;
      assert Items(parts)[1..] == Items(parts[1..]);
      forall p | p in parts[1..]
        ensures p != ""
      {
        assert p in parts;
      }
      KeptItems(parts[1..]);
      assert parts == [parts[0]] + parts[1..];
    }
  }

  /** Normalisation is idempotent: a typed value that survives prints as a text with the same typed value. */
  lemma TypedIsStable(c: Codec, k: Key, text: string)
    requires text != "" && !Blank(Typed(c, k, text))
    ensures ValueText(Typed(c, k, text)) != ""
    ensures Typed(c, k, ValueText(Typed(c, k, text))) == Typed(c, k, text)
  {
    assert PrintsBack(c);
    if k.Standards? {
      var parts := CleanParts(Split(text, ','));
      SplitHasNoSep(text, ',');
      CleanPartsClean(Split(text, ','));
      KeptItems(parts);
      JoinedPartsParse(parts, "");
      assert "" + Join(parts, ", ") == Join(parts, ", ");
      assert parts[0] in parts;
    }
  }

  // ---- the fixed point ----

  /** A lock on required_value that the next extraction forgets. */
  predicate LosesLock(row: ItemRow) {
    "required_value" in row.locks && !row.isProtected && "locked_fields" !in row.locks
  }

  predicate LocksLast(rows: map<Key, ItemRow>) { forall k :: k in rows && IsField(k) ==> !LosesLock(rows[k]) }

  /** A successful round, key by key. */
  ghost predicate Stepped(c: Codec, src: Source, s: State, t: State) {
    && (forall k :: IsField(k) ==> RowAt(t.rows, k) == Some(Merge(CandidateText(src, s.spec, k), RowAt(s.rows, k))))
    && (forall k :: !IsField(k) ==> RowAt(t.rows, k) == RowAt(s.rows, k))
    && (forall k :: SpecAt(t.spec, k) == NonBlank(Unfiltered(c, t.rows, s.spec, k)))
  }

  lemma RoundSteps(c: Codec, src: Source, s: State)
    requires !Overflows(c, ExtractedRows(src, s))
    ensures Stepped(c, src, s, Round(c, src, s))
  {
    var rows := ExtractedRows(src, s);
    forall k
      ensures RowAt(rows, k)
              == if IsField(k) then Some(Merge(CandidateText(src, s.spec, k), RowAt(s.rows, k))) else RowAt(s.rows, k)
    {
      ExtractedAt(src, s, k);
    }
    forall k
      ensures SpecAt(RebuiltSpec(c, rows, s.spec), k) == NonBlank(Unfiltered(c, rows, s.spec, k))
    {
      RebuiltAt(c, rows, s.spec, k);
    }
  }

  /** A round keeps no lock that the next one would lose. */
  lemma StepLocksLast(c: Codec, src: Source, s: State, t: State)
    requires Stepped(c, src, s, t)
    ensures LocksLast(t.rows)
  {
  }

  /** The value a text leaves is left again by the same text and, unless the text was empty, by its own text. */
  lemma OnceIsEnough(c: Codec, k: Key, text: string, value: Option<Value>, next: string)
    requires
      var left := NonBlank(FieldValue(c, k, text, value));
      || next == text
      || (text != "" && IsField(k) && k != DeliveryCondition
          && next == if left.Some? then ValueText(left.value) else "")
    ensures
      var left := NonBlank(FieldValue(c, k, text, value));
      NonBlank(FieldValue(c, k, next, left)) == left
  {
    var left := NonBlank(FieldValue(c, k, text, value));
    if next != text && left.Some? {
      TypedIsStable(c, k, text);
    }
  }

  /** Behind a round, a row either holds a locked text for good or the text of its value. */
  lemma NextText(c: Codec, src: Source, s: State, t: State, u: State, k: Key)
    requires IsField(k) && LocksLast(s.rows) && Stepped(c, src, s, t) && Stepped(c, src, t, u)
    ensures || RequiredAt(u.rows, k) == RequiredAt(t.rows, k)
            || (RequiredAt(t.rows, k) == CandidateText(src, s.spec, k)
                && RequiredAt(u.rows, k) == CandidateText(src, t.spec, k))
  {
  }

  /** Keys other than the notes have their final value behind one round. */
  lemma FieldSettles(c: Codec, src: Source, s: State, t: State, u: State, k: Key)
    requires k != Notes && LocksLast(s.rows) && Stepped(c, src, s, t) && Stepped(c, src, t, u)
    ensures SpecAt(u.spec, k) == SpecAt(t.spec, k)
  {
    var text := RequiredAt(t.rows, k);
    assert SpecAt(t.spec, k) == NonBlank(FieldValue(c, k, text, SpecAt(s.spec, k)));
    assert SpecAt(u.spec, k) == NonBlank(FieldValue(c, k, RequiredAt(u.rows, k), SpecAt(t.spec, k)));
    if IsField(k) && k != DeliveryCondition {
      NextText(c, src, s, t, u, k);
      OnceIsEnough(c, k, text, SpecAt(s.spec, k), RequiredAt(u.rows, k));
    }
  }

  lemma NotesValue(c: Codec, src: Source, s: State, t: State)
    requires Stepped(c, src, s, t)
    ensures SpecAt(t.spec, Notes)
            == NonBlank(Updated(c, Notes, RequiredAt(t.rows, Notes), RequiredAt(t.rows, DeliveryCondition),
                SpecAt(s.spec, Notes)))
  {
    assert SpecAt(t.spec, Notes) == NonBlank(Unfiltered(c, t.rows, s.spec, Notes));
  }

  lemma SameValueSameText(c: Codec, src: Source, s: State, t: State, u: State, k: Key)
    requires IsField(k) && LocksLast(s.rows) && Stepped(c, src, s, t) && Stepped(c, src, t, u)
    requires SpecAt(s.spec, k) == SpecAt(t.spec, k)
    ensures RequiredAt(u.rows, k) == RequiredAt(t.rows, k)
  {
    NextText(c, src, s, t, u, k);
  }

  /** Notes that have a value keep it: it is the text of their row, or their row is empty. */
  lemma NotesStay(c: Codec, text: string, delivery: string, value: Option<Value>, next: string, nextDelivery: string)
    requires
      var left := NonBlank(Updated(c, Notes, text, delivery, value));
      left.Some? && (next == text
          || (next == ValueText(left.value) && (value.Some? ==> text == ValueText(value.value))))
    ensures
      var left := NonBlank(Updated(c, Notes, text, delivery, value));
      NonBlank(Updated(c, Notes, next, nextDelivery, left)) == left
  {
  }

  lemma DeliveryStays(c: Codec, src: Source, s: State, t: State, u: State)
    requires Stepped(c, src, s, t) && Stepped(c, src, t, u)
    ensures SpecAt(u.spec, DeliveryCondition) == SpecAt(t.spec, DeliveryCondition)
  {
    assert SpecAt(t.spec, DeliveryCondition) == NonBlank(SpecAt(s.spec, DeliveryCondition));
    assert SpecAt(u.spec, DeliveryCondition) == NonBlank(SpecAt(t.spec, DeliveryCondition));
  }

  /** The notes have theirs behind two: the delivery text may enter in the second. */
  lemma NotesSettle(c: Codec, src: Source, s: State, t: State, u: State, v: State)
    requires Stepped(c, src, s, t) && Stepped(c, src, t, u) && Stepped(c, src, u, v)
    ensures SpecAt(v.spec, Notes) == SpecAt(u.spec, Notes)
  {
    StepLocksLast(c, src, s, t);
    NotesValue(c, src, s, t);
    NotesValue(c, src, t, u);
    NotesValue(c, src, u, v);
    NextText(c, src, t, u, v, Notes);
    if SpecAt(u.spec, Notes).Some? {
      NotesStay(c, RequiredAt(u.rows, Notes), RequiredAt(u.rows, DeliveryCondition), SpecAt(t.spec, Notes),
                RequiredAt(v.rows, Notes), RequiredAt(v.rows, DeliveryCondition));
    } else {
      DeliveryStays(c, src, s, t, u);
      SameValueSameText(c, src, t, u, v, DeliveryCondition);
    }
  }

  lemma SpecSettles(c: Codec, src: Source, s: State, t: State, u: State, v: State)
    requires Stepped(c, src, s, t) && Stepped(c, src, t, u) && Stepped(c, src, u, v)
    ensures v.spec == u.spec
  {
    StepLocksLast(c, src, s, t);
    forall k
      ensures SpecAt(v.spec, k) == SpecAt(u.spec, k)
    {
      if k == Notes { NotesSettle(c, src, s, t, u, v); } else { FieldSettles(c, src, t, u, v, k); }
    }
    SameSpec(v.spec, u.spec);
  }

  lemma RowsSettle(c: Codec, src: Source, s: State, t: State, u: State)
    requires LocksLast(s.rows) && Stepped(c, src, s, t) && Stepped(c, src, t, u) && s.spec == t.spec
    ensures u.rows == t.rows
  {
    forall k
      ensures RowAt(u.rows, k) == RowAt(t.rows, k)
    {
      if IsField(k) {
        assert RowAt(t.rows, k) == Some(Merge(CandidateText(src, s.spec, k), RowAt(s.rows, k)));
        assert RowAt(u.rows, k) == Some(Merge(CandidateText(src, t.spec, k), RowAt(t.rows, k)));
      }
    }
    SameRows(u.rows, t.rows);
  }

  lemma KeepsConverting(c: Codec, src: Source, s: State, t: State, k: Key)
    requires IsInt(k) && LocksLast(s.rows) && Stepped(c, src, s, t) && Converts(c, RequiredAt(t.rows, k))
    ensures Converts(c, Merge(CandidateText(src, t.spec, k), RowAt(t.rows, k)).required)
  {
    assert PrintsBack(c);
    assert RowAt(t.rows, k) == Some(Merge(CandidateText(src, s.spec, k), RowAt(s.rows, k)));
    assert SpecAt(t.spec, k) == NonBlank(FieldValue(c, k, RequiredAt(t.rows, k), SpecAt(s.spec, k)));
  }

  /** When one round converts its numbers, so does the next. */
  lemma NoLaterOverflow(c: Codec, src: Source, s: State, t: State, next: map<Key, ItemRow>)
    requires LocksLast(s.rows) && Stepped(c, src, s, t) && !Overflows(c, t.rows)
    requires forall k :: IsField(k) ==> RowAt(next, k) == Some(Merge(CandidateText(src, t.spec, k), RowAt(t.rows, k)))
    ensures !Overflows(c, next)
  {
    KeepsConverting(c, src, s, t, Quantity);
    KeepsConverting(c, src, s, t, Phases);
    assert RowAt(next, Quantity).Some? && RowAt(next, Phases).Some?;
  }

  lemma RoundsOn(c: Codec, src: Source, s: State, t: State)
    requires LocksLast(s.rows) && Stepped(c, src, s, t) && !Overflows(c, t.rows)
    ensures Stepped(c, src, t, Round(c, src, t)) && LocksLast(t.rows) && !Overflows(c, Round(c, src, t).rows)
  {
    var next := ExtractedRows(src, t);
    forall k | IsField(k)
      ensures RowAt(next, k) == Some(Merge(CandidateText(src, t.spec, k), RowAt(t.rows, k)))
    {
      ExtractedAt(src, t, k);
    }
    NoLaterOverflow(c, src, s, t, next);
    RoundSteps(c, src, t);
    StepLocksLast(c, src, s, t);
  }

  /** Without edits, three rounds reach a fixed point of rows and elec_spec, whatever they were to begin with. */
  lemma {:induction false} ThreeRoundsSettle(c: Codec, src: Source, s: State)
    ensures Rounds(c, src, s, 2).spec == Rounds(c, src, s, 3).spec
    ensures Round(c, src, Rounds(c, src, s, 3)) == Rounds(c, src, s, 3)
  {
    var s1 := Round(c, src, s);
    var s2 := Round(c, src, s1);
    var s3 := Round(c, src, s2);
    ThreeRounds(c, src, s);
    if !Overflows(c, ExtractedRows(src, s)) && !Overflows(c, ExtractedRows(src, s1)) {
      RoundSteps(c, src, s);
      StepLocksLast(c, src, s, s1);
      RoundSteps(c, src, s1);
      RoundsOn(c, src, s1, s2);
      RoundsOn(c, src, s2, s3);
      var s4 := Round(c, src, s3);
      SpecSettles(c, src, s, s1, s2, s3);
      SpecSettles(c, src, s1, s2, s3, s4);
      RowsSettle(c, src, s2, s3, s4);
    }
  }

  lemma ThreeRounds(c: Codec, src: Source, s: State)
    ensures Rounds(c, src, s, 2) == Round(c, src, Round(c, src, s))
    ensures Rounds(c, src, s, 3) == Round(c, src, Round(c, src, Round(c, src, s)))
  {
    var t := Round(c, src, s);
    var u := Round(c, src, t);
    assert Rounds(c, src, u, 0) == u && Rounds(c, src, u, 1) == Rounds(c, src, Round(c, src, u), 0);
    assert Rounds(c, src, t, 1) == u && Rounds(c, src, t, 2) == Rounds(c, src, u, 1);
  }

  /** An infinite quantity makes every round fail: nothing changes any more. */
  lemma {:induction false} OverflowStops(c: Codec, src: Source, text: string, n: nat)
    requires text != "" && c.toInt(text).Overflow?
    ensures
      var s := State(map[], map[Quantity := Printed(text)]);
      Overflows(c, ExtractedRows(src, s)) && Rounds(c, src, s, n) == s
  {
    var s := State(map[], map[Quantity := Printed(text)]);
    ExtractedAt(src, s, Quantity);
    assert RowAt(ExtractedRows(src, s), Quantity).value.required == text;
    if n > 0 { OverflowStops(c, src, text, n - 1); }
  }

  /** Two rounds are not enough: the delivery text reaches the notes row only in the third. */
  lemma {:induction false} TwoRoundsDoNotSettle(c: Codec)
    ensures
      var src, s := Source("30", ""), State(map[], map[Notes := Str("")]);
      Round(c, src, Rounds(c, src, s, 2)) != Rounds(c, src, s, 2)
  {
    var src, s := Source("30", ""), State(map[], map[Notes := Str("")]);
    var s1 := Round(c, src, s);
    var s2 := Round(c, src, s1);
    var s3 := Round(c, src, s2);
    ThreeRounds(c, src, s);
    ExtractedAt(src, s, Quantity);
    ExtractedAt(src, s, Phases);
    RoundSteps(c, src, s);
    RoundsOn(c, src, s, s1);
    RoundsOn(c, src, s1, s2);
    LateNotes(c, src, s, s1, s2, s3);
  }

  lemma LateNotes(c: Codec, src: Source, s: State, t: State, u: State, v: State)
    requires s.rows == map[] && s.spec == map[Notes := Str("")] && src == Source("30", "")
    requires Stepped(c, src, s, t) && Stepped(c, src, t, u) && Stepped(c, src, u, v)
    ensures RequiredAt(u.rows, Notes) == "" && RequiredAt(v.rows, Notes) == "30"
  {
    assert RowAt(t.rows, Notes) == Some(ItemRow("", false, {}));
    assert RowAt(t.rows, DeliveryCondition) == Some(ItemRow("30", false, {}));
    assert SpecAt(t.spec, Notes) == None && SpecAt(t.spec, DeliveryCondition) == None;
    assert RowAt(u.rows, Notes) == Some(ItemRow("", false, {}));
    assert RowAt(u.rows, DeliveryCondition) == Some(ItemRow("30", false, {}));
    assert SpecAt(u.spec, Notes) == Some(Str("30"));
    assert RowAt(v.rows, Notes) == Some(ItemRow("30", false, {}));
  }
}
