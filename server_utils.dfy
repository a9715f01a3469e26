/** The data loaders of src/lib/server-utils.ts, without their file reads:
    the projections that turn the multilingual JSON records into records of
    one language, the gallery paths and the date order of the news. The
    parsed JSON is a dynamic `Value`; a JavaScript `TypeError` (reading a
    property of `null`, calling `map` on a non-array) is an explicit result. */
module ServerUtils {
  import opened JsCore
  import opened SiteTypes

  /** The languages a multilingual record may have keys for. */
  const Languages: seq<string> := ["en", "kk", "ru"]

  /** A JavaScript value as JSON.parse and the projections produce it.
      Numbers are whole numbers; object fields are in `Object.entries` order. */
  datatype Value =
    | Undefined
    | Null
    | Bool(b: bool)
    | Num(n: int)
    | Str(s: string)
    | Arr(items: seq<Value>)
    | Obj(fields: seq<(string, Value)>)

  /** The outcome of an expression that may throw a `TypeError`. */
  datatype Result<T> = Ok(value: T) | TypeError

  // ---------------------------------------------------------------------------
  // Property access and own entries

  function DigitChar(d: nat): char
    requires d < 10
  {
    ('0' as int + d) as char
  }

  /** The decimal form of an array index, as property keys spell it. */
  function Decimal(n: nat): (s: string)
    ensures s != []
    ensures forall c :: c in s ==> IsDigit(c)
  {
    if n < 10 then [DigitChar(n)] else Decimal(n / 10) + [DigitChar(n % 10)]
  }

  /** The index below `n` whose key is `key`, searching from `i`. */
  function IndexFor(key: string, n: nat, i: nat): (r: Option<nat>)
    requires i <= n
    ensures r.Some? ==> i <= r.value < n && Decimal(r.value) == key
    ensures r.None? ==> forall j :: i <= j < n ==> Decimal(j) != key
    decreases n - i
  {
    if i == n then None else if Decimal(i) == key then Some(i) else IndexFor(key, n, i + 1)
  }

  /** The position of the first field named `key`, or the length when
      there is none. */
  function FirstField(fields: seq<(string, Value)>, key: string): (i: nat)
    ensures i <= |fields|
    ensures forall j :: 0 <= j < i ==> fields[j].0 != key
    ensures i < |fields| ==> fields[i].0 == key
  {
    if fields == [] || fields[0].0 == key then 0
    else 1 + FirstField(fields[1..], key)
  }

  /** The value of the first field named `key`, `undefined` without one. */
  function Lookup(fields: seq<(string, Value)>, key: string): (v: Value)
    ensures (forall f :: f in fields ==> f.0 != key) ==> v == Undefined
    ensures v != Undefined ==> (key, v) in fields
    ensures var i := FirstField(fields, key); i < |fields| ==> v == fields[i].1
  {
    if fields == [] then Undefined
    else if fields[0].0 == key then fields[0].1
    else Lookup(fields[1..], key)
  }

  /** `v[key]`, for own properties: reading from `null` or `undefined`
      throws; arrays and strings have their indices and `length`. */
  function Prop(v: Value, key: string): (r: Result<Value>)
    ensures r.TypeError? <==> v.Undefined? || v.Null?
    ensures v.Obj? ==> r == Ok(Lookup(v.fields, key))
  {
    match v
    case Undefined => TypeError
    case Null => TypeError
    case Obj(fields) => Ok(Lookup(fields, key))
    case Arr(items) =>
      if key == "length" then Ok(Num(|items|))
      else (match IndexFor(key, |items|, 0) case Some(i) => Ok(items[i]) case None => Ok(Undefined))
    case Str(s) =>
      if key == "length" then Ok(Num(|s|))
      else (match IndexFor(key, |s|, 0) case Some(i) => Ok(Str([s[i]])) case None => Ok(Undefined))
    case _ => Ok(Undefined)
  }

  /** The own enumerable entries of a value, as `Object.entries` and object
      spread see them (`null` and `undefined` have none to spread). */
  function OwnEntries(v: Value): seq<(string, Value)>
  {
    match v
    case Obj(fields) => fields
    case Arr(items) => seq(|items|, i requires 0 <= i < |items| => (Decimal(i), items[i]))
    case Str(s) => seq(|s|, i requires 0 <= i < |s| => (Decimal(i), Str([s[i]])))
    case _ => []
  }

  /** `Object.entries(v)`, which throws on `null` and `undefined`. */
  function Entries(v: Value): (r: Result<seq<(string, Value)>>)
    ensures r.TypeError? <==> v.Undefined? || v.Null?
    ensures r.Ok? ==> r.value == OwnEntries(v)
  {
    if v.Undefined? || v.Null? then TypeError else Ok(OwnEntries(v))
  }

  /** `typeof v === 'object'`. */
  predicate IsObjectType(v: Value)
  {
    v.Null? || v.Arr? || v.Obj?
  }

  /** The field names of a record, in order. */
  function Keys(fields: seq<(string, Value)>): (keys: seq<string>)
    ensures |keys| == |fields| && forall i :: 0 <= i < |fields| ==> keys[i] == fields[i].0
  {
    if fields == [] then [] else [fields[0].0] + Keys(fields[1..])
  }

  /** `{ ...record, key: v }`: the field replaced where it stands, or added last. */
  function SetField(fields: seq<(string, Value)>, key: string, v: Value): (r: seq<(string, Value)>)
    ensures Lookup(r, key) == v
    ensures forall k :: k != key ==> Lookup(r, k) == Lookup(fields, k)
  {
    if fields == [] then [(key, v)]
    else if fields[0].0 == key then
      var r := [(key, v)] + fields[1..];
      assert r[1..] == fields[1..];
      r
    else
      var r := [fields[0]] + SetField(fields[1..], key, v);
      assert r[1..] == SetField(fields[1..], key, v);
      r
  }

  /** The fields of `{ ...record, key: v }` keep their order; a new field
      comes last. */
  lemma {:induction false} SetFieldKeyOrder(fields: seq<(string, Value)>, key: string, v: Value)
    ensures key in Keys(fields) ==> Keys(SetField(fields, key, v)) == Keys(fields)
    ensures key !in Keys(fields) ==> Keys(SetField(fields, key, v)) == Keys(fields) + [key]
  {
    if fields != [] {
      var r := SetField(fields, key, v);
      if fields[0].0 != key {
        SetFieldKeyOrder(fields[1..], key, v);
        assert key in Keys(fields) <==> key in Keys(fields[1..]);
        assert r[1..] == SetField(fields[1..], key, v);
      } else {
        assert r[1..] == fields[1..];
      }
    }
  }

  // ---------------------------------------------------------------------------
  // Mapping with exceptions

  /** `items.map(f)`: the results in order, or the exception of the first
      element that throws. */
  function MapAll<A, B>(items: seq<A>, f: A -> Result<B>): (r: Result<seq<B>>)
    ensures r.Ok? <==> forall i :: 0 <= i < |items| ==> f(items[i]).Ok?
    ensures r.Ok? ==> |r.value| == |items| && forall i :: 0 <= i < |items| ==> r.value[i] == f(items[i]).value
  {
    if items == [] then Ok([])
    else
      match f(items[0])
      case TypeError => TypeError
      case Ok(first) =>
        match MapAll(items[1..], f)
        case TypeError => TypeError
        case Ok(rest) => Ok([first] + rest)
  }

  // ---------------------------------------------------------------------------
  // getLabsData

  /** `Object.keys(v).every(key => LANGUAGES.includes(key))`. */
  function KeysAreLanguages(v: Value): (r: Result<bool>)
    ensures r.TypeError? <==> v.Undefined? || v.Null?
    ensures v.Obj? ==> r == Ok(forall f :: f in v.fields ==> f.0 in Languages)
  {
    match Entries(v)
    case TypeError => TypeError
    case Ok(entries) => Ok(forall e :: e in entries ==> e.0 in Languages)
  }

  /** One field of a lab: an object whose keys are all languages is replaced
      by its entry for `hl`; every other value is kept. */
  function LocalizedField(hl: string, field: (string, Value)): (r: Result<(string, Value)>)
    ensures r.TypeError? <==> field.1.Null?
    ensures r.Ok? ==> r.value.0 == field.0
    ensures !IsObjectType(field.1) ==> r == Ok(field)
    ensures field.1.Obj? && (forall f :: f in field.1.fields ==> f.0 in Languages) ==>
      r == Ok((field.0, Lookup(field.1.fields, hl)))
    ensures field.1.Obj? && !(forall f :: f in field.1.fields ==> f.0 in Languages) ==> r == Ok(field)
  {
    var (key, val) := field;
    if IsObjectType(val) then
      match KeysAreLanguages(val)
      case TypeError => TypeError
      case Ok(all) =>
        if all then (match Prop(val, hl) case Ok(x) => Ok((key, x)) case TypeError => TypeError)
        else Ok(field)
    else Ok(field)
  }

  function FieldLocalizer(hl: string): ((string, Value)) -> Result<(string, Value)>
  {
    (field: (string, Value)) => LocalizedField(hl, field)
  }

  /** One lab: its fields localised, in order. */
  function LocalizedLab(hl: string, lab: Value): (r: Result<Value>)
    ensures r.Ok? ==> r.value.Obj? && |r.value.fields| == |OwnEntries(lab)|
    ensures r.Ok? ==> forall i :: 0 <= i < |OwnEntries(lab)| ==>
      LocalizedField(hl, OwnEntries(lab)[i]) == Ok(r.value.fields[i])
  {
    match Entries(lab)
    case TypeError => TypeError
    case Ok(entries) =>
      match MapAll(entries, FieldLocalizer(hl))
      case TypeError => TypeError
      case Ok(fields) => Ok(Obj(fields))
  }

  function LabLocalizer(hl: string): ((string, Value)) -> Result<(string, Value)>
  {
    (entry: (string, Value)) => match LocalizedLab(hl, entry.1) case Ok(lab) => Ok((entry.0, lab)) case TypeError => TypeError
  }

  /** The projection inside `getLabsData`: every lab localised, under its id. */
  function LabsProjection(hl: string, data: Value): (r: Result<Value>)
    ensures r.Ok? ==> r.value.Obj? && |r.value.fields| == |OwnEntries(data)|
    ensures r.Ok? ==> forall i :: 0 <= i < |OwnEntries(data)| ==>
      r.value.fields[i].0 == OwnEntries(data)[i].0 &&
      Ok(r.value.fields[i].1) == LocalizedLab(hl, OwnEntries(data)[i].1)
  {
    match Entries(data)
    case TypeError => TypeError
    case Ok(entries) =>
      match MapAll(entries, LabLocalizer(hl))
      case TypeError => TypeError
      case Ok(labs) => Ok(Obj(labs))
  }

  /** `getLabsData`: the projection of the parsed file, or `{}` when the
      file cannot be read or parsed (`data` is none) or the projection throws. */
  function GetLabsData(hl: string, data: Option<Value>): (r: Value)
    ensures data.None? ==> r == Obj([])
    ensures data.Some? && LabsProjection(hl, data.value).TypeError? ==> r == Obj([])
    ensures data.Some? && LabsProjection(hl, data.value).Ok? ==> r == LabsProjection(hl, data.value).value
  {
    match data
    case None => Obj([])
    case Some(d) => match LabsProjection(hl, d) case Ok(v) => v case TypeError => Obj([])
  }

  /** An empty object or an empty array passes the key test vacuously and
      becomes `undefined`. */
  lemma {:induction false} EmptyFieldBecomesUndefined(hl: string, key: string)
    requires hl in Languages
    ensures LocalizedField(hl, (key, Obj([]))) == Ok((key, Undefined))
    ensures LocalizedField(hl, (key, Arr([]))) == Ok((key, Undefined))
  {
    assert KeysAreLanguages(Arr([])) == Ok(true);
  }

  /** A non-empty array is not a language record and is kept. */
  lemma {:induction false} ArrayFieldKept(hl: string, key: string, items: seq<Value>)
    requires items != []
    ensures LocalizedField(hl, (key, Arr(items))) == Ok((key, Arr(items)))
  {
    var entries := OwnEntries(Arr(items));
    assert entries[0].0 == "0";
    assert "0" !in Languages;
    assert entries[0] in entries;
  }

  /** A `null` field makes the projection throw, so the labs come out empty. */
  lemma {:induction false} NullFieldEmptiesLabs(hl: string, labs: seq<(string, Value)>, i: nat, key: string)
    requires i < |labs| && labs[i].1.Obj? && (key, Null) in labs[i].1.fields
    ensures GetLabsData(hl, Some(Obj(labs))) == Obj([])
  {
    var fields := labs[i].1.fields;
    var j :| 0 <= j < |fields| && fields[j] == (key, Null);
    assert LocalizedField(hl, fields[j]).TypeError?;
    assert LocalizedLab(hl, labs[i].1).TypeError?;
    assert LabLocalizer(hl)(labs[i]).TypeError?;
  }

  // ---------------------------------------------------------------------------
  // getTeamData and getPartnersData

  /** `{ ...record, a: record.a[hl], b: record.b[hl] }`. */
  function LocalizedRecord(hl: string, record: Value, a: string, b: string): (r: Result<Value>)
    requires a != b
    ensures r.Ok? <==> Prop(record, a).Ok? && Prop(Prop(record, a).value, hl).Ok? &&
                       Prop(record, b).Ok? && Prop(Prop(record, b).value, hl).Ok?
    ensures r.Ok? ==> r.value.Obj?
    ensures r.Ok? ==> Lookup(r.value.fields, a) == Prop(Prop(record, a).value, hl).value
    ensures r.Ok? ==> Lookup(r.value.fields, b) == Prop(Prop(record, b).value, hl).value
    ensures r.Ok? ==> forall k :: k != a && k != b ==> Lookup(r.value.fields, k) == Lookup(OwnEntries(record), k)
  {
    match Prop(record, a)
    case TypeError => TypeError
    case Ok(va) =>
      match Prop(va, hl)
      case TypeError => TypeError
      case Ok(la) =>
        match Prop(record, b)
        case TypeError => TypeError
        case Ok(vb) =>
          match Prop(vb, hl)
          case TypeError => TypeError
          case Ok(lb) => Ok(Obj(SetField(SetField(OwnEntries(record), a, la), b, lb)))
  }

  function MemberLocalizer(hl: string): Value -> Result<Value>
  {
    (member: Value) => LocalizedRecord(hl, member, "name", "position")
  }

  /** `tier.map(...)`: only an array has `map`. */
  function LocalizedTier(hl: string, tier: Value): (r: Result<Value>)
    ensures r.Ok? ==> tier.Arr? && r.value.Arr? && |r.value.items| == |tier.items|
    ensures r.Ok? ==> forall j :: 0 <= j < |tier.items| ==>
      Ok(r.value.items[j]) == LocalizedRecord(hl, tier.items[j], "name", "position")
  {
    match tier
    case Arr(members) =>
      (match MapAll(members, MemberLocalizer(hl)) case Ok(out) => Ok(Arr(out)) case TypeError => TypeError)
    case _ => TypeError
  }

  function TierLocalizer(hl: string): Value -> Result<Value>
  {
    (tier: Value) => LocalizedTier(hl, tier)
  }

  /** The projection of `getTeamData`: the same tiers with the same members
      in the same order, each with `name` and `position` in language `hl`
      and every other field as it was. */
  function TeamProjection(hl: string, data: Value): (r: Result<Value>)
    ensures r.Ok? ==> data.Arr? && r.value.Arr? && |r.value.items| == |data.items|
    ensures r.Ok? ==> forall i :: 0 <= i < |data.items| ==> Ok(r.value.items[i]) == LocalizedTier(hl, data.items[i])
  {
    match data
    case Arr(tiers) =>
      (match MapAll(tiers, TierLocalizer(hl)) case Ok(out) => Ok(Arr(out)) case TypeError => TypeError)
    case _ => TypeError
  }

  /** A member of the team projection: `name` and `position` localised,
      every other field kept. */
  lemma {:induction false} TeamMemberProjected(hl: string, data: Value, i: nat, j: nat)
    requires TeamProjection(hl, data).Ok?
    requires i < |data.items| && data.items[i].Arr? && j < |data.items[i].items|
    ensures var out := TeamProjection(hl, data).value.items[i].items[j];
      var member := data.items[i].items[j];
      out.Obj? &&
      Lookup(out.fields, "name") == Prop(Prop(member, "name").value, hl).value &&
      Lookup(out.fields, "position") == Prop(Prop(member, "position").value, hl).value &&
      forall k :: k != "name" && k != "position" ==> Lookup(out.fields, k) == Lookup(OwnEntries(member), k)
  {
    var tier := TeamProjection(hl, data).value.items[i];
    assert Ok(tier) == LocalizedTier(hl, data.items[i]);
    assert Ok(tier.items[j]) == LocalizedRecord(hl, data.items[i].items[j], "name", "position");
  }

  function PartnerLocalizer(hl: string): Value -> Result<Value>
  {
    (partner: Value) => LocalizedRecord(hl, partner, "name", "location")
  }

  /** One partner list: `data[key].map(...)`. */
  function LocalizedPartners(hl: string, data: Value, key: string): (r: Result<seq<Value>>)
    ensures r.Ok? ==> Prop(data, key).Ok? && Prop(data, key).value.Arr?
    ensures r.Ok? ==> |r.value| == |Prop(data, key).value.items|
    ensures r.Ok? ==> forall i :: 0 <= i < |r.value| ==>
      Ok(r.value[i]) == LocalizedRecord(hl, Prop(data, key).value.items[i], "name", "location")
  {
    match Prop(data, key)
    case Ok(Arr(list)) => MapAll(list, PartnerLocalizer(hl))
    case _ => TypeError
  }

  /** The projection of `getPartnersData`: both lists, same length and order,
      with `name` and `location` in language `hl`. */
  function PartnersProjection(hl: string, data: Value): (r: Result<Value>)
    ensures r.Ok? <==> LocalizedPartners(hl, data, "partners").Ok? && LocalizedPartners(hl, data, "universityPartners").Ok?
    ensures r.Ok? ==> r.value == Obj([("partners", Arr(LocalizedPartners(hl, data, "partners").value)),
                                      ("universityPartners", Arr(LocalizedPartners(hl, data, "universityPartners").value))])
  {
    match LocalizedPartners(hl, data, "partners")
    case TypeError => TypeError
    case Ok(partners) =>
      match LocalizedPartners(hl, data, "universityPartners")
      case TypeError => TypeError
      case Ok(university) => Ok(Obj([("partners", Arr(partners)), ("universityPartners", Arr(university))]))
  }

  // ---------------------------------------------------------------------------
  // getStrings

  function StringLocalizer(hl: string): ((string, Value)) -> Result<(string, Value)>
  {
    (entry: (string, Value)) => match Prop(entry.1, hl) case Ok(v) => Ok((entry.0, v)) case TypeError => TypeError
  }

  /** The projection of `getStrings`: the same keys in the same order, each
      value replaced by its entry for `hl`. */
  function StringsProjection(hl: string, data: Value): (r: Result<Value>)
    ensures r.Ok? ==> r.value.Obj? && |r.value.fields| == |OwnEntries(data)|
    ensures r.Ok? ==> forall i :: 0 <= i < |OwnEntries(data)| ==>
      r.value.fields[i].0 == OwnEntries(data)[i].0 && Ok(r.value.fields[i].1) == Prop(OwnEntries(data)[i].1, hl)
    ensures data.Obj? ==> (r.TypeError? <==> exists f :: f in data.fields && (f.1.Null? || f.1.Undefined?))
  {
    match Entries(data)
    case TypeError => TypeError
    case Ok(entries) =>
      var m := MapAll(entries, StringLocalizer(hl));
      assert data.Obj? ==> (m.TypeError? <==> exists f :: f in data.fields && (f.1.Null? || f.1.Undefined?)) by {
        if data.Obj? && m.TypeError? {
          var i :| 0 <= i < |entries| && !StringLocalizer(hl)(entries[i]).Ok?;
          assert entries[i] in data.fields;
        }
      }
      match m
      case TypeError => TypeError
      case Ok(fields) => Ok(Obj(fields))
  }

  // ---------------------------------------------------------------------------
  // getGalleryPaths

  /** `getGalleryPaths`: each file of the gallery folder as a site path, in
      the listing's order; nothing when the folder cannot be listed. */
  function GalleryPaths(files: Option<seq<string>>): (paths: seq<string>)
    ensures files.None? ==> paths == []
    ensures files.Some? ==> |paths| == |files.value|
    ensures files.Some? ==> forall i :: 0 <= i < |paths| ==> paths[i] == "/gallery/" + files.value[i]
  {
    match files
    case None => []
    case Some(names) => seq(|names|, i requires 0 <= i < |names| => "/gallery/" + names[i])
  }

  // ---------------------------------------------------------------------------
  // getNewsData

  /** Newest first: the order the date comparator asks for. */
  predicate NewestFirst(entries: seq<NewsEntry>)
  {
    forall i, j :: 0 <= i < j < |entries| ==> entries[i].date >= entries[j].date
  }

  /** Places `e` before the first entry that is not newer. */
  function InsertByDate(e: NewsEntry, sorted: seq<NewsEntry>): (r: seq<NewsEntry>)
    requires NewestFirst(sorted)
    ensures NewestFirst(r)
    ensures |r| == |sorted| + 1 && (r[0] == e || (sorted != [] && r[0] == sorted[0]))
    ensures multiset(r) == multiset(sorted) + multiset{e}
  {
    if sorted == [] || e.date >= sorted[0].date then [e] + sorted
    else
      var rest := InsertByDate(e, sorted[1..]);
      assert sorted == [sorted[0]] + sorted[1..];
      [sorted[0]] + rest
  }

  /** `Array.prototype.sort` with the date comparator, which is stable. */
  function SortByDate(entries: seq<NewsEntry>): (r: seq<NewsEntry>)
    ensures NewestFirst(r)
    ensures multiset(r) == multiset(entries)
  {
    if entries == [] then []
    else
      assert entries == [entries[0]] + entries[1..];
      InsertByDate(entries[0], SortByDate(entries[1..]))
  }

  function DatedAt(date: int): NewsEntry -> bool
  {
    (e: NewsEntry) => e.date == date
  }

  /** Inserting keeps the entries of each date in their order, `e` first
      among those of its date. */
  lemma {:induction false} InsertByDateStable(e: NewsEntry, sorted: seq<NewsEntry>, date: int)
    requires NewestFirst(sorted)
    ensures Filter(InsertByDate(e, sorted), DatedAt(date))
         == (if e.date == date then [e] else []) + Filter(sorted, DatedAt(date))
  {
    if sorted == [] || e.date >= sorted[0].date {
      assert InsertByDate(e, sorted) == [e] + sorted;
      FilterFront(e, sorted, date);
    } else {
      var rest := sorted[1..];
      InsertByDateStable(e, rest, date);
      FilterBehind(sorted[0], e, rest, InsertByDate(e, rest), date);
      assert sorted == [sorted[0]] + rest;
    }
  }

  lemma {:induction false} FilterFront(e: NewsEntry, s: seq<NewsEntry>, date: int)
    ensures Filter([e] + s, DatedAt(date)) == (if e.date == date then [e] else []) + Filter(s, DatedAt(date))
  {
    FilterAppend([e], s, DatedAt(date));
    if e.date == date {
      assert Filter([e], DatedAt(date)) == [e];
    } else {
      assert Filter([e], DatedAt(date)) == [];
    }
  }

  lemma {:induction false} FilterBehind(head: NewsEntry, e: NewsEntry, rest: seq<NewsEntry>, inserted: seq<NewsEntry>, date: int)
    requires e.date < head.date
    requires Filter(inserted, DatedAt(date)) == (if e.date == date then [e] else []) + Filter(rest, DatedAt(date))
    ensures Filter([head] + inserted, DatedAt(date))
         == (if e.date == date then [e] else []) + Filter([head] + rest, DatedAt(date))
  {
    var p := DatedAt(date);
    FilterFront(head, inserted, date);
    FilterFront(head, rest, date);
    if e.date == date {
      assert head.date != date;
      assert Filter([head] + inserted, p) == Filter(inserted, p);
      assert Filter([head] + rest, p) == Filter(rest, p);
    } else {
      assert Filter(inserted, p) == Filter(rest, p);
    }
  }

  /** The sort is stable: entries of the same date keep their order. */
  lemma {:induction false} SortByDateStable(entries: seq<NewsEntry>, date: int)
    ensures Filter(SortByDate(entries), DatedAt(date)) == Filter(entries, DatedAt(date))
  {
    if entries != [] {
      var rest := entries[1..];
      assert entries == [entries[0]] + rest;
      SortByDateStable(rest, date);
      InsertByDateStable(entries[0], SortByDate(rest), date);
      FilterAppend([entries[0]], rest, DatedAt(date));
    }
  }

  /** `getNewsData` as written: `loadJsonData` answers a failed read with
      `{}`, which has no `sort`, so the call throws. */
  function GetNewsDataAsWritten(loaded: Option<seq<NewsEntry>>): (r: Result<seq<NewsEntry>>)
    ensures loaded.None? ==> r.TypeError?
    ensures loaded.Some? ==> r == Ok(SortByDate(loaded.value))
  {
    match loaded
    case None => TypeError
    case Some(entries) => Ok(SortByDate(entries))
  }

  /** `getNewsData` as intended: the entries newest first, and no entries
      when the file cannot be read. */
  function GetNewsData(loaded: Option<seq<NewsEntry>>): (r: seq<NewsEntry>)
    ensures NewestFirst(r)
    ensures loaded.None? ==> r == []
    ensures loaded.Some? ==> multiset(r) == multiset(loaded.value)
  {
    match loaded
    case None => []
    case Some(entries) => SortByDate(entries)
  }

  /** The discrepancy: on a failed read the code as written throws where
      the loader's fallback meant an empty list. */
  lemma {:induction false} NewsReadFailureThrows()
    ensures GetNewsDataAsWritten(None).TypeError? && GetNewsData(None) == []
  {
  }
}
