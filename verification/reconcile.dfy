/** Persisting the model's extraction result: each incoming instance of a
    category is matched by a normalised key against the rows already saved
    for the upload, and is inserted, ignored, merged conservatively or
    updated, as an external merge oracle decides. */
module Reconcile {
  import opened Wrappers
  import opened Strings
  import opened Json

  /** A row or an incoming record: the present properties and their values. */
  type Record = map<string, Json>

  function Get(r: Record, k: string): Option<Json>
  {
    if k in r then Some(r[k]) else None
  }

  // ---------------------------------------------------------------------
  // arr, norm

  /** `arr(x)`: an array's elements, nothing for anything else. */
  function Arr(x: Option<Json>): seq<Json>
  {
    if x.Some? && x.value.JArr? then x.value.items else []
  }

  const NoTrim := "TypeError: trim is not a function"

  /** `norm(s)`: `null` and `undefined` are '', a string is trimmed and
      lower-cased; any other value has no `trim` and the call throws. */
  function Norm(s: Option<Json>): (r: Result<string>)
    ensures s.None? || s == Some(JNull) ==> r == Ok("")
    ensures s.Some? && s.value.JStr? ==> r == Ok(ToLower(Trim(s.value.s)))
    ensures r.Err? <==> s.Some? && s.value != JNull && !s.value.JStr?
  {
    match s
    case None => Ok("")
    case Some(JNull) => Ok("")
    case Some(JStr(t)) => Ok(ToLower(Trim(t)))
    case Some(_) => Err(NoTrim)
  }

  lemma {:induction false} ToLowerKeepsLeadingSpaces(s: string)
    ensures LeadingSpaces(ToLower(s)) == LeadingSpaces(s)
  {
    if s != [] {
      ToLowerKeepsLeadingSpaces(s[1..]);
      ToLowerSlice(s, 1, |s|);
      assert ToLower(s)[1..] == ToLower(s)[1..|s|] && s[1..] == s[1..|s|];
      assert IsSpace(ToLower(s)[0]) == IsSpace(s[0]);
    }
  }

  lemma {:induction false} ToLowerKeepsTrailingSpaces(s: string)
    ensures TrailingSpaces(ToLower(s)) == TrailingSpaces(s)
  {
    if s != [] {
      var n := |s| - 1;
      ToLowerKeepsTrailingSpaces(s[..n]);
      ToLowerSlice(s, 0, n);
      assert ToLower(s)[..n] == ToLower(s)[0..n] && s[..n] == s[0..n];
      assert IsSpace(ToLower(s)[n]) == IsSpace(s[n]);
    }
  }

  /** Lower-casing and trimming commute: ASCII upper-case letters are not
      white space. */
  lemma TrimToLower(s: string)
    ensures Trim(ToLower(s)) == ToLower(Trim(s))
  {
    ToLowerKeepsLeadingSpaces(s);
    var i := LeadingSpaces(s);
    var t := s[i..];
    ToLowerSlice(s, i, |s|);
    assert TrimStart(ToLower(s)) == ToLower(t);
    ToLowerKeepsTrailingSpaces(t);
    var n := |t| - TrailingSpaces(t);
    ToLowerSlice(t, 0, n);
    assert t[0..n] == Trim(s);
    assert Trim(ToLower(s)) == ToLower(t)[0..n];
  }

  /** A normalised key normalises to itself, so comparing normalised keys
      ignores case and the white space around them. */
  lemma NormIdempotent(s: string)
    ensures Norm(Some(JStr(ToLower(Trim(s))))) == Norm(Some(JStr(s)))
  {
    TrimToLower(Trim(s));
    TrimIdempotent(s);
    ToLowerIdempotent(Trim(s));
  }

  /** Two strings that differ only in ASCII case normalise alike. */
  lemma NormIgnoresCase(s: string)
    ensures Norm(Some(JStr(ToLower(s)))) == Norm(Some(JStr(s)))
  {
    TrimToLower(s);
    ToLowerIdempotent(Trim(s));
  }

  // ---------------------------------------------------------------------
  // unionArray

  /** `Array.from(new Set(xs))`: the first occurrence of every value, in
      order. Values are compared structurally. */
  function Dedup(xs: seq<Json>): seq<Json>
  {
    if xs == [] then []
    else
      var d := Dedup(xs[..|xs| - 1]);
      if xs[|xs| - 1] in d then d else d + [xs[|xs| - 1]]
  }

  predicate Distinct(xs: seq<Json>)
  {
    forall i, j :: 0 <= i < j < |xs| ==> xs[i] != xs[j]
  }

  /** The set keeps every value once and nothing else. */
  lemma {:induction false} DedupSpec(xs: seq<Json>)
    ensures Distinct(Dedup(xs))
    ensures forall x :: x in Dedup(xs) <==> x in xs
  {
    if xs != [] {
      var init := xs[..|xs| - 1];
      DedupSpec(init);
      assert xs == init + [xs[|xs| - 1]];
    }
  }

  /** What a prefix contributes stays at the front. */
  lemma {:induction false} DedupPrefix(a: seq<Json>, b: seq<Json>)
    ensures |Dedup(a)| <= |Dedup(a + b)|
    ensures Dedup(a + b)[..|Dedup(a)|] == Dedup(a)
  {
    if b == [] {
      assert a + b == a;
    } else {
      DedupPrefix(a, b[..|b| - 1]);
      assert (a + b)[..|a + b| - 1] == a + b[..|b| - 1];
    }
  }

  /** Values already present add nothing. */
  lemma {:induction false} DedupAbsorb(a: seq<Json>, v: seq<Json>)
    requires forall x :: x in v ==> x in a
    ensures Dedup(a + v) == Dedup(a)
  {
    if v == [] {
      assert a + v == a;
    } else {
      DedupAbsorb(a, v[..|v| - 1]);
      assert (a + v)[..|a + v| - 1] == a + v[..|v| - 1];
      DedupSpec(a);
    }
  }

  /** Distinct new values are appended as they are. */
  lemma {:induction false} DedupFresh(a: seq<Json>, r: seq<Json>)
    requires Distinct(r)
    requires forall x :: x in r ==> x !in a
    ensures Dedup(a + r) == Dedup(a) + r
  {
    if r == [] {
      assert a + r == a;
    } else {
      var init := r[..|r| - 1];
      DedupFresh(a, init);
      assert (a + r)[..|a + r| - 1] == a + init;
      DedupSpec(a);
      assert r[|r| - 1] !in init;
      assert r == init + [r[|r| - 1]];
    }
  }

  /** `unionArray(a, b)`: a non-array counts as empty. */
  function UnionArray(a: Option<Json>, b: Option<Json>): seq<Json>
  {
    Dedup(Arr(a) + Arr(b))
  }

  /** The union holds every element of both lists and no duplicate, and it
      starts with the distinct elements of the first list in order. */
  lemma UnionArraySpec(a: Option<Json>, b: Option<Json>)
    ensures var u := UnionArray(a, b);
      Distinct(u)
      && (forall x :: x in u <==> x in Arr(a) || x in Arr(b))
      && |Dedup(Arr(a))| <= |u| && u[..|Dedup(Arr(a))|] == Dedup(Arr(a))
  {
    DedupSpec(Arr(a) + Arr(b));
    DedupPrefix(Arr(a), Arr(b));
  }

  /** The tail of a list without duplicates has none, and shares no value
      with the head. */
  lemma DistinctSuffix(d: seq<Json>, n: nat)
    requires Distinct(d) && n <= |d|
    ensures Distinct(d[n..])
    ensures forall x :: x in d[n..] ==> x !in d[..n]
  {
    forall p, q | 0 <= p < q < |d| - n
      ensures d[n..][p] != d[n..][q]
    {
      assert d[n..][p] == d[n + p] && d[n..][q] == d[n + q];
    }
    forall x | x in d[n..]
      ensures x !in d[..n]
    {
      var p :| 0 <= p < |d| - n && d[n..][p] == x;
      assert d[n + p] == x;
    }
  }

  /** Taking the union with a union that already contains the first list
      changes nothing. */
  lemma UnionAbsorbs(e: seq<Json>, i: Option<Json>)
    ensures Dedup(e + UnionArray(Some(JArr(e)), i)) == UnionArray(Some(JArr(e)), i)
  {
    var d := UnionArray(Some(JArr(e)), i);
    var head := Dedup(e);
    assert |head| <= |d| && d[..|head|] == head && Distinct(d) by {
      assert Arr(Some(JArr(e))) == e;
      UnionArraySpec(Some(JArr(e)), i);
    }
    var rest := d[|head|..];
    assert d == head + rest;
    assert Distinct(rest) && forall x :: x in rest ==> x !in e + head by {
      DistinctSuffix(d, |head|);
      DedupSpec(e);
    }
    DedupFresh(e + head, rest);
    assert Dedup(e + head) == head by {
      DedupSpec(e);
      DedupAbsorb(e, head);
    }
    AppendAssociates(e, head, rest);
  }

  // ---------------------------------------------------------------------
  // applyUpdates

  /** `Object.entries(updates)`: an object's properties, or an array's
      elements under their decimal indices. */
  function Entries(u: Json): map<string, Json>
  {
    if u.JObj? then u.fields
    else if u.JArr? then EntriesOfArray(u.items)
    else map[]
  }

  function EntriesOfArray(items: seq<Json>): (m: map<string, Json>)
    ensures forall i :: 0 <= i < |items| ==> NatToString(i) in m && m[NatToString(i)] == items[i]
    ensures forall k :: k in m ==> exists i :: 0 <= i < |items| && k == NatToString(i)
  {
    if items == [] then map[]
    else
      var n := |items| - 1;
      var m := EntriesOfArray(items[..n]);
      EntriesOfArrayStep(items, m);
      m[NatToString(n) := items[n]]
  }

  /** Adding the last element under its index keeps the earlier entries. */
  lemma EntriesOfArrayStep(items: seq<Json>, m: map<string, Json>)
    requires items != []
    requires forall i :: 0 <= i < |items| - 1 ==> NatToString(i) in m && m[NatToString(i)] == items[i]
    requires forall k :: k in m ==> exists i :: 0 <= i < |items| - 1 && k == NatToString(i)
    ensures var r := m[NatToString(|items| - 1) := items[|items| - 1]];
      (forall i :: 0 <= i < |items| ==> NatToString(i) in r && r[NatToString(i)] == items[i])
      && forall k :: k in r ==> exists i :: 0 <= i < |items| && k == NatToString(i)
  {
    var n := |items| - 1;
    var r := m[NatToString(n) := items[n]];
    forall i | 0 <= i < |items|
      ensures NatToString(i) in r && r[NatToString(i)] == items[i]
    {
      if i < n {
        if NatToString(i) == NatToString(n) {
          NatToStringInjective(i, n);
          assert false;
        }
        assert r[NatToString(i)] == m[NatToString(i)];
      }
    }
    forall k | k in r
      ensures exists i :: 0 <= i < |items| && k == NatToString(i)
    {
      if k != NatToString(n) {
        assert k in m;
        var i :| 0 <= i < n && k == NatToString(i);
        assert 0 <= i < |items| && k == NatToString(i);
      }
    }
  }

  /** `!updates || typeof updates !== 'object'` is false exactly for objects
      and arrays. */
  predicate IsObject(u: Option<Json>)
  {
    u.Some? && (u.value.JObj? || u.value.JArr?)
  }

  /** The new value of one updated property: two arrays are unioned, any
      other value overwrites. */
  function MergeValue(prior: Option<Json>, v: Json): Json
  {
    if v.JArr? && prior.Some? && prior.value.JArr? then JArr(UnionArray(prior, Some(v))) else v
  }

  /** The record after the updates of `done` have been applied. */
  function Partial(existing: Record, e: map<string, Json>, done: set<string>): Record
    requires done <= e.Keys
  {
    map k | k in existing.Keys + done :: if k in done then MergeValue(Get(existing, k), e[k]) else existing[k]
  }

  lemma PartialStep(existing: Record, e: map<string, Json>, done: set<string>, k: string)
    requires done <= e.Keys && k in e && k !in done
    ensures var before := Partial(existing, e, done);
      Get(before, k) == Get(existing, k)
      && Partial(existing, e, done + {k}) == before[k := MergeValue(Get(existing, k), e[k])]
  {
  }

  /** One pass of the loop: key k's merged value moves k from the keys
      still to do to the keys done. */
  lemma ApplyStep(existing: Record, e: map<string, Json>, todo: set<string>, next: Record, k: string, merged: Json)
    requires todo <= e.Keys && k in todo
    requires next == Partial(existing, e, e.Keys - todo)
    requires merged == MergeValue(Get(next, k), e[k])
    ensures next[k := merged] == Partial(existing, e, e.Keys - (todo - {k}))
  {
    var done := e.Keys - todo;
    PartialStep(existing, e, done, k);
    assert e.Keys - (todo - {k}) == done + {k};
  }

  /** What `applyUpdates(existing, updates)` returns. */
  function Updated(existing: Record, updates: Option<Json>): Record
  {
    if !IsObject(updates) then existing
    else
      var e := Entries(updates.value);
      Partial(existing, e, e.Keys)
  }

  /** The rules of `applyUpdates`: non-objects change nothing; otherwise
      the properties are those of both, an untouched property keeps its
      value, two arrays are unioned and any other value overwrites. */
  lemma UpdatedRules(existing: Record, updates: Option<Json>, k: string)
    ensures !IsObject(updates) ==> Updated(existing, updates) == existing
    ensures IsObject(updates) ==>
      var e, next := Entries(updates.value), Updated(existing, updates);
      next.Keys == existing.Keys + e.Keys
      && (k in existing && k !in e ==> next[k] == existing[k])
      && (k in e && e[k].JArr? && k in existing && existing[k].JArr? ==>
            next[k] == JArr(Dedup(existing[k].items + e[k].items)))
      && (k in e && !(e[k].JArr? && k in existing && existing[k].JArr?) ==> next[k] == e[k])
  {
  }

  /** The loop `for (const [k, v] of Object.entries(updates))` over a copy
      of `existing`; entries touch distinct keys, so their order does not
      matter. */
  method ApplyUpdates(existing: Record, updates: Option<Json>) returns (next: Record)
    ensures next == Updated(existing, updates)
  {
    if !IsObject(updates) {
      return existing;
    }
    var e := Entries(updates.value);
    next := existing;
    var todo := e.Keys;
    while todo != {}
      invariant todo <= e.Keys
      invariant next == Partial(existing, e, e.Keys - todo)
      decreases |todo|
    {
      var k :| k in todo;
      var v := e[k];
      var merged := if v.JArr? && k in next && next[k].JArr? then JArr(UnionArray(Some(next[k]), Some(v))) else v;
      ApplyStep(existing, e, todo, next, k, merged);
      next := next[k := merged];
      todo := todo - {k};
    }
    assert e.Keys - todo == e.Keys;
  }

  // ---------------------------------------------------------------------
  // Categories: their keys and row shapes

  datatype Category = Goals | Bmps | Implementation | Monitoring | Outreach | GeographicAreas

  /** The order in which `saveFromAiResult` handles the categories. */
  const Order: seq<Category> := [Goals, Bmps, Implementation, Monitoring, Outreach, GeographicAreas]

  /** The entity label passed to the merge oracle. */
  function Label(c: Category): string
  {
    match c
    case Goals => "goal"
    case Bmps => "bmp"
    case Implementation => "implementation"
    case Monitoring => "monitoring"
    case Outreach => "outreach"
    case GeographicAreas => "geographicArea"
  }

  /** The property of the result that lists the category's instances. */
  function ResultKey(c: Category): string
  {
    match c
    case Goals => "goals"
    case Bmps => "bmps"
    case Implementation => "implementation"
    case Monitoring => "monitoring"
    case Outreach => "outreach"
    case GeographicAreas => "geographicAreas"
  }

  /** The primary-key property of the category's rows. */
  function PrimaryKey(c: Category): string
  {
    if c == GeographicAreas then "id" else "uuid"
  }

  /** The property a non-outreach key is read from. */
  function KeyField(c: Category): string
  {
    match c
    case Goals => "title"
    case Bmps => "name"
    case Implementation => "action"
    case Monitoring => "parameter"
    case Outreach => "audience"
    case GeographicAreas => "name"
  }

  /** The outreach key `${audience ?? ''}|${channel ?? ''}`. */
  function OutreachKey(x: Json): string
  {
    DisplayOr(Field(x, "audience"), "") + "|" + DisplayOr(Field(x, "channel"), "")
  }

  /** The key lambdas, the same for a saved row and for an incoming
      instance: `x?.f ?? x?.id ?? ''`, and for outreach the audience and
      channel joined by `|`, falling back to `x?.id || ''`. */
  function PickKey(c: Category, x: Json): Json
  {
    if c == Outreach then
      Or(JStr(OutreachKey(x)), Or(Coalesce(Field(x, "id"), JStr("")), JStr("")))
    else Coalesce(Field(x, KeyField(c)), Coalesce(Field(x, "id"), JStr("")))
  }

  /** The outreach key always holds a `|`, so it is truthy and its `|| id`
      fallback never applies. */
  lemma OutreachKeyNeverFallsBack(x: Json)
    ensures PickKey(Outreach, x) == JStr(OutreachKey(x))
    ensures '|' in OutreachKey(x)
  {
    var k := OutreachKey(x);
    assert k[|DisplayOr(Field(x, "audience"), "")|] == '|';
  }

  /** `x?.k ?? null` for each of `ks`. */
  function OrNull(x: Json, ks: seq<string>): Record
  {
    if ks == [] then map[] else OrNull(x, ks[1..])[ks[0] := Coalesce(Field(x, ks[0]), JNull)]
  }

  /** `Array.isArray(x?.k) ? x.k : otherwise`. */
  function ArrayOr(x: Json, k: string, otherwise: Json): Json
  {
    var v := Field(x, k);
    if v.Some? && v.value.JArr? then v.value else otherwise
  }

  const NoSchedule := JObj(map["start" := JNull, "end" := JNull])

  /** `(x?.name ?? null)?.trim() || null`: throws when the name is neither
      a string nor `null`/`undefined`. */
  function TrimmedName(x: Json): Result<Json>
  {
    var v := Coalesce(Field(x, "name"), JNull);
    if v == JNull then Ok(JNull)
    else if v.JStr? then Ok(if Trim(v.s) == "" then JNull else JStr(Trim(v.s)))
    else Err(NoTrim)
  }

  /** The properties `mapToRow` copies as `x?.k ?? null`. */
  function NullFields(c: Category): seq<string>
  {
    match c
    case Goals => ["title", "pollutant", "target", "progress", "deadline", "location"]
    case Bmps => ["name", "type", "quantity", "cost", "progress", "location", "responsibleParty"]
    case Implementation => ["actor", "start", "end", "budget", "status", "progress", "location"]
    case Monitoring => ["method", "frequency", "threshold", "progress", "location", "responsibleParty"]
    case Outreach => ["audience", "channel", "message", "kpi", "progress", "responsibleParty"]
    case GeographicAreas => ["huc", "description"]
  }

  /** The properties `mapToRow` fills with another default, or derives;
      `name` is the trimmed area name. */
  function OtherFields(c: Category, x: Json, name: Json, imageIds: Option<seq<string>>): Record
  {
    var evidence := ArrayOr(x, "evidence", JArr([]));
    match c
    case Goals =>
      map["description" := Coalesce(Field(x, "description"), JStr("")), "evidence" := evidence]
    case Bmps =>
      map["schedule" := Coalesce(Field(x, "schedule"), NoSchedule),
          "relatedGoals" := ArrayOr(x, "relatedGoals", JArr([])), "evidence" := evidence]
    case Implementation =>
      map["action" := Coalesce(Field(x, "action"), JStr("")),
          "dependencies" := ArrayOr(x, "dependencies", JArr([])), "evidence" := evidence]
    case Monitoring =>
      map["parameter" := Coalesce(Field(x, "parameter"), JStr("")), "evidence" := evidence]
    case Outreach =>
      map["schedule" := Coalesce(Field(x, "schedule"), NoSchedule), "evidence" := evidence]
    case GeographicAreas =>
      map["name" := name,
          "coordinates" := ArrayOr(x, "coordinates", JNull),
          "processedImageIds" := if imageIds.Some? then JArr(Strs(imageIds.value)) else JNull,
          "evidence" := evidence]
  }

  /** The `mapToRow` lambdas; only the area name can throw. */
  function MapToRow(c: Category, x: Json, uploadId: string, imageIds: Option<seq<string>>): (r: Result<Record>)
    ensures r.Err? <==> c == GeographicAreas && TrimmedName(x).Err?
  {
    var name := if c == GeographicAreas then TrimmedName(x) else Ok(JNull);
    match name
    case Err(m) => Err(m)
    case Ok(n) => Ok(map["uploadId" := JStr(uploadId)] + OrNull(x, NullFields(c)) + OtherFields(c, x, n, imageIds))
  }

  function Strs(ss: seq<string>): seq<Json>
  {
    seq(|ss|, i requires 0 <= i < |ss| => JStr(ss[i]))
  }

  // ---------------------------------------------------------------------
  // The repositories

  /** The rows of the six tables, and the counter that stands for the
      generated primary keys. */
  datatype Db = Db(tables: map<Category, seq<Record>>, nextId: nat)

  function Table(db: Db, c: Category): seq<Record>
  {
    if c in db.tables then db.tables[c] else []
  }

  /** `repo.find({ where: { uploadId } })`, in stored order. */
  function RowsOf(rows: seq<Record>, uploadId: string): (r: seq<Record>)
    ensures forall k :: 0 <= k < |r| ==> r[k] in rows && Get(r[k], "uploadId") == Some(JStr(uploadId))
    ensures forall row :: row in rows && Get(row, "uploadId") == Some(JStr(uploadId)) ==> row in r
  {
    if rows == [] then []
    else
      var rest := RowsOf(rows[1..], uploadId);
      if Get(rows[0], "uploadId") == Some(JStr(uploadId)) then [rows[0]] + rest else rest
  }

  function GeneratedId(n: nat): Json
  {
    JStr("uuid-" + NatToString(n))
  }

  /** The first row whose primary key is `key`, if any. */
  function IndexOfKey(rows: seq<Record>, pk: string, key: Json): (i: Option<nat>)
    ensures i.Some? ==> (i.value < |rows| && Get(rows[i.value], pk) == Some(key)
      && forall j :: 0 <= j < i.value ==> Get(rows[j], pk) != Some(key))
    ensures i.None? ==> forall j :: 0 <= j < |rows| ==> Get(rows[j], pk) != Some(key)
  {
    if rows == [] then None
    else if Get(rows[0], pk) == Some(key) then Some(0)
    else
      var rest := IndexOfKey(rows[1..], pk, key);
      if rest.None? then None else Some(rest.value + 1)
  }

  /** `repo.save(r)`: a row whose primary key is already stored replaces
      that row; any other row is appended, with a generated key when it has
      none. */
  function Save(db: Db, c: Category, r: Record): (after: Db)
    ensures forall d :: d != c ==> Table(after, d) == Table(db, d)
  {
    var pk := PrimaryKey(c);
    var rows := Table(db, c);
    if pk in r then
      var i := IndexOfKey(rows, pk, r[pk]);
      if i.Some? then Db(db.tables[c := rows[i.value := r]], db.nextId)
      else Db(db.tables[c := rows + [r]], db.nextId)
    else Db(db.tables[c := rows + [r[pk := GeneratedId(db.nextId)]]], db.nextId + 1)
  }

  // ---------------------------------------------------------------------
  // reconcileOne

  /** What the merge oracle may answer. */
  datatype Decision = Insert | Ignore | Match(updates: Option<Json>) | Update(updates: Option<Json>)

  /** `decideMerge(entityLabel, existing, incoming)`, defined outside the
      model. */
  type Oracle = (string, Record, Json) -> Option<Decision>

  /** The normalised key of a saved row and of an incoming instance agree;
      both normalise without throwing. */
  predicate KeysMatch(c: Category, row: Record, incKey: Json)
  {
    var a, b := Norm(Some(PickKey(c, JObj(row)))), Norm(Some(incKey));
    a.Ok? && b.Ok? && a.value == b.value
  }

  predicate KeysDiffer(c: Category, row: Record, incKey: Json)
  {
    var a, b := Norm(Some(PickKey(c, JObj(row)))), Norm(Some(incKey));
    a.Ok? && b.Ok? && a.value != b.value
  }

  /** `existingRows.find(r => norm(pickKey(r)) === norm(incKey))`: the first
      row whose key matches; a key that is not a string throws as soon as
      the callback reaches it. */
  function FindCandidate(c: Category, rows: seq<Record>, incKey: Json): (r: Result<Option<Record>>)
    ensures r.Ok? && r.value.Some? ==>
      exists i :: 0 <= i < |rows| && rows[i] == r.value.value && KeysMatch(c, rows[i], incKey)
        && forall j :: 0 <= j < i ==> KeysDiffer(c, rows[j], incKey)
    ensures r == Ok(None) ==> forall j :: 0 <= j < |rows| ==> KeysDiffer(c, rows[j], incKey)
    ensures r.Err? ==> rows != [] && r.message == NoTrim
  {
    if rows == [] then Ok(None)
    else
      match Norm(Some(PickKey(c, JObj(rows[0]))))
      case Err(m) => Err(m)
      case Ok(rowKey) =>
        match Norm(Some(incKey))
        case Err(m) => Err(m)
        case Ok(key) =>
          if rowKey == key then Ok(Some(rows[0]))
          else
            var rest := FindCandidate(c, rows[1..], incKey);
            if rest.Ok? && rest.value.Some? then
              CandidateFoundLater(c, rows, incKey, rest.value.value);
              rest
            else rest
  }

  /** The key of a saved row is not a string, so normalising it throws. */
  predicate RowKeyFails(c: Category, row: Record)
  {
    Norm(Some(PickKey(c, JObj(row)))).Err?
  }

  /** What the first row decides: a key that is not a string throws, a
      match is the candidate, a different key passes on to the rest. */
  lemma FindCandidateHead(c: Category, rows: seq<Record>, incKey: Json)
    requires rows != []
    ensures RowKeyFails(c, rows[0]) || Norm(Some(incKey)).Err? ==> FindCandidate(c, rows, incKey).Err?
    ensures KeysMatch(c, rows[0], incKey) ==> FindCandidate(c, rows, incKey) == Ok(Some(rows[0]))
    ensures KeysDiffer(c, rows[0], incKey) ==> FindCandidate(c, rows, incKey) == FindCandidate(c, rows[1..], incKey)
  {
  }

  /** The search throws exactly when the callback runs at least once and
      meets a key that is not a string: the incoming key, which every call
      normalises, or the key of a row reached before any match. */
  lemma {:induction false} FindCandidateFails(c: Category, rows: seq<Record>, incKey: Json)
    ensures FindCandidate(c, rows, incKey).Err? <==>
      rows != [] && (Norm(Some(incKey)).Err?
        || exists i :: (0 <= i < |rows| && RowKeyFails(c, rows[i])
             && forall j :: 0 <= j < i ==> KeysDiffer(c, rows[j], incKey)))
  {
    if rows != [] {
      FindCandidateHead(c, rows, incKey);
      if RowKeyFails(c, rows[0]) {
        // the witness is row 0, with no rows before it
      } else if Norm(Some(incKey)).Ok? && KeysMatch(c, rows[0], incKey) {
        forall i | 0 <= i < |rows| && RowKeyFails(c, rows[i])
          ensures exists j :: 0 <= j < i && !KeysDiffer(c, rows[j], incKey)
        {
          assert !KeysDiffer(c, rows[0], incKey);
        }
      } else if Norm(Some(incKey)).Ok? {
        assert KeysDiffer(c, rows[0], incKey);
        FindCandidateFails(c, rows[1..], incKey);
        if FindCandidate(c, rows[1..], incKey).Err? {
          FailsOneLater(c, rows, incKey);
        } else {
          FailsNowhereLater(c, rows, incKey);
        }
      }
    }
  }

  /** A failing row among the rows after the first, reached before any
      match, is one among all the rows when the first row's key differs. */
  lemma FailsOneLater(c: Category, rows: seq<Record>, incKey: Json)
    requires rows != [] && KeysDiffer(c, rows[0], incKey)
    requires exists i :: (0 <= i < |rows[1..]| && RowKeyFails(c, rows[1..][i])
      && forall j :: 0 <= j < i ==> KeysDiffer(c, rows[1..][j], incKey))
    ensures exists i :: (0 <= i < |rows| && RowKeyFails(c, rows[i])
      && forall j :: 0 <= j < i ==> KeysDiffer(c, rows[j], incKey))
  {
    var i :| 0 <= i < |rows[1..]| && RowKeyFails(c, rows[1..][i])
      && forall j :: 0 <= j < i ==> KeysDiffer(c, rows[1..][j], incKey);
    forall j | 0 <= j < i + 1
      ensures KeysDiffer(c, rows[j], incKey)
    {
      if j > 0 {
        assert rows[j] == rows[1..][j - 1];
      }
    }
    assert RowKeyFails(c, rows[i + 1]);
  }

  /** Conversely, no failing row is reached among all the rows when none is
      among the rows after the first. */
  lemma FailsNowhereLater(c: Category, rows: seq<Record>, incKey: Json)
    requires rows != [] && KeysDiffer(c, rows[0], incKey)
    requires !exists i :: (0 <= i < |rows[1..]| && RowKeyFails(c, rows[1..][i])
      && forall j :: 0 <= j < i ==> KeysDiffer(c, rows[1..][j], incKey))
    ensures !exists i :: (0 <= i < |rows| && RowKeyFails(c, rows[i])
      && forall j :: 0 <= j < i ==> KeysDiffer(c, rows[j], incKey))
  {
    forall i | 0 <= i < |rows| && RowKeyFails(c, rows[i])
      ensures exists j :: 0 <= j < i && !KeysDiffer(c, rows[j], incKey)
    {
      var i' := i - 1;
      assert rows[i] == rows[1..][i'];
      assert exists j :: 0 <= j < i' && !KeysDiffer(c, rows[1..][j], incKey);
      var j :| 0 <= j < i' && !KeysDiffer(c, rows[1..][j], incKey);
      assert rows[1..][j] == rows[j + 1];
    }
  }

  /** When every row's key differs from the incoming one, there is no
      candidate. */
  lemma {:induction false} FindCandidateNone(c: Category, rows: seq<Record>, incKey: Json)
    requires forall j :: 0 <= j < |rows| ==> KeysDiffer(c, rows[j], incKey)
    ensures FindCandidate(c, rows, incKey) == Ok(None)
  {
    if rows != [] {
      FindCandidateHead(c, rows, incKey);
      assert KeysDiffer(c, rows[0], incKey);
      FindCandidateNone(c, rows[1..], incKey);
    }
  }

  /** A row whose key matches, after rows whose keys all differ, is the
      candidate. */
  lemma {:induction false} FindCandidateFinds(c: Category, rows: seq<Record>, incKey: Json, i: nat)
    requires i < |rows| && KeysMatch(c, rows[i], incKey)
    requires forall j :: 0 <= j < i ==> KeysDiffer(c, rows[j], incKey)
    ensures FindCandidate(c, rows, incKey) == Ok(Some(rows[i]))
  {
    FindCandidateHead(c, rows, incKey);
    if i > 0 {
      assert KeysDiffer(c, rows[0], incKey);
      assert forall j :: 0 <= j < i - 1 ==> rows[1..][j] == rows[j + 1];
      FindCandidateFinds(c, rows[1..], incKey, i - 1);
    }
  }

  /** A candidate found among the rows after the first is found among all
      the rows, one place further on. */
  lemma CandidateFoundLater(c: Category, rows: seq<Record>, incKey: Json, found: Record)
    requires rows != []
    requires exists i :: (0 <= i < |rows[1..]| && rows[1..][i] == found && KeysMatch(c, rows[1..][i], incKey)
      && forall j :: 0 <= j < i ==> KeysDiffer(c, rows[1..][j], incKey))
    ensures exists i :: (1 <= i < |rows| && rows[i] == found && KeysMatch(c, rows[i], incKey)
      && forall j :: 1 <= j < i ==> KeysDiffer(c, rows[j], incKey))
  {
    var i :| 0 <= i < |rows[1..]| && rows[1..][i] == found && KeysMatch(c, rows[1..][i], incKey)
      && forall j :: 0 <= j < i ==> KeysDiffer(c, rows[1..][j], incKey);
    assert forall j :: 1 <= j < i + 1 ==> rows[j] == rows[1..][j - 1];
    assert rows[i + 1] == found;
  }

  /** The updates of the conservative merge: the unions of the candidate's
      and the incoming `evidence` and `relatedGoals`. */
  function ConservativeUpdates(candidate: Record, incoming: Json): Json
  {
    JObj(map[
      "evidence" := JArr(UnionArray(Get(candidate, "evidence"), Field(incoming, "evidence"))),
      "relatedGoals" := JArr(UnionArray(Get(candidate, "relatedGoals"), Field(incoming, "relatedGoals")))])
  }

  /** The conservative merge keeps the candidate and only replaces its
      `evidence` and `relatedGoals` by the unions of its own and the
      incoming lists. */
  lemma ConservativeMerge(candidate: Record, incoming: Json)
    ensures Updated(candidate, Some(ConservativeUpdates(candidate, incoming)))
      == candidate["evidence" := JArr(UnionArray(Get(candidate, "evidence"), Field(incoming, "evidence")))]
                  ["relatedGoals" := JArr(UnionArray(Get(candidate, "relatedGoals"), Field(incoming, "relatedGoals")))]
  {
    var ev := JArr(UnionArray(Get(candidate, "evidence"), Field(incoming, "evidence")));
    var rg := JArr(UnionArray(Get(candidate, "relatedGoals"), Field(incoming, "relatedGoals")));
    var e := map["evidence" := ev, "relatedGoals" := rg];
    assert Entries(ConservativeUpdates(candidate, incoming)) == e;
    MergeAbsorbs(Get(candidate, "evidence"), Field(incoming, "evidence"));
    MergeAbsorbs(Get(candidate, "relatedGoals"), Field(incoming, "relatedGoals"));
    var none: set<string> := {};
    assert Partial(candidate, e, none) == candidate;
    PartialStep(candidate, e, none, "evidence");
    PartialStep(candidate, e, {"evidence"}, "relatedGoals");
    assert none + {"evidence"} == {"evidence"};
    assert {"evidence"} + {"relatedGoals"} == e.Keys;
  }

  /** Merging a property with the union of its own value and more keeps
      that union. */
  lemma MergeAbsorbs(prior: Option<Json>, inc: Option<Json>)
    ensures MergeValue(prior, JArr(UnionArray(prior, inc))) == JArr(UnionArray(prior, inc))
  {
    if prior.Some? && prior.value.JArr? {
      UnionAbsorbs(prior.value.items, inc);
    }
  }

  /** `mapToRow(incoming)` saved with the upload id. */
  function InsertRow(db: Db, c: Category, uploadId: string, incoming: Json, imageIds: Option<seq<string>>): (r: Result<Db>)
    ensures r.Ok? ==> forall d :: d != c ==> Table(r.value, d) == Table(db, d)
  {
    match MapToRow(c, incoming, uploadId, imageIds)
    case Err(m) => Err(m)
    case Ok(row) => Ok(Save(db, c, row["uploadId" := JStr(uploadId)]))
  }

  /** The repository after `reconcileOne`, or the error it throws (nothing
      is saved then). */
  function ReconcileOneSpec(db: Db, c: Category, uploadId: string, incoming: Json,
                            decide: Oracle, imageIds: Option<seq<string>>): (r: Result<Db>)
    ensures r.Ok? ==> forall d :: d != c ==> Table(r.value, d) == Table(db, d)
  {
    var existing := RowsOf(Table(db, c), uploadId);
    match FindCandidate(c, existing, PickKey(c, incoming))
    case Err(m) => Err(m)
    case Ok(None) =>
      var decision := decide(Label(c), map[], incoming);
      if decision == Some(Ignore) then Ok(db)
      else InsertRow(db, c, uploadId, incoming, imageIds)
    case Ok(Some(candidate)) =>
      match decide(Label(c), candidate, incoming)
      case None => Ok(Save(db, c, Updated(candidate, Some(ConservativeUpdates(candidate, incoming)))))
      case Some(Ignore) => Ok(db)
      case Some(Insert) => InsertRow(db, c, uploadId, incoming, imageIds)
      case Some(Match(u)) => Ok(Save(db, c, Updated(candidate, u)))
      case Some(Update(u)) => Ok(Save(db, c, Updated(candidate, u)))
  }

  /** `{ ...(x?.k ?? null) }` keys: the row has exactly the listed keys. */
  lemma {:induction false} OrNullKeys(x: Json, ks: seq<string>, k: string)
    ensures k in OrNull(x, ks) <==> k in ks
  {
    if ks != [] {
      OrNullKeys(x, ks[1..], k);
    }
  }

  /** `mapToRow` never produces a primary key, so saving its row always
      appends it with a generated key. */
  lemma MapToRowHasNoKey(c: Category, x: Json, uploadId: string, imageIds: Option<seq<string>>)
    requires MapToRow(c, x, uploadId, imageIds).Ok?
    ensures PrimaryKey(c) !in MapToRow(c, x, uploadId, imageIds).value
  {
    var pk := PrimaryKey(c);
    var n := if c == GeographicAreas then TrimmedName(x).value else JNull;
    var head: Record := map["uploadId" := JStr(uploadId)];
    assert MapToRow(c, x, uploadId, imageIds).value == head + OrNull(x, NullFields(c)) + OtherFields(c, x, n, imageIds);
    assert pk !in head by {
      assert pk[0] != 'u' || pk[1] != 'p';
    }
    assert pk !in OrNull(x, NullFields(c)) by {
      NullFieldsHaveNoKey(c);
      OrNullKeys(x, NullFields(c), pk);
    }
    OtherFieldsHaveNoKey(c, x, n, imageIds);
  }

  lemma NullFieldsHaveNoKey(c: Category)
    ensures PrimaryKey(c) !in NullFields(c)
  {
    var fs := NullFields(c);
    forall k | 0 <= k < |fs|
      ensures fs[k] != PrimaryKey(c)
    {
      assert fs[k][0] != 'u' && fs[k][0] != 'i';
    }
  }

  lemma OtherFieldsHaveNoKey(c: Category, x: Json, n: Json, imageIds: Option<seq<string>>)
    ensures PrimaryKey(c) !in OtherFields(c, x, n, imageIds)
  {
    var pk := PrimaryKey(c);
    forall k | k in OtherFields(c, x, n, imageIds)
      ensures k != pk
    {
      assert |k| > |pk|;
    }
  }

  /** Inserting appends the mapped row, tagged with the upload, under a
      freshly generated key; a name that cannot be trimmed throws. */
  lemma InsertAppends(db: Db, c: Category, uploadId: string, x: Json, imageIds: Option<seq<string>>)
    ensures MapToRow(c, x, uploadId, imageIds).Err? <==> InsertRow(db, c, uploadId, x, imageIds).Err?
    ensures MapToRow(c, x, uploadId, imageIds).Ok? ==>
      var row := MapToRow(c, x, uploadId, imageIds).value["uploadId" := JStr(uploadId)][PrimaryKey(c) := GeneratedId(db.nextId)];
      InsertRow(db, c, uploadId, x, imageIds) == Ok(Db(db.tables[c := Table(db, c) + [row]], db.nextId + 1))
      && Get(row, "uploadId") == Some(JStr(uploadId))
  {
    var mapped := MapToRow(c, x, uploadId, imageIds);
    if mapped.Ok? {
      var tagged := mapped.value["uploadId" := JStr(uploadId)];
      assert PrimaryKey(c) !in tagged by {
        MapToRowHasNoKey(c, x, uploadId, imageIds);
        assert PrimaryKey(c) != "uploadId";
      }
      assert InsertRow(db, c, uploadId, x, imageIds) == Ok(Save(db, c, tagged));
    }
  }

  /** Without a candidate the oracle is asked about an empty record; only an
      explicit `ignore` keeps the instance out, anything else (no answer
      included) inserts it. */
  lemma NoCandidateRules(db: Db, c: Category, uploadId: string, x: Json,
                         decide: Oracle, imageIds: Option<seq<string>>)
    requires FindCandidate(c, RowsOf(Table(db, c), uploadId), PickKey(c, x)) == Ok(None)
    ensures decide(Label(c), map[], x) == Some(Ignore) ==> ReconcileOneSpec(db, c, uploadId, x, decide, imageIds) == Ok(db)
    ensures decide(Label(c), map[], x) != Some(Ignore) && MapToRow(c, x, uploadId, imageIds).Ok? ==>
      var row := MapToRow(c, x, uploadId, imageIds).value["uploadId" := JStr(uploadId)][PrimaryKey(c) := GeneratedId(db.nextId)];
      ReconcileOneSpec(db, c, uploadId, x, decide, imageIds) == Ok(Db(db.tables[c := Table(db, c) + [row]], db.nextId + 1))
  {
    InsertAppends(db, c, uploadId, x, imageIds);
  }

  /** With a candidate and no answer from the oracle, the candidate is kept
      and only its evidence and related goals become the unions of its own
      and the incoming ones. */
  lemma ConservativeRule(db: Db, c: Category, uploadId: string, x: Json,
                         decide: Oracle, imageIds: Option<seq<string>>, candidate: Record)
    requires FindCandidate(c, RowsOf(Table(db, c), uploadId), PickKey(c, x)) == Ok(Some(candidate))
    requires decide(Label(c), candidate, x) == None
    ensures ReconcileOneSpec(db, c, uploadId, x, decide, imageIds) == Ok(Save(db, c,
        candidate["evidence" := JArr(UnionArray(Get(candidate, "evidence"), Field(x, "evidence")))]
                 ["relatedGoals" := JArr(UnionArray(Get(candidate, "relatedGoals"), Field(x, "relatedGoals")))]))
  {
    ConservativeMerge(candidate, x);
  }

  /** With a candidate, `ignore` changes nothing. */
  lemma CandidateIgnored(db: Db, c: Category, uploadId: string, x: Json,
                         decide: Oracle, imageIds: Option<seq<string>>, candidate: Record)
    requires FindCandidate(c, RowsOf(Table(db, c), uploadId), PickKey(c, x)) == Ok(Some(candidate))
    requires decide(Label(c), candidate, x) == Some(Ignore)
    ensures ReconcileOneSpec(db, c, uploadId, x, decide, imageIds) == Ok(db)
  {
  }

  /** With a candidate, `insert` inserts the instance just as if there
      were no candidate. */
  lemma CandidateInserted(db: Db, c: Category, uploadId: string, x: Json,
                          decide: Oracle, imageIds: Option<seq<string>>, candidate: Record)
    requires FindCandidate(c, RowsOf(Table(db, c), uploadId), PickKey(c, x)) == Ok(Some(candidate))
    requires decide(Label(c), candidate, x) == Some(Insert)
    ensures ReconcileOneSpec(db, c, uploadId, x, decide, imageIds) == InsertRow(db, c, uploadId, x, imageIds)
  {
  }

  /** With a candidate, `match` and `update` apply their updates to the
      candidate and save it. */
  lemma CandidateUpdated(db: Db, c: Category, uploadId: string, x: Json,
                         decide: Oracle, imageIds: Option<seq<string>>, candidate: Record)
    requires FindCandidate(c, RowsOf(Table(db, c), uploadId), PickKey(c, x)) == Ok(Some(candidate))
    requires var d := decide(Label(c), candidate, x); d.Some? && (d.value.Match? || d.value.Update?)
    ensures ReconcileOneSpec(db, c, uploadId, x, decide, imageIds)
      == Ok(Save(db, c, Updated(candidate, decide(Label(c), candidate, x).value.updates)))
  {
  }

  /** The candidate a stored row offers: its primary key is kept by the
      conservative merge, so saving replaces that row in place. */
  lemma ConservativeReplacesInPlace(db: Db, c: Category, candidate: Record, x: Json, i: nat)
    requires i < |Table(db, c)| && Table(db, c)[i] == candidate
    requires PrimaryKey(c) in candidate
    requires forall j :: 0 <= j < i ==> Get(Table(db, c)[j], PrimaryKey(c)) != Get(candidate, PrimaryKey(c))
    ensures var merged := Updated(candidate, Some(ConservativeUpdates(candidate, x)));
      Save(db, c, merged) == Db(db.tables[c := Table(db, c)[i := merged]], db.nextId)
  {
    ConservativeMerge(candidate, x);
    var pk := PrimaryKey(c);
    var merged := Updated(candidate, Some(ConservativeUpdates(candidate, x)));
    assert merged[pk] == candidate[pk];
    var found := IndexOfKey(Table(db, c), pk, merged[pk]);
    assert found == Some(i);
  }

  // ---------------------------------------------------------------------
  // saveFromAiResult

  /** The repositories after a run, and the error that ended it early. */
  datatype Run = Run(db: Db, error: Option<string>)

  /** The instances of one category, one `reconcileOne` each, stopping at
      the first that throws. */
  function ReconcileAll(db: Db, c: Category, uploadId: string, xs: seq<Json>,
                        decide: Oracle, imageIds: Option<seq<string>>): (r: Run)
    ensures forall d :: d != c ==> Table(r.db, d) == Table(db, d)
    decreases |xs|
  {
    if xs == [] then Run(db, None)
    else
      match ReconcileOneSpec(db, c, uploadId, xs[0], decide, imageIds)
      case Err(m) => Run(db, Some(m))
      case Ok(next) => ReconcileAll(next, c, uploadId, xs[1..], decide, imageIds)
  }

  /** One instance of the run: an error ends it where it stands, a success
      carries on from the new repositories. */
  lemma ReconcileAllStep(db: Db, c: Category, uploadId: string, xs: seq<Json>, i: nat,
                         decide: Oracle, imageIds: Option<seq<string>>)
    requires i < |xs|
    ensures var one := ReconcileOneSpec(db, c, uploadId, xs[i], decide, imageIds);
      (one.Err? ==> ReconcileAll(db, c, uploadId, xs[i..], decide, imageIds) == Run(db, Some(one.message)))
      && (one.Ok? ==> ReconcileAll(db, c, uploadId, xs[i..], decide, imageIds)
                      == ReconcileAll(one.value, c, uploadId, xs[i + 1..], decide, imageIds))
  {
    assert xs[i..][1..] == xs[i + 1..];
  }

  /** What is left to do after a category: nothing once an error is thrown. */
  function Continue(r: Run, cats: seq<Category>, uploadId: string, result: Json,
                    decide: Oracle, imageIds: Option<seq<string>>): Run
    decreases |cats|, 1
  {
    if r.error.Some? then r else SaveAllFrom(r.db, cats, uploadId, result, decide, imageIds)
  }

  /** The categories `cats` in turn, each over `arr(result?.<key>)`. */
  function SaveAllFrom(db: Db, cats: seq<Category>, uploadId: string, result: Json,
                       decide: Oracle, imageIds: Option<seq<string>>): (r: Run)
    ensures forall d :: d !in cats ==> Table(r.db, d) == Table(db, d)
    decreases |cats|, 0
  {
    if cats == [] then Run(db, None)
    else
      var first := ReconcileAll(db, cats[0], uploadId, Arr(Field(result, ResultKey(cats[0]))), decide, imageIds);
      var r := Continue(first, cats[1..], uploadId, result, decide, imageIds);
      assert forall d :: d !in cats ==> d != cats[0] && d !in cats[1..];
      r
  }

  /** `saveFromAiResult`: goals, BMPs, implementation, monitoring,
      outreach and geographic areas, in that order. */
  function SaveFromAiResultSpec(db: Db, uploadId: string, result: Json,
                                decide: Oracle, imageIds: Option<seq<string>>): Run
  {
    SaveAllFrom(db, Order, uploadId, result, decide, imageIds)
  }

  /** A result whose category entry is missing or not an array leaves that
      category alone: the run goes straight on to the next. */
  lemma NonArraySkipped(db: Db, cats: seq<Category>, uploadId: string, result: Json,
                        decide: Oracle, imageIds: Option<seq<string>>)
    requires cats != []
    requires var v := Field(result, ResultKey(cats[0])); v.None? || !v.value.JArr?
    ensures SaveAllFrom(db, cats, uploadId, result, decide, imageIds)
      == SaveAllFrom(db, cats[1..], uploadId, result, decide, imageIds)
  {
  }

  /** Each instance re-reads the rows of its upload, so an instance sees the
      rows its predecessors saved: the same goal title listed twice, with
      the oracle giving no answer, is saved once and then merged into
      itself, not inserted twice. */
  lemma RepeatedGoalSavedOnce(db: Db, uploadId: string, x: Json, t: string,
                              decide: Oracle, imageIds: Option<seq<string>>)
    requires Table(db, Goals) == []
    requires Field(x, "title") == Some(JStr(t))
    requires decide("goal", map[], x) == None
    requires forall row :: decide("goal", row, x) == None
    ensures var r := ReconcileAll(db, Goals, uploadId, [x, x], decide, imageIds);
      r.error == None && |Table(r.db, Goals)| == 1
  {
    var db1, row := FirstGoalInserted(db, uploadId, x, t, decide, imageIds);
    var db2 := SecondGoalMerged(db1, row, uploadId, x, t, decide, imageIds);
    assert ReconcileAll(db2, Goals, uploadId, [], decide, imageIds) == Run(db2, None);
    assert [x][1..] == [];
    assert ReconcileAll(db1, Goals, uploadId, [x], decide, imageIds) == Run(db2, None);
    assert [x, x][1..] == [x];
  }

  lemma FirstGoalInserted(db: Db, uploadId: string, x: Json, t: string,
                          decide: Oracle, imageIds: Option<seq<string>>) returns (db1: Db, row: Record)
    requires Table(db, Goals) == []
    requires Field(x, "title") == Some(JStr(t))
    requires decide("goal", map[], x) == None
    ensures ReconcileOneSpec(db, Goals, uploadId, x, decide, imageIds) == Ok(db1)
    ensures Table(db1, Goals) == [row]
    ensures Get(row, "uploadId") == Some(JStr(uploadId))
    ensures Get(row, "title") == Some(JStr(t))
    ensures PrimaryKey(Goals) in row
  {
    assert RowsOf(Table(db, Goals), uploadId) == [];
    NoCandidateRules(db, Goals, uploadId, x, decide, imageIds);
    var mapped := MapToRow(Goals, x, uploadId, imageIds).value;
    assert Get(mapped, "title") == Some(JStr(t)) by {
      var ks := NullFields(Goals);
      assert ks[0] == "title";
      assert OrNull(x, ks)["title"] == JStr(t);
      var others := OtherFields(Goals, x, JNull, imageIds);
      assert "title" !in others by {
        assert others.Keys == {"description", "evidence"};
      }
      assert mapped == map["uploadId" := JStr(uploadId)] + OrNull(x, ks) + others;
    }
    row := mapped["uploadId" := JStr(uploadId)][PrimaryKey(Goals) := GeneratedId(db.nextId)];
    db1 := Db(db.tables[Goals := [row]], db.nextId + 1);
    assert Table(db, Goals) + [row] == [row];
  }

  lemma SecondGoalMerged(db1: Db, row: Record, uploadId: string, x: Json, t: string,
                         decide: Oracle, imageIds: Option<seq<string>>) returns (db2: Db)
    requires Table(db1, Goals) == [row]
    requires Get(row, "uploadId") == Some(JStr(uploadId))
    requires Get(row, "title") == Some(JStr(t))
    requires PrimaryKey(Goals) in row
    requires Field(x, "title") == Some(JStr(t))
    requires forall r :: decide("goal", r, x) == None
    ensures ReconcileOneSpec(db1, Goals, uploadId, x, decide, imageIds) == Ok(db2)
    ensures |Table(db2, Goals)| == 1
  {
    assert RowsOf([row], uploadId) == [row];
    assert PickKey(Goals, JObj(row)) == JStr(t) == PickKey(Goals, x);
    assert FindCandidate(Goals, [row], JStr(t)) == Ok(Some(row));
    assert decide(Label(Goals), row, x) == None;
    ConservativeRule(db1, Goals, uploadId, x, decide, imageIds, row);
    ConservativeReplacesInPlace(db1, Goals, row, x, 0);
    ConservativeMerge(row, x);
    db2 := Db(db1.tables[Goals := [row][0 := Updated(row, Some(ConservativeUpdates(row, x)))]], db1.nextId);
  }

  // ---------------------------------------------------------------------
  // The service

  /** The six repositories of the persistence service. */
  class Repositories {
    var tables: map<Category, seq<Record>>
    var nextId: nat

    function State(): Db
      reads this
    {
      Db(tables, nextId)
    }

    constructor (db: Db)
      ensures State() == db
    {
      tables := db.tables;
      nextId := db.nextId;
    }

    /** `repo.save(row)`. */
    method SaveRow(c: Category, row: Record)
      modifies this
      ensures State() == Save(old(State()), c, row)
    {
      var after := Save(State(), c, row);
      tables := after.tables;
      nextId := after.nextId;
    }

    /** `mapToRow(incoming)` saved with the upload id; the error a name that
        cannot be trimmed throws. */
    method InsertIncoming(c: Category, uploadId: string, incoming: Json, imageIds: Option<seq<string>>)
      returns (err: Option<string>)
      modifies this
      ensures var r := InsertRow(old(State()), c, uploadId, incoming, imageIds);
        (r.Ok? ==> err.None? && State() == r.value)
        && (r.Err? ==> err == Some(r.message) && State() == old(State()))
    {
      var toSave := MapToRow(c, incoming, uploadId, imageIds);
      if toSave.Err? {
        return Some(toSave.message);
      }
      SaveRow(c, toSave.value["uploadId" := JStr(uploadId)]);
      return None;
    }

    /** `reconcileOne`: nothing is saved when it throws. */
    method ReconcileOne(c: Category, uploadId: string, incoming: Json,
                        decide: Oracle, imageIds: Option<seq<string>>) returns (err: Option<string>)
      modifies this
      ensures var r := ReconcileOneSpec(old(State()), c, uploadId, incoming, decide, imageIds);
        (r.Ok? ==> err.None? && State() == r.value)
        && (r.Err? ==> err == Some(r.message) && State() == old(State()))
    {
      var existingRows := RowsOf(Table(State(), c), uploadId);
      var incKey := PickKey(c, incoming);
      var candidate := FindCandidate(c, existingRows, incKey);
      if candidate.Err? {
        return Some(candidate.message);
      }
      if candidate.value.None? {
        var decision := decide(Label(c), map[], incoming);
        if decision == Some(Ignore) {
          return None;
        }
        err := InsertIncoming(c, uploadId, incoming, imageIds);
        return;
      }
      var cand := candidate.value.value;
      var decision := decide(Label(c), cand, incoming);
      if decision.None? {
        var conservative := ApplyUpdates(cand, Some(ConservativeUpdates(cand, incoming)));
        SaveRow(c, conservative);
        return None;
      }
      match decision.value
      case Ignore =>
        return None;
      case Insert =>
        err := InsertIncoming(c, uploadId, incoming, imageIds);
      case Match(u) =>
        var merged := ApplyUpdates(cand, u);
        SaveRow(c, merged);
        return None;
      case Update(u) =>
        var merged := ApplyUpdates(cand, u);
        SaveRow(c, merged);
        return None;
    }

    /** The inner loop of `saveFromAiResult`: the instances of one
        category in turn, stopping at the first that throws. */
    method ReconcileCategory(c: Category, uploadId: string, xs: seq<Json>,
                             decide: Oracle, imageIds: Option<seq<string>>) returns (err: Option<string>)
      modifies this
      ensures Run(State(), err) == ReconcileAll(old(State()), c, uploadId, xs, decide, imageIds)
    {
      ghost var total := ReconcileAll(State(), c, uploadId, xs, decide, imageIds);
      var i := 0;
      while i < |xs|
        invariant 0 <= i <= |xs|
        invariant ReconcileAll(State(), c, uploadId, xs[i..], decide, imageIds) == total
      {
        ReconcileAllStep(State(), c, uploadId, xs, i, decide, imageIds);
        err := ReconcileOne(c, uploadId, xs[i], decide, imageIds);
        if err.Some? {
          return;
        }
        i := i + 1;
      }
      return None;
    }

    /** `saveFromAiResult`: every instance of every category in turn; the
        first error ends the run, keeping what was saved before it. */
    method SaveFromAiResult(uploadId: string, result: Json, decide: Oracle, imageIds: Option<seq<string>>)
      returns (err: Option<string>)
      modifies this
      ensures Run(State(), err) == SaveFromAiResultSpec(old(State()), uploadId, result, decide, imageIds)
    {
      ghost var total := SaveFromAiResultSpec(State(), uploadId, result, decide, imageIds);
      var n := 0;
      while n < |Order|
        invariant 0 <= n <= |Order|
        invariant SaveAllFrom(State(), Order[n..], uploadId, result, decide, imageIds) == total
      {
        var c := Order[n];
        assert Order[n..][1..] == Order[n + 1..];
        err := ReconcileCategory(c, uploadId, Arr(Field(result, ResultKey(c))), decide, imageIds);
        if err.Some? {
          return;
        }
        n := n + 1;
      }
      return None;
    }
  }
}
