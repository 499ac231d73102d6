/** The field name caches (lib/FQField_internals.cc, lib/Field_internals.cc) over a fixed database. */
module FieldCache {
  import opened Wrappers

  datatype FieldId = FieldId(stationid: int, sensorid: int, mfieldid: int)

  datatype FqName = FqName(station: string, sensor: string, field: string)

  /** One row of the join of the tables station, sensor and mfield along sensor.stationid. */
  datatype Row = Row(id: FieldId, name: FqName)

  datatype Found<T> = Ok(value: T) | Thrown | Undefined

  /** fqfieldname::getString */
  function Text(n: FqName): string {
    n.station + "." + n.sensor + "." + n.field
  }

  function IndexOf(s: string, c: char, from: nat): (i: nat)
    requires from <= |s|
    ensures from <= i <= |s|
    ensures i < |s| ==> s[i] == c
    ensures forall k :: from <= k < i ==> s[k] != c
    decreases |s| - from
  {
    if from == |s| || s[from] == c then from else IndexOf(s, c, from + 1)
  }

  /** FQField_internals::split: no dot, or at least two. */
  function Split(s: string): Found<FqName> {
    var i := IndexOf(s, '.', 0);
    if i == |s| then Ok(FqName("", "", s))
    else
      var j := IndexOf(s, '.', i + 1);
      if j == |s| then Thrown else Ok(FqName(s[..i], s[i + 1..j], s[j + 1..]))
  }

  predicate Dotless(s: string) {
    forall i :: 0 <= i < |s| ==> s[i] != '.'
  }

  lemma FirstDot(s: string, from: nat, i: nat)
    requires from <= i < |s| && s[i] == '.' && forall k :: from <= k < i ==> s[k] != '.'
    ensures IndexOf(s, '.', from) == i
  {
    hide IndexOf;
    var j := IndexOf(s, '.', from);
    assert j < |s| ==> s[j] == '.';
  }

  /** Where the parts of a full name lie in its text. */
  lemma TextParts(n: FqName)
    ensures var s, i := Text(n), |n.station|;
            var j := i + 1 + |n.sensor|;
            j < |s| && s[i] == '.' && s[j] == '.' &&
            s[..i] == n.station && s[i + 1..j] == n.sensor && s[j + 1..] == n.field
  {
  }

  lemma DotlessPart(s: string, lo: nat, hi: nat, part: string)
    requires lo <= hi <= |s| && s[lo..hi] == part && Dotless(part)
    ensures forall k :: lo <= k < hi ==> s[k] != '.'
  {
    forall k | lo <= k < hi ensures s[k] != '.' {
      assert part[k - lo] == s[k];
    }
  }

  lemma SplitOfText(n: FqName)
    requires Dotless(n.station) && Dotless(n.sensor)
    ensures Split(Text(n)) == Ok(n)
  {
    hide Text, IndexOf, Dotless;
    TextParts(n);
    var s, i := Text(n), |n.station|;
    var j := i + 1 + |n.sensor|;
    DotlessPart(s, 0, i, n.station);
    DotlessPart(s, i + 1, j, n.sensor);
    FirstDot(s, 0, i);
    FirstDot(s, i + 1, j);
  }

  // ----- the direct queries -----

  function FindByIds(catalog: seq<Row>, sensorid: int, mfieldid: int): (r: Option<Row>)
    ensures r.Some? ==> r.value in catalog &&
                        r.value.id.sensorid == sensorid && r.value.id.mfieldid == mfieldid
    ensures r.None? ==> forall s :: s in catalog ==> !(s.id.sensorid == sensorid && s.id.mfieldid == mfieldid)
  {
    First(catalog, (row: Row) => row.id.sensorid == sensorid && row.id.mfieldid == mfieldid)
  }

  function FindByName(catalog: seq<Row>, name: FqName): (r: Option<Row>)
    ensures r.Some? ==> r.value in catalog && r.value.name == name
    ensures r.None? ==> forall s :: s in catalog ==> s.name != name
  {
    First(catalog, (row: Row) => row.name == name)
  }

  /** The complete id for a sensor and a field, asked of the database. */
  function DirectId(catalog: seq<Row>, sensorid: int, mfieldid: int): Found<FieldId> {
    var r := FindByIds(catalog, sensorid, mfieldid);
    if r.Some? then Ok(r.value.id) else Thrown
  }

  /** The id for a name, asked of the database. */
  function DirectName(catalog: seq<Row>, name: string): Found<FieldId> {
    var fq := Split(name);
    if !fq.Ok? then Thrown
    else
      var r := FindByName(catalog, fq.value);
      if r.Some? then Ok(r.value.id) else Thrown
  }

  // ----- the cache -----

  /** The three maps of FQField_internals. */
  datatype Cache = Cache(field2fq: map<FieldId, FqName>, string2field: map<string, FieldId>,
                         stationmap: map<FieldId, int>)

  const EMPTY := Cache(map[], map[], map[])

  /** std::map::insert keeps what is there. */
  function Inserted<K, V>(m: map<K, V>, k: K, v: V): map<K, V> {
    if k in m then m else m[k := v]
  }

  function Remembered(c: Cache, row: Row): Cache {
    c.(field2fq := Inserted(c.field2fq, row.id, row.name),
       string2field := Inserted(c.string2field, Text(row.name), row.id))
  }

  datatype Lookup = ById(id: FieldId) | ByName(name: string)

  /** The answer the database gives. */
  function Direct(catalog: seq<Row>, l: Lookup): Found<FieldId> {
    match l
    case ById(id) => DirectId(catalog, id.sensorid, id.mfieldid)
    case ByName(name) => DirectName(catalog, name)
  }

  /** The answer the cache gives. */
  function Answer(catalog: seq<Row>, c: Cache, l: Lookup): Found<FieldId> {
    match l
    case ById(id) =>
      if id in c.field2fq then Ok(id)
      else if id in c.stationmap then Ok(id.(stationid := c.stationmap[id])) else Direct(catalog, l)
    case ByName(name) =>
      if name in c.string2field then Ok(c.string2field[name]) else Direct(catalog, l)
  }

  /** The row a lookup reads when the cache does not know the answer. */
  function Asked(catalog: seq<Row>, c: Cache, l: Lookup): Option<Row> {
    match l
    case ById(id) =>
      if id in c.field2fq || id in c.stationmap then None
      else FindByIds(catalog, id.sensorid, id.mfieldid)
    case ByName(name) =>
      if name in c.string2field || !Split(name).Ok? then None else FindByName(catalog, Split(name).value)
  }

  function After(catalog: seq<Row>, c: Cache, l: Lookup): Cache {
    var row := Asked(catalog, c, l);
    if row.None? then c
    else
      var r := Remembered(c, row.value);
      if l.ById? then r
      else
        var id := row.value.id;
        r.(stationmap := Inserted(r.stationmap, id.(stationid := -1), id.stationid))
  }

  /** The cache after some lookups. */
  function Run(catalog: seq<Row>, lookups: seq<Lookup>): Cache {
    if lookups == [] then EMPTY
    else After(catalog, Run(catalog, lookups[..|lookups| - 1]), lookups[|lookups| - 1])
  }

  /** What getFqfieldname returns: it dereferences an entry that may not be there. */
  function FullName(catalog: seq<Row>, c: Cache, fid: FieldId): Found<FqName> {
    var after := After(catalog, c, ById(fid));
    if !Answer(catalog, c, ById(fid)).Ok? then Thrown
    else if fid in after.field2fq then Ok(after.field2fq[fid]) else Undefined
  }

  class FqFieldCache {
    const catalog: seq<Row>
    var field2fq: map<FieldId, FqName>
    var string2field: map<string, FieldId>
    var stationmap: map<FieldId, int>

    function State(): Cache
      reads this
    {
      Cache(field2fq, string2field, stationmap)
    }

    /** Every entry was read from the database. */
    ghost predicate Valid()
      reads this
    {
      Traced(catalog, State())
    }

    constructor (rows: seq<Row>)
      ensures Valid() && catalog == rows && State() == EMPTY
    {
      catalog := rows;
      field2fq := map[];
      string2field := map[];
      stationmap := map[];
    }

    /** Enter a row into both maps. */
    method Remember(row: Row)
      modifies this`field2fq, this`string2field
      ensures State() == Remembered(old(State()), row)
    {
      if row.id !in field2fq {
        field2fq := field2fq[row.id := row.name];
      }
      var s := Text(row.name);
      if s !in string2field {
        string2field := string2field[s := row.id];
      }
    }

    /** lookup(fieldid) */
    method LookupId(id: FieldId) returns (r: Found<FieldId>)
      requires Valid()
      modifies this`field2fq, this`string2field
      ensures Valid()
      ensures r == Answer(catalog, old(State()), ById(id))
      ensures State() == After(catalog, old(State()), ById(id))
    {
      TracedAfter(catalog, State(), ById(id));
      if id in field2fq {
        return Ok(id);
      }
      if id in stationmap {
        return Ok(id.(stationid := stationmap[id]));
      }
      var row := FindByIds(catalog, id.sensorid, id.mfieldid);
      if row.None? {
        return Thrown;
      }
      Remember(row.value);
      r := Ok(row.value.id);
    }

    /** lookup(fieldname) */
    method LookupName(name: string) returns (r: Found<FieldId>)
      requires Valid()
      modifies this
      ensures Valid()
      ensures r == Answer(catalog, old(State()), ByName(name))
      ensures State() == After(catalog, old(State()), ByName(name))
    {
      TracedAfter(catalog, State(), ByName(name));
      if name in string2field {
        return Ok(string2field[name]);
      }
      var fq := Split(name);
      if !fq.Ok? {
        return Thrown;
      }
      var row := FindByName(catalog, fq.value);
      if row.None? {
        return Thrown;
      }
      var id := row.value.id;
      Remember(row.value);
      var id2 := id.(stationid := -1);
      if id2 !in stationmap {
        stationmap := stationmap[id2 := id.stationid];
      }
      r := Ok(id);
    }

    /** getFieldid(sensorid, mfieldid) */
    method GetFieldid(sensorid: int, mfieldid: int) returns (r: Found<FieldId>)
      requires Valid()
      modifies this`field2fq, this`string2field
      ensures Valid()
      ensures r == Answer(catalog, old(State()), ById(FieldId(-1, sensorid, mfieldid)))
      ensures State() == After(catalog, old(State()), ById(FieldId(-1, sensorid, mfieldid)))
      ensures PrimaryKeys(catalog) ==> r == DirectId(catalog, sensorid, mfieldid)
    {
      r := LookupId(FieldId(-1, sensorid, mfieldid));
      if PrimaryKeys(catalog) {
        IdsAnswered(catalog, old(State()), FieldId(-1, sensorid, mfieldid));
      }
    }

    /** getFqfieldname */
    method GetFqfieldname(fid: FieldId) returns (r: Found<FqName>)
      requires Valid()
      modifies this`field2fq, this`string2field
      ensures Valid()
      ensures r == FullName(catalog, old(State()), fid)
      ensures r.Ok? ==> Row(fid, r.value) in catalog
    {
      var id := LookupId(fid);
      if !id.Ok? {
        return Thrown;
      }
      if fid in field2fq {
        return Ok(field2fq[fid]);
      }
      r := Undefined;
    }
  }

  // ----- what holds over every database -----

  /** A row that some lookup can enter: the first one for its ids, or the first one for its name. */
  predicate Enterable(catalog: seq<Row>, r: Row) {
    r in catalog && (FirstWithIds(catalog, r) || FirstWithName(catalog, r))
  }

  predicate FirstWithIds(catalog: seq<Row>, r: Row) {
    FindByIds(catalog, r.id.sensorid, r.id.mfieldid) == Some(r)
  }

  predicate FirstWithName(catalog: seq<Row>, r: Row) {
    Dotless(r.name.station) && Dotless(r.name.sensor) && FindByName(catalog, r.name) == Some(r)
  }

  ghost predicate Traced(catalog: seq<Row>, c: Cache) {
    TracedIds(catalog, c) && TracedTexts(catalog, c) && TracedStations(catalog, c)
  }

  ghost predicate TracedIds(catalog: seq<Row>, c: Cache) {
    forall id :: id in c.field2fq ==> Enterable(catalog, Row(id, c.field2fq[id]))
  }

  ghost predicate TracedTexts(catalog: seq<Row>, c: Cache) {
    forall s :: s in c.string2field ==>
      c.string2field[s] in c.field2fq &&
      exists r :: Enterable(catalog, r) && r.id == c.string2field[s] && Text(r.name) == s
  }

  ghost predicate TracedStations(catalog: seq<Row>, c: Cache) {
    forall p :: p in c.stationmap ==>
      p.stationid == -1 && p.(stationid := c.stationmap[p]) in c.field2fq &&
      exists r :: r in catalog && FirstWithName(catalog, r) && r.id == p.(stationid := c.stationmap[p])
  }

  lemma AskedEnterable(catalog: seq<Row>, c: Cache, l: Lookup)
    ensures var row := Asked(catalog, c, l);
            row.Some? ==> Enterable(catalog, row.value) && Direct(catalog, l) == Ok(row.value.id) &&
                          if l.ById? then FirstWithIds(catalog, row.value) else FirstWithName(catalog, row.value)
  {
    if l.ByName? {
      SplitDotless(l.name);
    }
  }

  lemma SplitDotless(s: string)
    ensures Split(s).Ok? ==> Dotless(Split(s).value.station) && Dotless(Split(s).value.sensor)
  {
  }

  /**
    split, for every text: without a dot it is a field name, with a single dot it is refused, and with
    more it gives the only name of which it is the text and whose station and sensor have no dot.
   */
  lemma SplitExactly(s: string, n: FqName)
    ensures Dotless(s) ==> Split(s) == Ok(FqName("", "", s))
    ensures Split(s).Thrown? <==> exists i :: 0 <= i < |s| && s[i] == '.' && Dotless(s[..i]) && Dotless(s[i + 1..])
    ensures !Dotless(s) ==> (Split(s) == Ok(n) <==> Text(n) == s && Dotless(n.station) && Dotless(n.sensor))
  {
    hide Split, Text;
    OneDotRefused(s);
    if !Dotless(s) {
      SplitDotless(s);
      if Split(s).Ok? {
        TextOfSplit(s);
      }
      if Text(n) == s && Dotless(n.station) && Dotless(n.sensor) {
        SplitOfText(n);
      }
    }
  }

  lemma OneDotRefused(s: string)
    ensures Dotless(s) ==> Split(s) == Ok(FqName("", "", s))
    ensures Split(s).Thrown? <==> exists i :: 0 <= i < |s| && s[i] == '.' && Dotless(s[..i]) && Dotless(s[i + 1..])
  {
    hide IndexOf;
    var i := IndexOf(s, '.', 0);
    if Split(s).Thrown? {
      var j := IndexOf(s, '.', i + 1);
      assert s[i] == '.' && Dotless(s[..i]) && Dotless(s[i + 1..]);
    }
    if k :| 0 <= k < |s| && s[k] == '.' && Dotless(s[..k]) && Dotless(s[k + 1..]) {
      DotlessPart(s, 0, k, s[..k]);
      DotlessPart(s, k + 1, |s|, s[k + 1..]);
      FirstDot(s, 0, k);
      var j := IndexOf(s, '.', k + 1);
    }
  }

  lemma TextOfSplit(s: string)
    requires Split(s).Ok? && !Dotless(s)
    ensures Text(Split(s).value) == s
  {
  }

  lemma TracedRemembered(catalog: seq<Row>, c: Cache, r: Row)
    requires Traced(catalog, c) && Enterable(catalog, r)
    ensures Traced(catalog, Remembered(c, r)) && r.id in Remembered(c, r).field2fq
  {
    hide Enterable, FirstWithName, Text, TracedStations;
    StationsRemembered(catalog, c, r);
  }

  lemma StationsRemembered(catalog: seq<Row>, c: Cache, r: Row)
    requires TracedStations(catalog, c)
    ensures TracedStations(catalog, Remembered(c, r))
  {
    hide FirstWithName, Text;
  }

  lemma TracedAfter(catalog: seq<Row>, c: Cache, l: Lookup)
    requires Traced(catalog, c)
    ensures Traced(catalog, After(catalog, c, l))
  {
    hide Enterable, FirstWithIds, FirstWithName, Text, Asked, Remembered, TracedIds, TracedTexts, TracedStations;
    AskedEnterable(catalog, c, l);
    var row := Asked(catalog, c, l);
    if row.Some? {
      var r := Remembered(c, row.value);
      TracedRemembered(catalog, c, row.value);
      if l.ByName? {
        StationEntered(catalog, r, row.value);
      }
    }
  }

  lemma StationEntered(catalog: seq<Row>, c: Cache, r: Row)
    requires Traced(catalog, c) && r in catalog && FirstWithName(catalog, r) && r.id in c.field2fq
    ensures var id := r.id;
            Traced(catalog, c.(stationmap := Inserted(c.stationmap, id.(stationid := -1), id.stationid)))
  {
    hide Enterable, FirstWithName, Text;
  }

  lemma {:induction false} TracedRun(catalog: seq<Row>, lookups: seq<Lookup>)
    ensures Traced(catalog, Run(catalog, lookups))
  {
    hide Traced, After;
    if lookups == [] {
      TracedEmpty(catalog);
    } else {
      TracedRun(catalog, lookups[..|lookups| - 1]);
      TracedAfter(catalog, Run(catalog, lookups[..|lookups| - 1]), lookups[|lookups| - 1]);
    }
  }

  lemma TracedEmpty(catalog: seq<Row>)
    ensures Traced(catalog, EMPTY)
  {
  }

  // ----- when the answers are those of the database -----

  /** Asking by name for the row that the ids lead to gives its id. */
  predicate NamesAgree(catalog: seq<Row>) {
    forall r :: r in catalog && FirstWithIds(catalog, r) ==> DirectName(catalog, Text(r.name)) == Ok(r.id)
  }

  /** Asking by ids for the row that a name leads to gives its id. */
  predicate IdsAgree(catalog: seq<Row>) {
    forall r :: r in catalog && FirstWithName(catalog, r) ==>
      DirectId(catalog, r.id.sensorid, r.id.mfieldid) == Ok(r.id)
  }

  /** After any lookups, every lookup is answered as by the database. */
  ghost predicate AlwaysDirect(catalog: seq<Row>) {
    forall lookups: seq<Lookup>, l: Lookup ::
      Answer(catalog, Run(catalog, lookups), l) == Direct(catalog, l)
  }

  /** Every entry answers as the database does. */
  ghost predicate Coherent(catalog: seq<Row>, c: Cache) {
    forall l: Lookup :: Answer(catalog, c, l) == Direct(catalog, l)
  }

  lemma TracedAnswers(catalog: seq<Row>, c: Cache)
    requires Traced(catalog, c) && NamesAgree(catalog) && IdsAgree(catalog)
    ensures Coherent(catalog, c)
  {
    hide Split, FindByIds, FindByName, Dotless, DirectName;
    forall l: Lookup ensures Answer(catalog, c, l) == Direct(catalog, l) {
      if l.ByName? && l.name in c.string2field {
        var r :| Enterable(catalog, r) && r.id == c.string2field[l.name] && Text(r.name) == l.name;
        EnterableByName(catalog, r);
      } else if l.ById? && l.id in c.field2fq {
        EnterableById(catalog, Row(l.id, c.field2fq[l.id]));
      }
    }
  }

  lemma EnterableByName(catalog: seq<Row>, r: Row)
    requires Enterable(catalog, r) && NamesAgree(catalog)
    ensures DirectName(catalog, Text(r.name)) == Ok(r.id)
  {
    if FirstWithName(catalog, r) {
      SplitOfText(r.name);
    }
  }

  lemma EnterableById(catalog: seq<Row>, r: Row)
    requires Enterable(catalog, r) && IdsAgree(catalog)
    ensures DirectId(catalog, r.id.sensorid, r.id.mfieldid) == Ok(r.id)
  {
  }

  /** Asking by ids enters the row that the ids lead to. */
  lemma EnteredById(catalog: seq<Row>, r: Row)
    requires r in catalog && FirstWithIds(catalog, r)
    ensures var c := Run(catalog, [ById(r.id)]);
            c == Remembered(EMPTY, r)
  {
    assert [ById(r.id)][..0] == [];
  }

  lemma EnteredByName(catalog: seq<Row>, r: Row)
    requires r in catalog && FirstWithName(catalog, r)
    ensures var c := Run(catalog, [ByName(Text(r.name))]);
            c.field2fq == map[r.id := r.name] && c.string2field == map[Text(r.name) := r.id] &&
            c.stationmap.Keys == {r.id.(stationid := -1)}
  {
    assert [ByName(Text(r.name))][..0] == [];
    SplitOfText(r.name);
  }

  /** Every run of lookups is answered as by the database exactly when names and ids agree. */
  lemma AnswersAgreeExactly(catalog: seq<Row>)
    ensures AlwaysDirect(catalog) <==> NamesAgree(catalog) && IdsAgree(catalog)
  {
    hide Answer, Direct, Traced;
    if NamesAgree(catalog) && IdsAgree(catalog) {
      forall lookups: seq<Lookup>, l: Lookup
        ensures Answer(catalog, Run(catalog, lookups), l) == Direct(catalog, l)
      {
        TracedRun(catalog, lookups);
        TracedAnswers(catalog, Run(catalog, lookups));
      }
    }
    if AlwaysDirect(catalog) {
      forall r | r in catalog && FirstWithIds(catalog, r)
        ensures DirectName(catalog, Text(r.name)) == Ok(r.id)
      {
        NameAfterIds(catalog, r);
        assert Answer(catalog, Run(catalog, [ById(r.id)]), ByName(Text(r.name)))
            == Direct(catalog, ByName(Text(r.name)));
      }
      forall r | r in catalog && FirstWithName(catalog, r)
        ensures DirectId(catalog, r.id.sensorid, r.id.mfieldid) == Ok(r.id)
      {
        IdsAfterName(catalog, r);
        assert Answer(catalog, Run(catalog, [ByName(Text(r.name))]), ById(r.id)) == Direct(catalog, ById(r.id));
      }
    }
  }

  lemma NameAfterIds(catalog: seq<Row>, r: Row)
    requires r in catalog && FirstWithIds(catalog, r)
    ensures Answer(catalog, Run(catalog, [ById(r.id)]), ByName(Text(r.name))) == Ok(r.id)
    ensures Direct(catalog, ByName(Text(r.name))) == DirectName(catalog, Text(r.name))
  {
    EnteredById(catalog, r);
  }

  lemma IdsAfterName(catalog: seq<Row>, r: Row)
    requires r in catalog && FirstWithName(catalog, r)
    ensures Answer(catalog, Run(catalog, [ByName(Text(r.name))]), ById(r.id)) == Ok(r.id)
    ensures Direct(catalog, ById(r.id)) == DirectId(catalog, r.id.sensorid, r.id.mfieldid)
  {
    EnteredByName(catalog, r);
  }

  /** What the schema declares unique and the join keeps: a sensor belongs to one station. */
  predicate PrimaryKeys(catalog: seq<Row>) {
    forall r, s :: r in catalog && s in catalog && r.id.sensorid == s.id.sensorid ==>
      r.id.stationid == s.id.stationid
  }

  /** Then questions by ids are always answered as by the database, and IdsAgree holds. */
  lemma IdsAnswered(catalog: seq<Row>, c: Cache, id: FieldId)
    requires PrimaryKeys(catalog) && Traced(catalog, c)
    ensures id in c.field2fq ==> DirectId(catalog, id.sensorid, id.mfieldid) == Ok(id)
    ensures Answer(catalog, c, ById(id)) == DirectId(catalog, id.sensorid, id.mfieldid)
  {
    hide Text, Split, FindByName, Dotless;
    if id in c.field2fq {
      OneStation(catalog, Row(id, c.field2fq[id]));
    } else if id in c.stationmap {
      var r :| r in catalog && FirstWithName(catalog, r) &&
               r.id == id.(stationid := c.stationmap[id]);
      OneStation(catalog, r);
    }
  }

  lemma OneStation(catalog: seq<Row>, r: Row)
    requires PrimaryKeys(catalog) && r in catalog
    ensures DirectId(catalog, r.id.sensorid, r.id.mfieldid) == Ok(r.id)
  {
    var f := FindByIds(catalog, r.id.sensorid, r.id.mfieldid);
    assert f.Some? && f.value in catalog;
  }

  /** Nothing is taken out of the maps, and nothing in them changes. */
  ghost predicate Grown(c: Cache, d: Cache) {
    (forall id :: id in c.field2fq ==> id in d.field2fq && d.field2fq[id] == c.field2fq[id]) &&
    (forall t :: t in c.string2field ==> t in d.string2field && d.string2field[t] == c.string2field[t]) &&
    (forall p :: p in c.stationmap ==> p in d.stationmap && d.stationmap[p] == c.stationmap[p])
  }

  lemma GrowsAfter(catalog: seq<Row>, c: Cache, l: Lookup)
    ensures Grown(c, After(catalog, c, l))
  {
  }

  /** The id a lookup returns is known from then on. */
  lemma ReturnedIdKnown(catalog: seq<Row>, c: Cache, l: Lookup)
    requires Traced(catalog, c) && Answer(catalog, c, l).Ok?
    ensures Answer(catalog, c, l).value in After(catalog, c, l).field2fq
  {
    hide Enterable, FirstWithIds, FirstWithName, Text, Split, FindByIds, FindByName;
    AskedEnterable(catalog, c, l);
  }

  lemma {:induction false} GrowsLater(catalog: seq<Row>, before: seq<Lookup>, later: seq<Lookup>)
    ensures Grown(Run(catalog, before), Run(catalog, before + later))
  {
    hide After;
    if later == [] {
      assert before + later == before;
    } else {
      var n := |later| - 1;
      GrowsLater(catalog, before, later[..n]);
      assert (before + later)[..|before| + n] == before + later[..n];
      GrowsAfter(catalog, Run(catalog, before + later[..n]), later[n]);
    }
  }

  /** Over any database, an id that a lookup of a run has returned has a full name ever after. */
  lemma ReturnedIdsHaveNames(catalog: seq<Row>, before: seq<Lookup>, l: Lookup, later: seq<Lookup>)
    requires Answer(catalog, Run(catalog, before), l).Ok?
    ensures var id := Answer(catalog, Run(catalog, before), l).value;
            var name := FullName(catalog, Run(catalog, before + [l] + later), id);
            name.Ok? && Row(id, name.value) in catalog
  {
    hide After, Answer, Traced;
    var id := Answer(catalog, Run(catalog, before), l).value;
    TracedRun(catalog, before);
    ReturnedIdKnown(catalog, Run(catalog, before), l);
    assert (before + [l])[..|before|] == before;
    GrowsLater(catalog, before + [l], later);
    TracedRun(catalog, before + [l] + later);
    KnownHasName(catalog, Run(catalog, before + [l] + later), id);
  }

  /**
    What has been answered is never asked of the database again: not by the id, not by the name unless it
    has no dot, and, after a name was looked up in the database, not by sensor and field.
   */
  lemma NeverAskedAgain(catalog: seq<Row>, before: seq<Lookup>, l: Lookup, later: seq<Lookup>)
    requires Answer(catalog, Run(catalog, before), l).Ok?
    ensures var c, id := Run(catalog, before + [l] + later), Answer(catalog, Run(catalog, before), l).value;
            Asked(catalog, c, ById(id)) == None &&
            (l.ByName? && !Dotless(l.name) ==> Asked(catalog, c, l) == None) &&
            (l.ByName? && Asked(catalog, Run(catalog, before), l).Some? ==>
               Asked(catalog, c, ById(id.(stationid := -1))) == None)
  {
    hide Traced, After, Grown, Answer, Asked, Dotless;
    var c := Run(catalog, before);
    TracedRun(catalog, before);
    ReturnedIdKnown(catalog, c, l);
    assert (before + [l])[..|before|] == before;
    GrowsLater(catalog, before + [l], later);
    if l.ByName? {
      NameEntered(catalog, c, l.name);
    }
    StaysKnown(catalog, After(catalog, c, l), Run(catalog, before + [l] + later), l, Answer(catalog, c, l).value);
  }

  lemma NameEntered(catalog: seq<Row>, c: Cache, name: string)
    requires Answer(catalog, c, ByName(name)).Ok?
    ensures var d, id := After(catalog, c, ByName(name)), Answer(catalog, c, ByName(name)).value;
            (!Dotless(name) ==> name in d.string2field) &&
            (Asked(catalog, c, ByName(name)).Some? ==> id.(stationid := -1) in d.stationmap)
  {
    hide Text, FindByName, Split, Dotless;
    if !Dotless(name) && Split(name).Ok? {
      TextOfSplit(name);
    }
  }

  lemma StaysKnown(catalog: seq<Row>, c: Cache, d: Cache, l: Lookup, id: FieldId)
    requires Grown(c, d)
    ensures id in c.field2fq ==> Asked(catalog, d, ById(id)) == None
    ensures l.ByName? && l.name in c.string2field ==> Asked(catalog, d, l) == None
    ensures id.(stationid := -1) in c.stationmap ==> Asked(catalog, d, ById(id.(stationid := -1))) == None
  {
  }

  lemma KnownHasName(catalog: seq<Row>, c: Cache, id: FieldId)
    requires Traced(catalog, c) && id in c.field2fq
    ensures FullName(catalog, c, id) == Ok(c.field2fq[id]) && Row(id, c.field2fq[id]) in catalog
  {
    hide Traced;
    TracedRow(catalog, c, id);
  }

  lemma TracedRow(catalog: seq<Row>, c: Cache, id: FieldId)
    requires Traced(catalog, c) && id in c.field2fq
    ensures Enterable(catalog, Row(id, c.field2fq[id])) && Row(id, c.field2fq[id]) in catalog
  {
  }

  /** Under the primary keys it is there exactly for complete ids; a wrong station finds no entry. */
  lemma FullNameExactly(catalog: seq<Row>, c: Cache, fid: FieldId)
    requires PrimaryKeys(catalog) && Traced(catalog, c)
    ensures var d := DirectId(catalog, fid.sensorid, fid.mfieldid);
            (FullName(catalog, c, fid).Thrown? <==> d.Thrown?) &&
            (FullName(catalog, c, fid).Ok? <==> d == Ok(fid))
  {
    hide Enterable, FirstWithIds, FirstWithName, Text, Split;
    IdsAnswered(catalog, c, fid);
    TracedAfter(catalog, c, ById(fid));
    IdsAnswered(catalog, After(catalog, c, ById(fid)), fid);
    if Answer(catalog, c, ById(fid)) == Ok(fid) {
      ReturnedIdKnown(catalog, c, ById(fid));
    }
  }

  /** Asked under another station, a known sensor and field lead to no entry. */
  lemma WrongStation(n: FqName)
    ensures var catalog := [Row(FieldId(0, 1, 0), n)];
            PrimaryKeys(catalog) && FullName(catalog, EMPTY, FieldId(7, 1, 0)).Undefined? &&
            FullName(catalog, EMPTY, FieldId(0, 1, 0)) == Ok(n)
  {
    var r := Row(FieldId(0, 1, 0), n);
    var catalog := [r];
    assert catalog[0] == r && FindByIds(catalog, 1, 0) == Some(r) by {
      assert FindByIds(catalog, 1, 0).Some?;
    }
  }

  /** Under the primary keys, only names can be answered differently, exactly when NamesAgree fails. */
  lemma UnderPrimaryKeys(catalog: seq<Row>)
    requires PrimaryKeys(catalog)
    ensures AlwaysDirect(catalog) <==> NamesAgree(catalog)
  {
    hide AlwaysDirect, NamesAgree;
    KeysAgree(catalog);
    AnswersAgreeExactly(catalog);
  }

  lemma KeysAgree(catalog: seq<Row>)
    requires PrimaryKeys(catalog)
    ensures IdsAgree(catalog)
  {
    forall r | r in catalog && FirstWithName(catalog, r)
      ensures DirectId(catalog, r.id.sensorid, r.id.mfieldid) == Ok(r.id)
    {
      OneStation(catalog, r);
    }
  }

  /** Names without dots, each for one id: then names agree. */
  lemma DistinctNamesAgree(catalog: seq<Row>)
    requires forall r, s :: r in catalog && s in catalog && r.name == s.name ==> r.id == s.id
    requires forall r :: r in catalog ==> Dotless(r.name.station) && Dotless(r.name.sensor)
    ensures NamesAgree(catalog)
  {
    forall r | r in catalog && FirstWithIds(catalog, r) ensures DirectName(catalog, Text(r.name)) == Ok(r.id) {
      SplitOfText(r.name);
      var f := FindByName(catalog, r.name);
      assert f.Some? && f.value in catalog;
    }
  }

  /** Two sensors of one name at one station obey the primary keys, and the order of questions matters. */
  lemma TwoConsoles(n: FqName)
    requires Dotless(n.station) && Dotless(n.sensor)
    ensures var catalog := [Row(FieldId(0, 1, 0), n), Row(FieldId(0, 2, 0), n)];
            PrimaryKeys(catalog) && !NamesAgree(catalog) &&
            Direct(catalog, ByName(Text(n))) == Ok(FieldId(0, 1, 0)) &&
            Answer(catalog, Run(catalog, [ById(FieldId(0, 2, 0))]), ByName(Text(n))) == Ok(FieldId(0, 2, 0))
  {
    var first, second := Row(FieldId(0, 1, 0), n), Row(FieldId(0, 2, 0), n);
    var catalog := [first, second];
    SplitOfText(n);
    assert catalog[0] == first && catalog[1] == second;
    assert second in catalog && FirstWithIds(catalog, second) by {
      assert FindByIds(catalog, 2, 0).Some?;
    }
    NameAfterIds(catalog, second);
    assert FindByName(catalog, n) == Some(first);
  }

  /** A station with a dot in its name: the question by name is refused, unless the cache knows it. */
  lemma DottedStation(n: FqName)
    requires !Dotless(n.station)
    ensures var catalog := [Row(FieldId(0, 1, 50), n)];
            PrimaryKeys(catalog) && Direct(catalog, ByName(Text(n))).Thrown? &&
            Answer(catalog, Run(catalog, [ById(FieldId(0, 1, 50))]), ByName(Text(n))) == Ok(FieldId(0, 1, 50))
  {
    hide Split, Text, Dotless;
    var r := Row(FieldId(0, 1, 50), n);
    var catalog := [r];
    assert catalog[0] == r && FindByIds(catalog, 1, 50).Some?;
    NameAfterIds(catalog, r);
    SplitDotless(Text(n));
  }

  // ----- answers by name stay -----

  /** The name has been answered before, or is never stored since it has no dot. */
  predicate Settled(catalog: seq<Row>, c: Cache, name: string) {
    Answer(catalog, c, ByName(name)).Ok? && (name in c.string2field || Dotless(name))
  }

  lemma TextHasDot(n: FqName)
    ensures !Dotless(Text(n))
  {
    assert Text(n)[|n.station|] == '.';
  }

  lemma SettledAfter(catalog: seq<Row>, c: Cache, name: string)
    requires Answer(catalog, c, ByName(name)).Ok?
    ensures var after := After(catalog, c, ByName(name));
            Settled(catalog, after, name) &&
            Answer(catalog, after, ByName(name)) == Answer(catalog, c, ByName(name))
  {
    hide Text, Split, Dotless;
    if name !in c.string2field {
      if Dotless(name) {
        TextHasDot(FindByName(catalog, Split(name).value).value.name);
      } else {
        TextOfSplit(name);
      }
    }
  }

  /** Over any database, once a name has been answered no lookup changes its answer. */
  lemma SettledStays(catalog: seq<Row>, c: Cache, name: string, l: Lookup)
    requires Settled(catalog, c, name)
    ensures var after := After(catalog, c, l);
            Settled(catalog, after, name) &&
            Answer(catalog, after, ByName(name)) == Answer(catalog, c, ByName(name))
  {
    hide Text, Split, Dotless, DirectName, Asked;
    var row := Asked(catalog, c, l);
    if row.Some? {
      TextHasDot(row.value.name);
    }
  }

  /** An answer by name is the id of a row. */
  lemma NamedRow(catalog: seq<Row>, c: Cache, name: string)
    requires Traced(catalog, c) && PrimaryKeys(catalog) && Answer(catalog, c, ByName(name)).Ok?
    ensures var id := Answer(catalog, c, ByName(name)).value;
            DirectId(catalog, id.sensorid, id.mfieldid) == Ok(id)
  {
    hide Text, Split, PrimaryKeys;
    var id := Answer(catalog, c, ByName(name)).value;
    if name in c.string2field {
      var r :| Enterable(catalog, r) && r.id == id && Text(r.name) == name;
      OneStation(catalog, r);
    } else {
      OneStation(catalog, FindByName(catalog, Split(name).value).value);
    }
  }

  // ----- when the two maps are inverse to each other -----

  ghost predicate Inverse(c: Cache) {
    (forall id :: id in c.field2fq ==>
       Text(c.field2fq[id]) in c.string2field && c.string2field[Text(c.field2fq[id])] == id) &&
    (forall s :: s in c.string2field ==>
       c.string2field[s] in c.field2fq && Text(c.field2fq[c.string2field[s]]) == s)
  }

  /** Among the rows that can be entered, ids and texts tell each other apart. */
  predicate OneToOne(catalog: seq<Row>) {
    forall r, s :: r in catalog && s in catalog && Enterable(catalog, r) && Enterable(catalog, s) ==>
      (r.id == s.id <==> Text(r.name) == Text(s.name))
  }

  lemma InverseAfter(catalog: seq<Row>, c: Cache, l: Lookup)
    requires Traced(catalog, c) && OneToOne(catalog) && Inverse(c)
    ensures Inverse(After(catalog, c, l))
  {
    hide Enterable, FirstWithIds, FirstWithName, Text, Split, FindByIds, FindByName, Dotless, Asked;
    AskedEnterable(catalog, c, l);
    var row := Asked(catalog, c, l);
    if row.Some? {
      RememberedInverse(catalog, c, row.value);
    }
  }

  lemma RememberedInverse(catalog: seq<Row>, c: Cache, r: Row)
    requires Traced(catalog, c) && OneToOne(catalog) && Inverse(c) && Enterable(catalog, r)
    ensures Inverse(Remembered(c, r))
  {
    hide Traced, OneToOne, Text, Enterable;
    SameKeys(catalog, c, r);
  }

  /** The id is known exactly when the text is, and then they belong together. */
  lemma SameKeys(catalog: seq<Row>, c: Cache, r: Row)
    requires Traced(catalog, c) && OneToOne(catalog) && Inverse(c) && Enterable(catalog, r)
    ensures r.id in c.field2fq <==> Text(r.name) in c.string2field
  {
    hide Traced, Text, Enterable, OneToOne;
    if r.id in c.field2fq {
      TracedRow(catalog, c, r.id);
      ToldApart(catalog, Row(r.id, c.field2fq[r.id]), r);
    }
    if Text(r.name) in c.string2field {
      var id := c.string2field[Text(r.name)];
      TracedRow(catalog, c, id);
      ToldApart(catalog, Row(id, c.field2fq[id]), r);
    }
  }

  lemma ToldApart(catalog: seq<Row>, r: Row, s: Row)
    requires OneToOne(catalog) && Enterable(catalog, r) && Enterable(catalog, s)
    ensures r.id == s.id <==> Text(r.name) == Text(s.name)
  {
    hide Text;
  }

  lemma {:induction false} InverseRun(catalog: seq<Row>, lookups: seq<Lookup>)
    requires OneToOne(catalog)
    ensures Inverse(Run(catalog, lookups))
  {
    hide Traced, After, OneToOne;
    if lookups != [] {
      var before := lookups[..|lookups| - 1];
      InverseRun(catalog, before);
      TracedRun(catalog, before);
      InverseAfter(catalog, Run(catalog, before), lookups[|lookups| - 1]);
    }
  }

  /** After any lookups the name and id maps are inverse to each other. */
  ghost predicate AlwaysInverse(catalog: seq<Row>) {
    forall lookups: seq<Lookup> :: Inverse(Run(catalog, lookups))
  }

  /** That holds exactly when ids and texts of the rows that can be entered tell each other apart. */
  lemma InverseExactly(catalog: seq<Row>)
    ensures AlwaysInverse(catalog) <==> OneToOne(catalog)
  {
    hide Inverse, Enterable, Text, FirstWithIds, FirstWithName;
    if OneToOne(catalog) {
      forall lookups: seq<Lookup> ensures Inverse(Run(catalog, lookups)) {
        InverseRun(catalog, lookups);
      }
    }
    if AlwaysInverse(catalog) {
      forall r, s | r in catalog && s in catalog && Enterable(catalog, r) && Enterable(catalog, s)
        ensures r.id == s.id <==> Text(r.name) == Text(s.name)
      {
        if (r.id == s.id) != (Text(r.name) == Text(s.name)) {
          var lookups := NotInverse(catalog, r, s);
          assert false;
        }
      }
    }
  }

  /** Two rows that share the id but not the text, or the text but not the id, spoil the maps. */
  lemma NotInverse(catalog: seq<Row>, r: Row, s: Row) returns (lookups: seq<Lookup>)
    requires Enterable(catalog, r) && Enterable(catalog, s)
    requires (r.id == s.id) != (Text(r.name) == Text(s.name))
    ensures !Inverse(Run(catalog, lookups))
  {
    hide Inverse, Text, FindByName, FindByIds, Dotless;
    if r.id == s.id {
      if FirstWithName(catalog, s) {
        lookups := SameId(catalog, r, s);
      } else {
        lookups := SameId(catalog, s, r);
      }
    } else {
      if FirstWithIds(catalog, s) {
        lookups := SameText(catalog, r, s);
      } else if FirstWithIds(catalog, r) {
        lookups := SameText(catalog, s, r);
      } else {
        SplitOfText(r.name);
        SplitOfText(s.name);
        assert false;
      }
    }
  }

  lemma RunOfTwo(catalog: seq<Row>, a: Lookup, b: Lookup)
    ensures Run(catalog, [a, b]) == After(catalog, Run(catalog, [a]), b)
  {
    assert [a, b][..1] == [a];
  }

  lemma SameId(catalog: seq<Row>, r: Row, s: Row) returns (lookups: seq<Lookup>)
    requires Enterable(catalog, r) && s in catalog && FirstWithName(catalog, s)
    requires r.id == s.id && Text(r.name) != Text(s.name)
    ensures !Inverse(Run(catalog, lookups))
  {
    hide Text, FindByName, FindByIds, Dotless, Run;
    var first := Entering(catalog, r);
    lookups := [first, ByName(Text(s.name))];
    RunOfTwo(catalog, first, ByName(Text(s.name)));
    SplitOfText(s.name);
    var c := Run(catalog, lookups);
    assert c.field2fq[s.id] == r.name && c.string2field[Text(s.name)] == s.id;
  }

  lemma SameText(catalog: seq<Row>, r: Row, s: Row) returns (lookups: seq<Lookup>)
    requires Enterable(catalog, r) && s in catalog && FirstWithIds(catalog, s)
    requires r.id != s.id && Text(r.name) == Text(s.name)
    ensures !Inverse(Run(catalog, lookups))
  {
    hide Text, FindByName, FindByIds, Dotless, Run;
    var first := Entering(catalog, r);
    var second := ById(s.id.(stationid := if r.id.stationid == 0 then 1 else 0));
    lookups := [first, second];
    RunOfTwo(catalog, first, second);
    var c := Run(catalog, lookups);
    assert c.field2fq[s.id] == s.name && c.string2field[Text(s.name)] == r.id;
  }

  /** The lookup that enters a row into the empty cache. */
  lemma Entering(catalog: seq<Row>, r: Row) returns (l: Lookup)
    requires Enterable(catalog, r)
    ensures var c := Run(catalog, [l]);
            c.field2fq == map[r.id := r.name] && c.string2field == map[Text(r.name) := r.id] &&
            forall p :: p in c.stationmap ==> p.stationid == -1
  {
    hide Text, FindByName, FindByIds, Dotless, Run;
    if FirstWithIds(catalog, r) {
      l := ById(r.id);
      EnteredById(catalog, r);
    } else {
      l := ByName(Text(r.name));
      EnteredByName(catalog, r);
    }
  }

  // ----- the cache of single fields -----

  datatype Mfield = Mfield(id: int, name: string, unit: string, classname: string, hasmax: bool, hasmin: bool)

  /** A row of the table mfield. */
  datatype MfieldRow = MfieldRow(name: string, id: int, unit: string, classname: string)

  /** The primary key of mfield is the name; several names may share an id. */
  ghost predicate KeyedFields(fields: seq<MfieldRow>) {
    forall r, s :: r in fields && s in fields && r.name == s.name ==> r == s
  }

  function FieldById(fields: seq<MfieldRow>, id: int): (r: Option<MfieldRow>)
    ensures r.Some? ==> r.value in fields && r.value.id == id
    ensures r.None? ==> forall s :: s in fields ==> s.id != id
  {
    First(fields, (row: MfieldRow) => row.id == id)
  }

  function FieldByName(fields: seq<MfieldRow>, name: string): (r: Option<MfieldRow>)
    ensures r.Some? ==> r.value in fields && r.value.name == name
    ensures r.None? ==> forall s :: s in fields ==> s.name != name
  {
    First(fields, (row: MfieldRow) => row.name == name)
  }

  /** The cache entry for a row, with the answers to the queries for its _max and _min fields. */
  function EntryFor(fields: seq<MfieldRow>, row: MfieldRow): Mfield {
    Mfield(row.id, row.name, row.unit, row.classname,
           FieldByName(fields, row.name + "_max").Some?, FieldByName(fields, row.name + "_min").Some?)
  }

  class FieldInternals {
    const fields: seq<MfieldRow>
    var mfieldmap: map<int, Mfield>
    var fieldidmap: map<string, int>

    ghost predicate Valid()
      reads this
    {
      KeyedFields(fields) &&
      (forall id :: id in mfieldmap ==>
         FieldById(fields, id).Some? && mfieldmap[id] == EntryFor(fields, FieldById(fields, id).value) &&
         mfieldmap[id].name in fieldidmap && fieldidmap[mfieldmap[id].name] == id) &&
      (forall n :: n in fieldidmap ==> fieldidmap[n] in mfieldmap && mfieldmap[fieldidmap[n]].name == n)
    }

    constructor (rows: seq<MfieldRow>)
      requires KeyedFields(rows)
      ensures Valid() && fields == rows
    {
      fields := rows;
      mfieldmap := map[];
      fieldidmap := map[];
    }

    method LookupId(id: int) returns (r: Found<int>)
      requires Valid()
      modifies this
      ensures Valid()
      ensures r == if FieldById(fields, id).Some? then Ok(id) else Thrown
      ensures r.Ok? ==> id in mfieldmap
    {
      if id in mfieldmap {
        return Ok(id);
      }
      var row := FieldById(fields, id);
      if row.None? {
        return Thrown;
      }
      var mf := EntryFor(fields, row.value);
      mfieldmap := mfieldmap[id := mf];
      if mf.name !in fieldidmap {
        fieldidmap := fieldidmap[mf.name := id];
      }
      r := Ok(id);
    }

    method LookupName(name: string) returns (r: Found<int>)
      requires Valid()
      modifies this
      ensures Valid()
      ensures r == if FieldByName(fields, name).Some? then Ok(FieldByName(fields, name).value.id) else Thrown
      ensures r.Ok? ==> r.value in mfieldmap
    {
      if name in fieldidmap {
        var id := fieldidmap[name];
        assert FieldById(fields, id).value.name == name;
        return Ok(id);
      }
      var row := FieldByName(fields, name);
      if row.None? {
        return Thrown;
      }
      r := LookupId(row.value.id);
    }

    /** getField by name: the entry for the first row with the id of the name. */
    method GetField(name: string) returns (r: Found<Mfield>)
      requires Valid()
      modifies this
      ensures Valid()
      ensures var row := FieldByName(fields, name);
              if row.None? then r == Thrown
              else
                r == Ok(EntryFor(fields, FieldById(fields, row.value.id).value)) &&
                (r == Ok(EntryFor(fields, row.value)) <==> FieldById(fields, row.value.id) == row)
      ensures r.Ok? ==>
                MfieldRow(r.value.name, r.value.id, r.value.unit, r.value.classname) in fields &&
                (r.value.hasmax <==> exists row :: row in fields && row.name == r.value.name + "_max") &&
                (r.value.hasmin <==> exists row :: row in fields && row.name == r.value.name + "_min")
    {
      var id := LookupName(name);
      if !id.Ok? {
        return Thrown;
      }
      r := Ok(mfieldmap[id.value]);
      ghost var row, first := FieldByName(fields, name).value, FieldById(fields, id.value).value;
      assert row.name == first.name ==> row == first;
    }
  }

  /** Two names for one id obey the primary key; the second name leads to the entry of the first. */
  lemma SharedId(unit: string, classname: string)
    ensures var first, second := MfieldRow("wind", 60, unit, classname), MfieldRow("windspeed", 60, unit, classname);
            var fields := [first, second];
            KeyedFields(fields) && FieldByName(fields, "windspeed") == Some(second) &&
            FieldById(fields, second.id) == Some(first)
  {
    var first, second := MfieldRow("wind", 60, unit, classname), MfieldRow("windspeed", 60, unit, classname);
    var fields := [first, second];
    assert fields[0] == first && fields[1] == second && |first.name| != |second.name|;
    assert FieldById(fields, 60).Some? && FieldByName(fields, "windspeed").Some?;
  }
}
