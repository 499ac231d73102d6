/**
  Queries for sets of fields (lib/Query.cc) and the distribution of the returned rows over the
  requested series (lib/QueryProcessor.cc).
 */
module Query {
  import opened Wrappers
  import Series
  import opened FieldCache

  // ----- the database -----

  datatype SampleKey = SampleKey(timekey: int, sensorid: int, fieldid: int)

  datatype AverageKey = AverageKey(timekey: int, intval: int, sensorid: int, fieldid: int)

  /** The tables sdata and avg, by their primary keys. */
  datatype Tables = Tables(sdata: map<SampleKey, real>, avg: map<AverageKey, real>)

  /** A where clause: the table, the range, and the alternatives for sensor and field. */
  datatype Select = Select(interval: int, start: int, end: int, offset: int, pairs: seq<(int, int)>)

  datatype ResultRow = ResultRow(timekey: int, sensorid: int, fieldid: int, value: real)

  /** The value the database holds for a sensor and a field under the returned time key, if in range. */
  function InRangeValue(db: Tables, q: Select, sensorid: int, fieldid: int, timekey: int): Option<real> {
    if q.interval != 60 then
      var key := AverageKey(timekey, q.interval, sensorid, fieldid);
      if key in db.avg && q.start <= timekey <= q.end then Some(db.avg[key]) else None
    else
      var key := SampleKey(timekey - q.offset, sensorid, fieldid);
      if key in db.sdata && q.start <= key.timekey <= q.end then Some(db.sdata[key]) else None
  }

  /** rows is an answer to the query, in whatever order. */
  ghost predicate Answers(rows: seq<ResultRow>, db: Tables, q: Select) {
    forall r: ResultRow ::
      r in rows <==>
      (r.sensorid, r.fieldid) in q.pairs &&
      InRangeValue(db, q, r.sensorid, r.fieldid, r.timekey) == Some(r.value)
  }

  // ----- selections -----

  /** The ids the selected names were given. */
  function IdsOf(catalog: seq<Row>, c: Cache, select: map<string, string>): map<string, FieldId> {
    map n | n in select && Answer(catalog, c, ByName(select[n])).Ok? :: Answer(catalog, c, ByName(select[n])).value
  }

  /** The two maps are inverse to each other. */
  ghost predicate Paired(ids: map<string, FieldId>, idmap: map<FieldId, string>) {
    (forall n :: n in ids ==> ids[n] in idmap && idmap[ids[n]] == n) &&
    (forall id :: id in idmap ==> idmap[id] in ids && ids[idmap[id]] == id)
  }

  ghost predicate AllSettled(catalog: seq<Row>, c: Cache, select: map<string, string>) {
    forall n :: n in select ==> Settled(catalog, c, select[n])
  }

  /** No lookup, by whomever, changes the ids of the selected names. */
  lemma IdsStay(catalog: seq<Row>, c: Cache, select: map<string, string>, l: Lookup)
    requires AllSettled(catalog, c, select)
    ensures AllSettled(catalog, After(catalog, c, l), select)
    ensures IdsOf(catalog, After(catalog, c, l), select) == IdsOf(catalog, c, select)
  {
    hide After, Answer, Settled;
    forall n | n in select
      ensures Settled(catalog, After(catalog, c, l), select[n])
      ensures Answer(catalog, After(catalog, c, l), ByName(select[n])) == Answer(catalog, c, ByName(select[n]))
    {
      SettledStays(catalog, c, select[n], l);
    }
  }

  /** When names agree in the database, they are the ids it gives for the names. */
  lemma IdsAreDirect(catalog: seq<Row>, c: Cache, select: map<string, string>, n: string)
    requires Traced(catalog, c) && PrimaryKeys(catalog) && NamesAgree(catalog)
    requires AllSettled(catalog, c, select) && n in select
    ensures n in IdsOf(catalog, c, select) && DirectName(catalog, select[n]) == Ok(IdsOf(catalog, c, select)[n])
  {
    hide DirectName, Traced, NamesAgree, PrimaryKeys;
    KeysAgree(catalog);
    TracedAnswers(catalog, c);
    assert Settled(catalog, c, select[n]);
    assert Answer(catalog, c, ByName(select[n])) == Direct(catalog, ByName(select[n]));
  }

  lemma PairedMore(catalog: seq<Row>, c: Cache, select: map<string, string>, idmap: map<FieldId, string>,
                   n: string, fieldname: string)
    requires AllSettled(catalog, c, select) && Settled(catalog, c, fieldname)
    requires Paired(IdsOf(catalog, c, select), idmap)
    requires n !in select && Answer(catalog, c, ByName(fieldname)).value !in idmap
    ensures var id := Answer(catalog, c, ByName(fieldname)).value;
            AllSettled(catalog, c, select[n := fieldname]) &&
            IdsOf(catalog, c, select[n := fieldname]) == IdsOf(catalog, c, select)[n := id] &&
            Paired(IdsOf(catalog, c, select[n := fieldname]), idmap[id := n])
  {
    hide Answer;
    assert Answer(catalog, c, ByName(fieldname)).Ok?;
  }

  function PairOf(id: FieldId): (int, int) {
    (id.sensorid, id.mfieldid)
  }

  /** The pairs are the sensors and fields of the given names. */
  ghost predicate Covers(ids: map<string, FieldId>, pairs: seq<(int, int)>, names: set<string>) {
    names <= ids.Keys &&
    (forall n :: n in names ==> PairOf(ids[n]) in pairs) &&
    (forall p :: p in pairs ==> exists n :: n in names && p == PairOf(ids[n]))
  }

  lemma CoversMore(ids: map<string, FieldId>, pairs: seq<(int, int)>, names: set<string>, n: string)
    requires Covers(ids, pairs, names) && n in ids
    ensures Covers(ids, pairs + [PairOf(ids[n])], names + {n})
  {
    var p := PairOf(ids[n]);
    forall o | o in pairs + [p]
      ensures exists m :: m in names + {n} && o == PairOf(ids[m])
    {
      if o in pairs {
        var m :| m in names && o == PairOf(ids[m]);
        assert m in names + {n};
      } else {
        assert n in names + {n};
      }
    }
  }

  datatype Added = Accepted | DuplicateName | DuplicateId | UnknownField

  class FieldQuery {
    const cache: FqFieldCache
    var select: map<string, string>
    var idmap: map<FieldId, string>
    const start: int
    const end: int
    const interval: int
    const offset: int

    ghost predicate Valid()
      reads this, cache
    {
      cache.Valid() && interval > 0 &&
      start == Series.Aligned(start, interval) && end == Series.Aligned(end, interval) &&
      AllSettled(cache.catalog, cache.State(), select) && Paired(Ids(), idmap)
    }

    ghost function Ids(): map<string, FieldId>
      reads this, cache
    {
      IdsOf(cache.catalog, cache.State(), select)
    }

    constructor (c: FqFieldCache, i: int, s: int, e: int, off: int)
      requires c.Valid() && i > 0
      ensures Valid() && select == map[] && cache == c
      ensures interval == i && start == Series.Aligned(s, i) && end == Series.Aligned(e, i) && offset == off
    {
      Series.AlignedTwice(s, i);
      Series.AlignedTwice(e, i);
      cache := c;
      select := map[];
      idmap := map[];
      interval := i;
      start := Series.Aligned(s, i);
      end := Series.Aligned(e, i);
      offset := off;
    }

    /** addSelect keeps both maps or extends both; names selected before keep their ids. */
    method AddSelect(n: string, fieldname: string) returns (r: Added)
      requires Valid()
      modifies this`select, this`idmap, cache
      ensures Valid()
      ensures var id := Answer(cache.catalog, old(cache.State()), ByName(fieldname));
              (r == if n in old(select) then DuplicateName
                    else if !id.Ok? then UnknownField
                    else if id.value in old(idmap) then DuplicateId else Accepted) &&
              select == (if r.Accepted? then old(select)[n := fieldname] else old(select)) &&
              idmap == (if r.Accepted? then old(idmap)[id.value := n] else old(idmap)) &&
              Ids() == if r.Accepted? then old(Ids())[n := id.value] else old(Ids())
    {
      hide Answer, After, Settled, FqFieldCache.Valid, Paired, AllSettled, IdsOf;
      if n in select {
        return DuplicateName;
      }
      IdsStay(cache.catalog, cache.State(), select, ByName(fieldname));
      ghost var before := cache.State();
      var id := cache.LookupName(fieldname);
      if !id.Ok? {
        return UnknownField;
      }
      if id.value in idmap {
        return DuplicateId;
      }
      SettledAfter(cache.catalog, before, fieldname);
      PairedMore(cache.catalog, cache.State(), select, idmap, n, fieldname);
      select := select[n := fieldname];
      idmap := idmap[id.value := n];
      r := Accepted;
    }

    /** getQuery; an empty selection is refused. */
    method GetQuery() returns (q: Option<Select>)
      requires Valid()
      modifies cache
      ensures Valid() && Ids() == old(Ids())
      ensures q.None? <==> select == map[]
      ensures q.Some? ==> Covers(Ids(), q.value.pairs, select.Keys)
      ensures q.Some? ==> q.value == Select(interval, start, end, offset, q.value.pairs)
    {
      hide Answer, After, Settled, Covers, FqFieldCache.Valid;
      if select == map[] {
        return None;
      }
      var pairs: seq<(int, int)> := [];
      var rest := select.Keys;
      NothingCovered(Ids());
      assert select.Keys - rest == {};
      while rest != {}
        invariant Valid() && Ids() == old(Ids()) && rest <= select.Keys
        invariant Covers(Ids(), pairs, select.Keys - rest)
        decreases |rest|
      {
        var n :| n in rest;
        IdsStay(cache.catalog, cache.State(), select, ByName(select[n]));
        IdOfSettled(cache.catalog, cache.State(), select, n);
        var fi := cache.LookupName(select[n]);
        CoversMore(Ids(), pairs, select.Keys - rest, n);
        assert select.Keys - (rest - {n}) == select.Keys - rest + {n};
        pairs := pairs + [(fi.value.sensorid, fi.value.mfieldid)];
        rest := rest - {n};
      }
      assert select.Keys - rest == select.Keys;
      q := Some(Select(interval, start, end, offset, pairs));
    }
  }

  lemma IdOfSettled(catalog: seq<Row>, c: Cache, select: map<string, string>, n: string)
    requires AllSettled(catalog, c, select) && n in select
    ensures Answer(catalog, c, ByName(select[n])).Ok?
    ensures n in IdsOf(catalog, c, select)
    ensures IdsOf(catalog, c, select)[n] == Answer(catalog, c, ByName(select[n])).value
  {
    assert Settled(catalog, c, select[n]);
  }

  lemma NothingCovered(ids: map<string, FieldId>)
    ensures Covers(ids, [], {})
  {
  }

  // ----- distributing the rows -----

  type Results = map<string, Series.Tdata>

  datatype Performed = Done | NoFields | CorruptQuery | UnknownRow

  /** The value a series holds under a time key. */
  function Held(d: Series.Tdata, t: int): Option<real> {
    if d.Samples? && t in d.data then Some(d.data[t]) else None
  }

  /** The value of the last row for a field and a time key. */
  function LastValue(rows: seq<ResultRow>, id: FieldId, t: int): Option<real> {
    if rows == [] then None
    else
      var r := rows[|rows| - 1];
      if r.sensorid == id.sensorid && r.fieldid == id.mfieldid && r.timekey == t then Some(r.value)
      else LastValue(rows[..|rows| - 1], id, t)
  }

  lemma {:induction false} LastValueIsARow(rows: seq<ResultRow>, id: FieldId, t: int)
    ensures match LastValue(rows, id, t)
            case Some(v) => ResultRow(t, id.sensorid, id.mfieldid, v) in rows
            case None => forall v :: ResultRow(t, id.sensorid, id.mfieldid, v) !in rows
  {
    if rows != [] {
      LastValueIsARow(rows[..|rows| - 1], id, t);
    }
  }

  /** Over a whole answer, the last row for a field and a time key carries the value in the database. */
  lemma AnswerHolds(rows: seq<ResultRow>, db: Tables, q: Select, id: FieldId, t: int)
    requires Answers(rows, db, q) && PairOf(id) in q.pairs
    ensures LastValue(rows, id, t) == InRangeValue(db, q, id.sensorid, id.mfieldid, t)
  {
    hide InRangeValue;
    LastValueIsARow(rows, id, t);
    var w := InRangeValue(db, q, id.sensorid, id.mfieldid, t);
    if w.Some? {
      assert ResultRow(t, id.sensorid, id.mfieldid, w.value) in rows;
    }
  }

  /** A series of the query that holds, for its field, the values of the rows so far. */
  ghost predicate Holds(q: Select, d: Series.Tdata, rows: seq<ResultRow>, id: FieldId) {
    q.interval > 0 && d.Samples? && d == Series.Filled(q.interval, q.start, q.end, d.data) &&
    forall t :: Held(d, t) == LastValue(rows, id, t)
  }

  ghost predicate Distributed(ids: map<string, FieldId>, q: Select, results: Results, rows: seq<ResultRow>) {
    results.Keys == ids.Keys && forall n :: n in results ==> Holds(q, results[n], rows, ids[n])
  }

  /** Every name has a series over the range of the query with exactly the values in range of its field. */
  ghost predicate Delivered(db: Tables, q: Select, ids: map<string, FieldId>, results: Results) {
    q.interval > 0 && results.Keys == ids.Keys &&
    forall n :: n in results ==> HoldsInRange(db, q, ids[n], results[n])
  }

  ghost predicate HoldsInRange(db: Tables, q: Select, id: FieldId, d: Series.Tdata)
    requires q.interval > 0
  {
    d.Samples? && d == Series.Filled(q.interval, q.start, q.end, d.data) &&
    forall t :: Held(d, t) == InRangeValue(db, q, id.sensorid, id.mfieldid, t)
  }

  /** vc[timekey] = value */
  function Stored(d: Series.Tdata, r: ResultRow): Series.Tdata {
    if d.Samples? then d.(data := d.data[r.timekey := r.value]) else d
  }

  lemma HoldsNext(q: Select, d: Series.Tdata, rows: seq<ResultRow>, id: FieldId, r: ResultRow)
    requires Holds(q, d, rows, id)
    ensures Holds(q, if (r.sensorid, r.fieldid) == PairOf(id) then Stored(d, r) else d, rows + [r], id)
  {
    assert (rows + [r])[..|rows|] == rows;
    forall t
      ensures LastValue(rows + [r], id, t) ==
              if (r.sensorid, r.fieldid) == PairOf(id) && r.timekey == t then Some(r.value)
              else LastValue(rows, id, t)
    {
    }
  }

  /** The ids are complete, as the database gives them for their sensor and field. */
  ghost predicate Complete(catalog: seq<Row>, ids: map<string, FieldId>) {
    forall n :: n in ids ==> DirectId(catalog, ids[n].sensorid, ids[n].mfieldid) == Ok(ids[n])
  }

  lemma IdsComplete(catalog: seq<Row>, c: Cache, select: map<string, string>)
    requires Traced(catalog, c) && PrimaryKeys(catalog)
    ensures Complete(catalog, IdsOf(catalog, c, select))
  {
    hide Traced, PrimaryKeys, DirectId, Answer;
    var ids := IdsOf(catalog, c, select);
    forall n | n in ids ensures DirectId(catalog, ids[n].sensorid, ids[n].mfieldid) == Ok(ids[n]) {
      NamedRow(catalog, c, select[n]);
    }
  }

  /** The names of a query are told apart by sensor and field alone. */
  lemma NamesApart(catalog: seq<Row>, ids: map<string, FieldId>, idmap: map<FieldId, string>, m: string, n: string)
    requires Complete(catalog, ids) && Paired(ids, idmap) && m in ids && n in ids
    requires PairOf(ids[m]) == PairOf(ids[n])
    ensures m == n
  {
    hide DirectId;
    assert ids[m] == ids[n];
  }

  lemma DistributedNext(catalog: seq<Row>, ids: map<string, FieldId>, idmap: map<FieldId, string>,
                        q: Select, results: Results, rows: seq<ResultRow>, r: ResultRow, n: string)
    requires Complete(catalog, ids) && Paired(ids, idmap) && Distributed(ids, q, results, rows)
    requires n in ids && (r.sensorid, r.fieldid) == PairOf(ids[n])
    ensures Distributed(ids, q, results[n := Stored(results[n], r)], rows + [r])
  {
    hide Holds, Paired, Complete;
    var results' := results[n := Stored(results[n], r)];
    forall m | m in results'
      ensures Holds(q, results'[m], rows + [r], ids[m])
    {
      HoldsNext(q, results[m], rows, ids[m], r);
      if PairOf(ids[m]) == PairOf(ids[n]) {
        NamesApart(catalog, ids, idmap, m, n);
      }
    }
  }

  /** An empty series for every selected name. */
  method PrepareResults(ghost ids: map<string, FieldId>, names: set<string>, q: Select) returns (results: Results)
    requires q.interval > 0 && names == ids.Keys
    ensures Distributed(ids, q, results, [])
  {
    results := map[];
    var empty := Series.Filled(q.interval, q.start, q.end, map[]);
    var rest := names;
    while rest != {}
      invariant rest <= names
      invariant results.Keys == names - rest
      invariant forall n :: n in results ==> results[n] == empty
      decreases |rest|
    {
      var n :| n in rest;
      results := results[n := empty];
      rest := rest - {n};
    }
  }

  /** Every row of an answer finds the name of its field. */
  lemma RowFindsName(catalog: seq<Row>, ids: map<string, FieldId>, idmap: map<FieldId, string>,
                     pairs: seq<(int, int)>, sensorid: int, fieldid: int)
    requires Complete(catalog, ids) && Paired(ids, idmap) && Covers(ids, pairs, ids.Keys)
    requires (sensorid, fieldid) in pairs
    ensures var id := DirectId(catalog, sensorid, fieldid);
            id.Ok? && id.value in idmap && idmap[id.value] in ids && PairOf(ids[idmap[id.value]]) == (sensorid, fieldid)
  {
    hide DirectId;
    var n :| n in ids && (sensorid, fieldid) == PairOf(ids[n]);
  }

  /**
    perform: whatever rows the server answers with, every row finds its series, and each symbolic name
    ends up with exactly the values in range of its field. The database only obeys its primary keys.
   */
  method Perform(query: FieldQuery, ghost db: Tables, server: Select -> seq<ResultRow>)
      returns (outcome: Performed, results: Results)
    requires query.Valid() && PrimaryKeys(query.cache.catalog)
    requires forall q :: Answers(server(q), db, q)
    modifies query.cache
    ensures query.Valid() && query.Ids() == old(query.Ids())
    ensures outcome == if query.select == map[] then NoFields else Done
    ensures outcome.Done? ==>
              Delivered(db, Select(query.interval, query.start, query.end, query.offset, []), query.Ids(), results)
  {
    hide Answer, After, Settled, IdsOf, Distributed, Delivered, Covers, Paired, Complete, InRangeValue, DirectId,
         FqFieldCache.Valid, PrimaryKeys;
    results := map[];
    var qs := query.GetQuery();
    if qs.None? {
      return NoFields, results;
    }
    var q := qs.value;
    ghost var catalog, ids, idmap := query.cache.catalog, query.Ids(), query.idmap;
    ValidIds(query);
    results := PrepareResults(ids, query.select.Keys, q);
    var rows := server(q);
    assert Answers(rows, db, q);
    var i := 0;
    while i < |rows|
      invariant 0 <= i <= |rows|
      invariant query.Valid() && query.Ids() == ids
      invariant Distributed(ids, q, results, rows[..i])
    {
      var row := rows[i];
      assert row in rows;
      RowFindsName(catalog, ids, idmap, q.pairs, row.sensorid, row.fieldid);
      IdsStay(catalog, query.cache.State(), query.select, ById(FieldId(-1, row.sensorid, row.fieldid)));
      var id := query.cache.GetFieldid(row.sensorid, row.fieldid);
      if !id.Ok? {
        return UnknownRow, results;
      }
      if id.value !in query.idmap {
        return CorruptQuery, results;
      }
      var name := query.idmap[id.value];
      DistributedNext(catalog, ids, idmap, q, results, rows[..i], row, name);
      DistributedKeys(ids, q, results, rows[..i]);
      assert rows[..i + 1] == rows[..i] + [row];
      results := results[name := Stored(results[name], row)];
      i := i + 1;
    }
    assert rows[..i] == rows;
    AllInRange(ids, q, results, rows, db);
    outcome := Done;
  }

  lemma ValidIds(query: FieldQuery)
    requires query.Valid() && PrimaryKeys(query.cache.catalog)
    ensures Complete(query.cache.catalog, query.Ids()) && query.Ids().Keys == query.select.Keys
  {
    hide Traced, PrimaryKeys, Answer, Paired;
    IdsComplete(query.cache.catalog, query.cache.State(), query.select);
    forall n | n in query.select ensures n in query.Ids() {
      IdOfSettled(query.cache.catalog, query.cache.State(), query.select, n);
    }
  }

  lemma DistributedKeys(ids: map<string, FieldId>, q: Select, results: Results, rows: seq<ResultRow>)
    requires Distributed(ids, q, results, rows)
    ensures results.Keys == ids.Keys
  {
  }

  lemma AllInRange(ids: map<string, FieldId>, q: Select, results: Results, rows: seq<ResultRow>, db: Tables)
    requires Distributed(ids, q, results, rows) && Answers(rows, db, q) && q.interval > 0
    requires Covers(ids, q.pairs, ids.Keys)
    ensures Delivered(db, q.(pairs := []), ids, results)
  {
    hide Answers;
    forall n | n in results ensures HoldsInRange(db, q.(pairs := []), ids[n], results[n]) {
      assert Holds(q, results[n], rows, ids[n]);
      forall t
        ensures Held(results[n], t) == InRangeValue(db, q.(pairs := []), ids[n].sensorid, ids[n].mfieldid, t)
      {
        AnswerHolds(rows, db, q, ids[n], t);
      }
    }
  }

  /**
    What is delivered for averages: every average of the interval in range under its time key, and
    nothing else.
   */
  lemma AveragesDelivered(db: Tables, q: Select, ids: map<string, FieldId>, results: Results, n: string)
    requires Delivered(db, q, ids, results) && n in results && q.interval != 60
    ensures results[n].Samples?
    ensures forall t :: t in results[n].data <==>
              q.start <= t <= q.end && AverageKey(t, q.interval, ids[n].sensorid, ids[n].mfieldid) in db.avg
    ensures forall t :: t in results[n].data ==>
              results[n].data[t] == db.avg[AverageKey(t, q.interval, ids[n].sensorid, ids[n].mfieldid)]
  {
    hide InRangeValue;
    assert HoldsInRange(db, q, ids[n], results[n]);
    var id, d := ids[n], results[n];
    forall t ensures Held(d, t) == InRangeValue(db, q, id.sensorid, id.mfieldid, t) {
    }
    forall t
      ensures t in d.data <==>
              q.start <= t <= q.end && AverageKey(t, q.interval, id.sensorid, id.mfieldid) in db.avg
      ensures t in d.data ==> d.data[t] == db.avg[AverageKey(t, q.interval, id.sensorid, id.mfieldid)]
    {
      AverageAt(db, q, id, d, t);
    }
  }

  lemma AverageAt(db: Tables, q: Select, id: FieldId, d: Series.Tdata, t: int)
    requires d.Samples? && q.interval != 60 && Held(d, t) == InRangeValue(db, q, id.sensorid, id.mfieldid, t)
    ensures t in d.data <==>
            q.start <= t <= q.end && AverageKey(t, q.interval, id.sensorid, id.mfieldid) in db.avg
    ensures t in d.data ==> d.data[t] == db.avg[AverageKey(t, q.interval, id.sensorid, id.mfieldid)]
  {
  }

  /** And for minutes: every minute in range, moved by the offset, and nothing else. */
  lemma MinutesDelivered(db: Tables, q: Select, ids: map<string, FieldId>, results: Results, n: string)
    requires Delivered(db, q, ids, results) && n in results && q.interval == 60
    ensures results[n].Samples?
    ensures forall t :: t in results[n].data <==>
              q.start <= t - q.offset <= q.end &&
              SampleKey(t - q.offset, ids[n].sensorid, ids[n].mfieldid) in db.sdata
    ensures forall t :: t in results[n].data ==>
              results[n].data[t] == db.sdata[SampleKey(t - q.offset, ids[n].sensorid, ids[n].mfieldid)]
  {
    hide InRangeValue;
    assert HoldsInRange(db, q, ids[n], results[n]);
    var id, d := ids[n], results[n];
    forall t ensures Held(d, t) == InRangeValue(db, q, id.sensorid, id.mfieldid, t) {
    }
    forall t
      ensures t in d.data <==>
              q.start <= t - q.offset <= q.end && SampleKey(t - q.offset, id.sensorid, id.mfieldid) in db.sdata
      ensures t in d.data ==> d.data[t] == db.sdata[SampleKey(t - q.offset, id.sensorid, id.mfieldid)]
    {
      MinuteAt(db, q, id, d, t);
    }
  }

  lemma MinuteAt(db: Tables, q: Select, id: FieldId, d: Series.Tdata, t: int)
    requires d.Samples? && q.interval == 60 && Held(d, t) == InRangeValue(db, q, id.sensorid, id.mfieldid, t)
    ensures t in d.data <==>
            q.start <= t - q.offset <= q.end && SampleKey(t - q.offset, id.sensorid, id.mfieldid) in db.sdata
    ensures t in d.data ==> d.data[t] == db.sdata[SampleKey(t - q.offset, id.sensorid, id.mfieldid)]
  {
  }
}
