/**
  From the database to a graph: expressions over the series a query delivers (lib/Query.cc,
  lib/QueryProcessor.cc, lib/Dataset.cc together).
 */
module Graphs {
  import opened Wrappers
  import opened FieldCache
  import Series
  import Query
  import Dataset

  /** A query as the class Query makes it. */
  predicate Aligned(q: Query.Select) {
    q.interval > 0 && q.start == Series.Aligned(q.start, q.interval) && q.end == Series.Aligned(q.end, q.interval)
  }

  /** No minute of the field in the queried range is moved out of that range by the offset. */
  ghost predicate StaysInside(db: Query.Tables, q: Query.Select, id: FieldId) {
    forall key: Query.SampleKey ::
      key in db.sdata && key.sensorid == id.sensorid && key.fieldid == id.mfieldid && q.start <= key.timekey <= q.end
      ==> q.start <= key.timekey + q.offset <= q.end
  }

  /**
    Averages always lie in the range of their series. Minutes are returned under shifted keys, and lie
    in the range, which is not shifted, exactly when none of them is moved out.
   */
  lemma SeriesInRange(db: Query.Tables, q: Query.Select, id: FieldId, d: Series.Tdata)
    requires Aligned(q) && Query.HoldsInRange(db, q, id, d)
    ensures q.interval != 60 ==> Dataset.InRange(d, q.interval)
    ensures q.interval == 60 ==> (Dataset.InRange(d, q.interval) <==> StaysInside(db, q, id))
    ensures q.offset == 0 ==> Dataset.InRange(d, q.interval)
  {
    hide Series.Aligned;
    assert d.start == q.start && d.finish == q.end;
    forall t | t in d.data
      ensures Query.InRangeValue(db, q, id.sensorid, id.mfieldid, t).Some?
    {
      assert Query.Held(d, t).Some?;
    }
    if q.interval == 60 && Dataset.InRange(d, q.interval) {
      forall key: Query.SampleKey |
        key in db.sdata && key.sensorid == id.sensorid && key.fieldid == id.mfieldid && q.start <= key.timekey <= q.end
        ensures q.start <= key.timekey + q.offset <= q.end
      {
        var t := key.timekey + q.offset;
        assert key == Query.SampleKey(t - q.offset, id.sensorid, id.mfieldid);
        assert Query.Held(d, t).Some?;
      }
    }
  }

  /** Two series of one query never meet outside the queried range, whatever they hold there. */
  lemma CutToRange(db: Query.Tables, q: Query.Select, i: FieldId, j: FieldId, d: Series.Tdata, e: Series.Tdata,
                   f: Series.Binary, t: int)
    requires Aligned(q) && Query.HoldsInRange(db, q, i, d) && Query.HoldsInRange(db, q, j, e)
    ensures Series.Combined(f, d, e).Ok?
    ensures var x, y := Query.InRangeValue(db, q, i.sensorid, i.mfieldid, t),
                        Query.InRangeValue(db, q, j.sensorid, j.mfieldid, t);
            Dataset.ValueAt(Series.Combined(f, d, e).tdata, t) ==
            if q.start <= t <= q.end then Dataset.Bind2(f, x, y) else None
  {
    hide Series.Aligned, Query.InRangeValue, Series.Combined;
    Dataset.CombinedPointwise(f, d, e);
    assert Query.Held(d, t) == Dataset.ValueAt(d, t) && Query.Held(e, t) == Dataset.ValueAt(e, t);
  }

  /** One hour east, the minute at the end of the range is in the series but lost by an operator. */
  lemma MinuteLost(v: real, d: Series.Tdata, q: Query.Select, db: Query.Tables, f: Series.Binary)
    requires d == Series.Filled(60, 0, 600, map[4200 := v]) && q == Query.Select(60, 0, 600, 3600, [])
    requires db == Query.Tables(map[Query.SampleKey(600, 1, 0) := v], map[])
    ensures Aligned(q) && Query.HoldsInRange(db, q, FieldId(0, 1, 0), d) && Dataset.ValueAt(d, 4200).Some?
    ensures Series.Proper(d) && Series.Combined(f, d, d).Ok? &&
            Dataset.ValueAt(Series.Combined(f, d, d).tdata, 4200).None?
  {
    hide Series.Combined, Series.Filled, Dataset.ValueAt, Query.HoldsInRange, Query.InRangeValue, Aligned;
    OneMinute(v, d, q, db);
    CutToRange(db, q, FieldId(0, 1, 0), FieldId(0, 1, 0), d, d, f, 4200);
  }

  lemma OneMinute(v: real, d: Series.Tdata, q: Query.Select, db: Query.Tables)
    requires d == Series.Filled(60, 0, 600, map[4200 := v]) && q == Query.Select(60, 0, 600, 3600, [])
    requires db == Query.Tables(map[Query.SampleKey(600, 1, 0) := v], map[])
    ensures Aligned(q) && Query.HoldsInRange(db, q, FieldId(0, 1, 0), d) && Dataset.ValueAt(d, 4200).Some?
    ensures Series.Proper(d)
  {
    hide Query.InRangeValue, Query.Held, Series.Aligned;
    WholeMinutes();
    forall t ensures Query.Held(d, t) == Query.InRangeValue(db, q, 1, 0, t) {
      OneMinuteAt(v, d, q, db, t);
    }
  }

  lemma WholeMinutes()
    ensures Series.Aligned(0, 60) == 0 && Series.Aligned(600, 60) == 600
  {
  }

  lemma OneMinuteAt(v: real, d: Series.Tdata, q: Query.Select, db: Query.Tables, t: int)
    requires d.Samples? && d.data == map[4200 := v] && q == Query.Select(60, 0, 600, 3600, [])
    requires db == Query.Tables(map[Query.SampleKey(600, 1, 0) := v], map[])
    ensures Query.Held(d, t) == Query.InRangeValue(db, q, 1, 0, t)
  {
    if t != 4200 {
      assert Query.SampleKey(t - 3600, 1, 0) != Query.SampleKey(600, 1, 0);
    }
  }

  /** The range of the series of a query. */
  function RangeOf(q: Query.Select): Dataset.Span {
    Dataset.Span(q.interval, q.start, q.end)
  }

  /** What the delivered series are to the interpreter. */
  lemma DeliveredSeries(db: Query.Tables, q: Query.Select, ids: map<string, FieldId>, results: Query.Results)
    requires Aligned(q) && Query.Delivered(db, q, ids, results)
    ensures Dataset.ProperNames(results) && Dataset.OneRange(results, RangeOf(q)) && results.Keys == ids.Keys
  {
    hide Series.Aligned, Query.InRangeValue;
    forall n | n in results
      ensures Series.Proper(results[n]) && results[n].Samples? && Dataset.SpanOf(results[n]) == RangeOf(q)
    {
      assert Query.HoldsInRange(db, q, ids[n], results[n]);
    }
  }

  /** The leaves of an expression over delivered series are the values of the database. */
  lemma DeliveredLeaf(db: Query.Tables, q: Query.Select, ids: map<string, FieldId>, results: Query.Results,
                      lib: Dataset.Library, n: string, t: int)
    requires Query.Delivered(db, q, ids, results) && n in results && Dataset.ProperNames(results)
    ensures Dataset.At(lib, results, Dataset.Value(Some(n)), t, Dataset.WRITTEN) ==
            Query.InRangeValue(db, q, ids[n].sensorid, ids[n].mfieldid, t)
  {
    hide Series.Aligned, Query.InRangeValue;
    assert Query.HoldsInRange(db, q, ids[n], results[n]);
    assert Query.Held(results[n], t) == Dataset.ValueAt(results[n], t);
  }

  /**
    For every query, an expression over its series has at every time the value that its written form has
    over the database; an expression that combines series has none outside the range of the query.
   */
  lemma QueriedExpression(db: Query.Tables, q: Query.Select, ids: map<string, FieldId>, results: Query.Results,
                          lib: Dataset.Library, e: Dataset.Expr)
    requires Aligned(q) && Query.Delivered(db, q, ids, results) && Dataset.OrderKept(lib, results, e)
    requires (DeliveredSeries(db, q, ids, results); Dataset.Evaluates(lib, results, e))
    ensures Dataset.ProperNames(results)
    ensures var r := Dataset.Evaluate(lib, results, e);
            r.Ok? && forall t ::
              Dataset.ValueAt(r.tdata, t) ==
              if Dataset.Joins(results, e) && !(q.start <= t <= q.end) then None
              else Dataset.At(lib, results, e, t, Dataset.WRITTEN)
    ensures forall n, t :: n in results ==>
              Dataset.At(lib, results, Dataset.Value(Some(n)), t, Dataset.WRITTEN) ==
              Query.InRangeValue(db, q, ids[n].sensorid, ids[n].mfieldid, t)
  {
    hide Series.Aligned, Query.InRangeValue, Query.Delivered, Dataset.OrderKept, Dataset.Evaluates, Dataset.Evaluate,
         Dataset.At, Dataset.OneRange;
    DeliveredSeries(db, q, ids, results);
    Dataset.EvaluatesCut(lib, results, e, RangeOf(q));
    forall n, t | n in results
      ensures Dataset.At(lib, results, Dataset.Value(Some(n)), t, Dataset.WRITTEN) ==
              Query.InRangeValue(db, q, ids[n].sensorid, ids[n].mfieldid, t)
    {
      DeliveredLeaf(db, q, ids, results, lib, n, t);
    }
  }

  /** For averages, and for minutes without offset, it has that value at every time without exception. */
  lemma QueriedInRange(db: Query.Tables, q: Query.Select, ids: map<string, FieldId>, results: Query.Results,
                       lib: Dataset.Library, e: Dataset.Expr)
    requires Aligned(q) && Query.Delivered(db, q, ids, results) && Dataset.OrderKept(lib, results, e)
    requires (DeliveredSeries(db, q, ids, results); Dataset.Evaluates(lib, results, e))
    requires q.interval != 60 || q.offset == 0
    ensures Dataset.ProperNames(results)
    ensures var r := Dataset.Evaluate(lib, results, e);
            r.Ok? && forall t :: Dataset.ValueAt(r.tdata, t) == Dataset.At(lib, results, e, t, Dataset.WRITTEN)
  {
    hide Series.Aligned, Query.InRangeValue, Dataset.OrderKept, Dataset.Evaluates, Dataset.Evaluate, Dataset.At;
    DeliveredSeries(db, q, ids, results);
    forall n | n in results ensures Dataset.InRange(results[n], q.interval) {
      SeriesInRange(db, q, ids[n], results[n]);
    }
    Dataset.EvaluatesInRange(lib, results, e, q.interval);
  }
}
