/** showData: one table row per entry of the input map, one cell per field of
    an object value, and a deferred nested table for each array or object
    field. The nested tables are rendered after the parent table, the one
    registered last first (Go runs deferred calls in LIFO order). */
module Flatten {
  import opened Wrappers
  import opened JsonValues
  import opened KeyFormat
  import KeyOrder
  import opened TableRender

  /** The cell a field shows: a string as itself, anything else as the name of
      its type (the type name is written first and overwritten for strings). */
  function Cell(v: Json): string
  {
    if v.Str? then v.s else TypeName(v)
  }

  /** The cells of the row made from a value: one per field of an object, none
      for any other value. */
  function RowFields(val: Json): map<string, string>
  {
    if val.Obj? then map k | k in val.fields :: Cell(val.fields[k]) else map[]
  }

  function RowOf(pk: string, val: Json): Record
  {
    Record(pk, RowFields(val))
  }

  /** The input for the nested table of an array field, item by item as the
      source's loop adds them. */
  function ArrayInput(pk: string, field: string, items: seq<Json>): map<string, Json>
  {
    if items == [] then map[]
    else
      var n := |items| - 1;
      ArrayInput(pk, field, items[..n])[IndexKey(n, pk, field) := items[n]]
  }

  /** The input of the nested table a field registers, if any: one entry per
      array item, or a single entry holding the object itself. */
  function Deferred(pk: string, field: string, v: Json): Option<map<string, Json>>
  {
    match v
    case Arr(items) => Some(ArrayInput(pk, field, items))
    case Obj(_) => Some(map[MemberKey(pk, field) := v])
    case _ => None
  }

  /** A deferred `showData(data)` call, with the row and field it came from. */
  datatype Job = Job(pk: string, field: string, input: map<string, Json>)

  /** `job` is the call registered for field `job.field` of the row made from `val`. */
  predicate RowJob(pk: string, val: Json, job: Job)
  {
    && job.pk == pk
    && val.Obj?
    && job.field in val.fields
    && Deferred(pk, job.field, val.fields[job.field]) == Some(job.input)
  }

  predicate IsJobOf(e: map<string, Json>, job: Job)
  {
    job.pk in e && RowJob(job.pk, e[job.pk], job)
  }

  /** The field value a job was made from. */
  function Source(e: map<string, Json>, job: Job): Json
    requires IsJobOf(e, job)
  {
    e[job.pk].fields[job.field]
  }

  function JobKeys(jobs: seq<Job>): set<(string, string)>
  {
    set i | 0 <= i < |jobs| :: (jobs[i].pk, jobs[i].field)
  }

  /** The calls registered so far: each nested field of each entry in `done`
      exactly once. */
  ghost predicate JobsFor(e: map<string, Json>, jobs: seq<Job>, done: set<string>)
  {
    && (forall i :: 0 <= i < |jobs| ==> IsJobOf(e, jobs[i]) && jobs[i].pk in done)
    && (forall i, j :: 0 <= i < j < |jobs| ==> (jobs[i].pk, jobs[i].field) != (jobs[j].pk, jobs[j].field))
    && (forall pk, f :: pk in done && pk in e && e[pk].Obj? && f in e[pk].fields && IsNested(e[pk].fields[f]) ==>
          (pk, f) in JobKeys(jobs))
  }

  /** `jobs` lists the deferred calls made while filling the rows of `e`, in
      registration order: each nested field of each row exactly once. */
  ghost predicate Registers(e: map<string, Json>, jobs: seq<Job>)
  {
    JobsFor(e, jobs, e.Keys)
  }

  /** Every value of the input is `gen` itself or sits directly inside it: the
      input was carved out of `gen`, which bounds the recursion. */
  ghost predicate ValuesUnder(e: map<string, Json>, gen: Json)
  {
    forall key :: key in e ==> e[key] == gen || IsChild(e[key], gen)
  }

  function KeysOf(rows: seq<Record>): set<string>
  {
    set i | 0 <= i < |rows| :: rows[i].key
  }

  /** The rows made so far: one for each entry in `done`. */
  ghost predicate RowsFor(e: map<string, Json>, rows: seq<Record>, done: set<string>)
  {
    && KeysOf(rows) == done
    && DistinctKeys(rows)
    && forall i :: 0 <= i < |rows| ==> rows[i].key in e && rows[i] == RowOf(rows[i].key, e[rows[i].key])
  }

  /** `rows` holds exactly one row per entry of `e`. */
  ghost predicate RowsOf(e: map<string, Json>, rows: seq<Record>)
  {
    RowsFor(e, rows, e.Keys)
  }

  /** `r` renders the rows of `e`, sorted by key. */
  ghost predicate HeadRenders(e: map<string, Json>, r: Rendered)
  {
    exists rows :: RowsOf(e, rows) && Ascending(rows) && Renders(rows, r)
  }

  /** The outputs of the deferred calls, the one registered last first. */
  function ConcatReversed(parts: seq<seq<Rendered>>): seq<Rendered>
  {
    if parts == [] then [] else ConcatReversed(parts[1..]) + parts[0]
  }

  /** `out` is what showData(e) renders: the table of `e` first, then the
      outputs of its deferred calls in LIFO order, each flattened in turn. */
  ghost predicate Flattens(e: map<string, Json>, out: seq<Rendered>, gen: Json)
    requires ValuesUnder(e, gen)
    decreases gen, 1
  {
    && |out| >= 1
    && HeadRenders(e, out[0])
    && exists jobs, parts :: DefersTo(e, gen, jobs, parts, out[1..])
  }

  ghost predicate DefersTo(e: map<string, Json>, gen: Json, jobs: seq<Job>, parts: seq<seq<Rendered>>, rest: seq<Rendered>)
    requires ValuesUnder(e, gen)
    decreases gen, 0
  {
    && Registers(e, jobs)
    && |parts| == |jobs|
    && rest == ConcatReversed(parts)
    && forall i :: 0 <= i < |jobs| ==>
         && ValuesUnder(jobs[i].input, Source(e, jobs[i]))
         && Flattens(jobs[i].input, parts[i], Source(e, jobs[i]))
  }

  // ---------------------------------------------------------------------------
  // Properties of the pieces

  /** The nested input of an array field holds one entry per item, keyed by the
      item's zero-padded index, and nothing else. */
  lemma ArrayInputEntries(pk: string, field: string, items: seq<Json>)
    ensures |ArrayInput(pk, field, items)| == |items|
    ensures forall i :: 0 <= i < |items| ==>
              IndexKey(i, pk, field) in ArrayInput(pk, field, items)
              && ArrayInput(pk, field, items)[IndexKey(i, pk, field)] == items[i]
    ensures forall key :: key in ArrayInput(pk, field, items) ==>
              exists i :: 0 <= i < |items| && key == IndexKey(i, pk, field)
  {
    ArrayInputKeys(pk, field, items);
    ArrayInputValues(pk, field, items);
  }

  lemma {:induction false} ArrayInputKeys(pk: string, field: string, items: seq<Json>)
    ensures |ArrayInput(pk, field, items)| == |items|
    ensures forall key :: key in ArrayInput(pk, field, items) ==>
              exists i :: 0 <= i < |items| && key == IndexKey(i, pk, field)
  {
    if items != [] {
      var n := |items| - 1;
      var a := ArrayInput(pk, field, items[..n]);
      var k := IndexKey(n, pk, field);
      ArrayInputKeys(pk, field, items[..n]);
      assert k !in a by {
        if k in a {
          var i :| 0 <= i < n && k == IndexKey(i, pk, field);
          IndexKeyInjective(n, i, pk, field);
        }
      }
      forall key | key in ArrayInput(pk, field, items)
        ensures exists i :: 0 <= i < |items| && key == IndexKey(i, pk, field)
      {
        if key != k {
          assert key in a;
        }
      }
    }
  }

  lemma {:induction false} ArrayInputValues(pk: string, field: string, items: seq<Json>)
    ensures forall i :: 0 <= i < |items| ==>
              IndexKey(i, pk, field) in ArrayInput(pk, field, items)
              && ArrayInput(pk, field, items)[IndexKey(i, pk, field)] == items[i]
  {
    if items != [] {
      var n := |items| - 1;
      var prev := items[..n];
      ArrayInputValues(pk, field, prev);
      forall i | 0 <= i < |items|
        ensures IndexKey(i, pk, field) in ArrayInput(pk, field, items)
        ensures ArrayInput(pk, field, items)[IndexKey(i, pk, field)] == items[i]
      {
        if i < n {
          assert prev[i] == items[i];
          if IndexKey(i, pk, field) == IndexKey(n, pk, field) {
            IndexKeyInjective(n, i, pk, field);
          }
        }
      }
    }
  }

  /** A registered input is carved out of the field value it came from. */
  lemma DeferredUnder(pk: string, field: string, v: Json)
    requires Deferred(pk, field, v).Some?
    ensures ValuesUnder(Deferred(pk, field, v).value, v)
  {
    if v.Arr? {
      ArrayInputEntries(pk, field, v.items);
    }
  }

  lemma {:induction false} DistinctKeysCount(rows: seq<Record>)
    requires DistinctKeys(rows)
    ensures |KeysOf(rows)| == |rows|
  {
    if rows != [] {
      var n := |rows| - 1;
      DistinctKeysCount(rows[..n]);
      assert KeysOf(rows) == KeysOf(rows[..n]) + {rows[n].key};
      assert rows[n].key !in KeysOf(rows[..n]);
    }
  }

  lemma KeysOfAppend(rows: seq<Record>, r: Record)
    ensures KeysOf(rows + [r]) == KeysOf(rows) + {r.key}
  {
    var rs := rows + [r];
    assert rs[|rows|] == r;
    forall key | key in KeysOf(rs)
      ensures key in KeysOf(rows) + {r.key}
    {
      var i :| 0 <= i < |rs| && rs[i].key == key;
      if i < |rows| {
        assert rs[i] == rows[i];
      }
    }
    forall key | key in KeysOf(rows)
      ensures key in KeysOf(rs)
    {
      var i :| 0 <= i < |rows| && rows[i].key == key;
      assert rs[i] == rows[i];
    }
  }

  /** Sorting keeps one row per entry. */
  lemma RowsOfPermutation(e: map<string, Json>, a: seq<Record>, b: seq<Record>)
    requires RowsOf(e, a) && multiset(a) == multiset(b) && Ascending(b)
    ensures RowsOf(e, b)
  {
    AscendingIsDistinct(b);
    SameMembers(a, b);
    SameMembersKeys(a, b);
    forall i | 0 <= i < |b|
      ensures b[i].key in e && b[i] == RowOf(b[i].key, e[b[i].key])
    {
      assert b[i] in a;
      var j :| 0 <= j < |a| && a[j] == b[i];
    }
  }

  lemma SameMembers(a: seq<Record>, b: seq<Record>)
    requires multiset(a) == multiset(b)
    ensures forall x :: x in a <==> x in b
  {
    forall x
      ensures x in a <==> x in b
    {
      assert x in a <==> x in multiset(a);
      assert x in b <==> x in multiset(b);
    }
  }

  lemma SameMembersKeys(a: seq<Record>, b: seq<Record>)
    requires forall x :: x in a <==> x in b
    ensures KeysOf(a) == KeysOf(b)
  {
    forall key | key in KeysOf(a)
      ensures key in KeysOf(b)
    {
      var j :| 0 <= j < |a| && a[j].key == key;
      assert a[j] in b;
      var i :| 0 <= i < |b| && b[i] == a[j];
    }
    forall key | key in KeysOf(b)
      ensures key in KeysOf(a)
    {
      var j :| 0 <= j < |b| && b[j].key == key;
      assert b[j] in a;
      var i :| 0 <= i < |a| && a[i] == b[j];
    }
  }

  /** Concatenating the outputs in reverse: the output of the job registered
      last comes first. */
  lemma {:induction false} ConcatReversedSnoc(parts: seq<seq<Rendered>>, last: seq<Rendered>)
    ensures ConcatReversed(parts + [last]) == last + ConcatReversed(parts)
  {
    if parts != [] {
      assert (parts + [last])[1..] == parts[1..] + [last];
      ConcatReversedSnoc(parts[1..], last);
    } else {
      assert ConcatReversed([last]) == ConcatReversed([]) + last;
    }
  }

  /** The number of tables the deferred calls render in total. */
  function TotalTables(parts: seq<seq<Rendered>>): nat
  {
    if parts == [] then 0 else TotalTables(parts[1..]) + |parts[0]|
  }

  lemma {:induction false} ConcatReversedLength(parts: seq<seq<Rendered>>)
    ensures |ConcatReversed(parts)| == TotalTables(parts)
  {
    if parts != [] {
      ConcatReversedLength(parts[1..]);
    }
  }

  /** The first column of a rendered table: the row keys. */
  function KeyColumn(r: Rendered): (keys: seq<string>)
    ensures |keys| == |r.data|
  {
    seq(|r.data|, i requires 0 <= i < |r.data| => if r.data[i] == [] then "" else r.data[i][0])
  }

  /** The table of the input comes first, with one data row per entry of the
      input, in ascending key order: each row starts with its key and shows
      that entry's cells under the header. No entry means no header. */
  lemma ParentTable(e: map<string, Json>, out: seq<Rendered>, gen: Json)
    requires ValuesUnder(e, gen) && Flattens(e, out, gen)
    ensures |out[0].data| == |e|
    ensures |e| == 0 ==> out[0].header == []
    ensures |e| > 0 ==> |out[0].header| >= 1 && out[0].header[0] == PrimaryKey
    ensures forall i :: 0 <= i < |out[0].data| ==>
              && |out[0].data[i]| == |out[0].header| >= 1
              && out[0].data[i][0] in e
              && out[0].data[i] == Project(out[0].header, RowOf(out[0].data[i][0], e[out[0].data[i][0]]))
    ensures KeyOrder.StrictlyAscending(KeyColumn(out[0]))
    ensures forall pk :: pk in KeyColumn(out[0]) <==> pk in e
  {
    var rows: seq<Record> :| RowsOf(e, rows) && Ascending(rows) && Renders(rows, out[0]);
    TableOfRows(e, rows, out[0]);
  }

  /** The facts of `ParentTable`, from the sorted rows the table was made of. */
  lemma TableOfRows(e: map<string, Json>, rows: seq<Record>, r: Rendered)
    requires RowsOf(e, rows) && Ascending(rows) && Renders(rows, r)
    ensures |r.data| == |e|
    ensures |e| == 0 ==> r.header == []
    ensures |e| > 0 ==> |r.header| >= 1 && r.header[0] == PrimaryKey
    ensures forall i :: 0 <= i < |r.data| ==>
              && |r.data[i]| == |r.header| >= 1
              && r.data[i][0] in e
              && r.data[i] == Project(r.header, RowOf(r.data[i][0], e[r.data[i][0]]))
    ensures KeyOrder.StrictlyAscending(KeyColumn(r))
    ensures forall pk :: pk in KeyColumn(r) <==> pk in e
  {
    RenderedKeys(rows, r);
    DistinctKeysCount(rows);
    assert |e| == |e.Keys|;
    KeyColumnMembers(e, rows, r);
  }

  lemma KeyColumnMembers(e: map<string, Json>, rows: seq<Record>, r: Rendered)
    requires RowsOf(e, rows) && Renders(rows, r)
    ensures forall pk :: pk in KeyColumn(r) <==> pk in e
  {
    RenderedKeys(rows, r);
    var keys := KeyColumn(r);
    forall pk | pk in e
      ensures pk in keys
    {
      assert pk in KeysOf(rows);
      var i :| 0 <= i < |rows| && rows[i].key == pk;
      assert keys[i] == pk;
    }
  }

  /** Each rendered row starts with its record's key. */
  lemma RenderedKeys(rows: seq<Record>, r: Rendered)
    requires Renders(rows, r)
    ensures forall i :: 0 <= i < |rows| ==>
              && |r.data[i]| == |r.header| >= 1
              && r.data[i][0] == rows[i].key
              && KeyColumn(r)[i] == rows[i].key
  {
    forall i | 0 <= i < |rows|
      ensures |r.data[i]| == |r.header| >= 1 && r.data[i][0] == rows[i].key
    {
      assert r.data[i] == Project(r.header, rows[i]);
    }
  }

  /** Only array and object fields register a deferred call. */
  lemma FirstJobNested(e: map<string, Json>, jobs: seq<Job>)
    requires Registers(e, jobs)
    ensures |jobs| > 0 ==> IsNested(Source(e, jobs[0]))
  {
  }

  /** An input whose values have no array or object field renders as a single
      table: nothing is deferred. */
  lemma FlatInputOneTable(e: map<string, Json>, out: seq<Rendered>, gen: Json)
    requires ValuesUnder(e, gen) && Flattens(e, out, gen)
    requires forall pk, f :: pk in e && e[pk].Obj? && f in e[pk].fields ==> !IsNested(e[pk].fields[f])
    ensures |out| == 1
  {
    var jobs, parts :| DefersTo(e, gen, jobs, parts, out[1..]);
    FirstJobNested(e, jobs);
    assert jobs == [];
    assert out == [out[0]] + out[1..];
  }

  /** The nested table of an object field: one row, keyed `<pk>|<field>`, with
      the object's own fields as cells. */
  lemma NestedObjectOneRow(pk: string, field: string, v: Json, out: seq<Rendered>, gen: Json)
    requires v.Obj?
    requires ValuesUnder(map[MemberKey(pk, field) := v], gen)
    requires Flattens(map[MemberKey(pk, field) := v], out, gen)
    ensures |out[0].data| == 1
    ensures out[0].data[0][0] == MemberKey(pk, field)
    ensures out[0].data[0] == Project(out[0].header, RowOf(MemberKey(pk, field), v))
    ensures IsHeader(RowOf(MemberKey(pk, field), v), out[0].header)
  {
    var e := map[MemberKey(pk, field) := v];
    ParentTable(e, out, gen);
    var rows: seq<Record> :| RowsOf(e, rows) && Ascending(rows) && Renders(rows, out[0]);
    assert rows[0].key in e;
  }

  /** The index keys of the first `n` items, in array order. */
  function IndexKeys(n: nat, pk: string, field: string): (keys: seq<string>)
    ensures |keys| == n
  {
    seq(n, i requires 0 <= i < n => IndexKey(i, pk, field))
  }

  /** Up to 1000 items, the index keys ascend in array order. */
  lemma IndexKeysAscending(n: nat, pk: string, field: string)
    requires n <= 1000
    ensures KeyOrder.StrictlyAscending(IndexKeys(n, pk, field))
  {
    var keys := IndexKeys(n, pk, field);
    forall i, j | 0 <= i < j < n
      ensures KeyOrder.Less(keys[i], keys[j])
    {
      IndexKeyOrder(i, j, pk, field);
    }
  }

  /** Listing the keys of an array field's nested input in ascending order
      gives the index keys in array order. */
  lemma SortedArrayKeys(pk: string, field: string, items: seq<Json>, shown: seq<string>)
    requires |items| <= 1000
    requires KeyOrder.StrictlyAscending(shown)
    requires forall x :: x in shown <==> x in ArrayInput(pk, field, items)
    ensures shown == IndexKeys(|items|, pk, field)
  {
    IndexKeysAscending(|items|, pk, field);
    ArrayKeysMembers(pk, field, items);
    KeyOrder.AscendingUnique(shown, IndexKeys(|items|, pk, field));
  }

  /** The keys of an array's nested input are exactly its index keys. */
  lemma ArrayKeysMembers(pk: string, field: string, items: seq<Json>)
    ensures forall x :: x in ArrayInput(pk, field, items) <==> x in IndexKeys(|items|, pk, field)
  {
    ArrayKeysIndexed(pk, field, items);
    IndexKeysPresent(pk, field, items);
  }

  lemma ArrayKeysIndexed(pk: string, field: string, items: seq<Json>)
    ensures forall x :: x in ArrayInput(pk, field, items) ==> x in IndexKeys(|items|, pk, field)
  {
    var expected := IndexKeys(|items|, pk, field);
    ArrayInputKeys(pk, field, items);
    forall x | x in ArrayInput(pk, field, items)
      ensures x in expected
    {
      var j :| 0 <= j < |items| && x == IndexKey(j, pk, field);
      assert expected[j] == x;
    }
  }

  lemma IndexKeysPresent(pk: string, field: string, items: seq<Json>)
    ensures forall x :: x in IndexKeys(|items|, pk, field) ==> x in ArrayInput(pk, field, items)
  {
    var expected := IndexKeys(|items|, pk, field);
    ArrayInputValues(pk, field, items);
    forall x | x in expected
      ensures x in ArrayInput(pk, field, items)
    {
      var j :| 0 <= j < |expected| && expected[j] == x;
      assert x == IndexKey(j, pk, field);
    }
  }

  /** The nested table of an array field of at most 1000 items shows the items
      in array order: row `i` is item `i`, keyed by its zero-padded index. */
  lemma NestedArrayInOrder(pk: string, field: string, items: seq<Json>, out: seq<Rendered>, gen: Json)
    requires |items| <= 1000
    requires ValuesUnder(ArrayInput(pk, field, items), gen)
    requires Flattens(ArrayInput(pk, field, items), out, gen)
    ensures |out[0].data| == |items|
    ensures forall i :: 0 <= i < |items| ==>
              && out[0].data[i][0] == IndexKey(i, pk, field)
              && out[0].data[i] == Project(out[0].header, RowOf(IndexKey(i, pk, field), items[i]))
  {
    var e := ArrayInput(pk, field, items);
    ParentTable(e, out, gen);
    ArrayInputEntries(pk, field, items);
    SortedArrayKeys(pk, field, items, KeyColumn(out[0]));
    ArrayRows(pk, field, items, out[0]);
  }

  /** The rows of a table of an array's nested input whose key column is the
      index keys in array order: row `i` is item `i`. */
  lemma ArrayRows(pk: string, field: string, items: seq<Json>, r: Rendered)
    requires |r.data| == |items|
    requires forall i :: 0 <= i < |r.data| ==>
               && |r.data[i]| >= 1
               && r.data[i][0] in ArrayInput(pk, field, items)
               && r.data[i] == Project(r.header, RowOf(r.data[i][0], ArrayInput(pk, field, items)[r.data[i][0]]))
    requires KeyColumn(r) == IndexKeys(|items|, pk, field)
    ensures forall i :: 0 <= i < |items| ==>
              && r.data[i][0] == IndexKey(i, pk, field)
              && r.data[i] == Project(r.header, RowOf(IndexKey(i, pk, field), items[i]))
  {
    ArrayInputEntries(pk, field, items);
    forall i | 0 <= i < |items|
      ensures r.data[i][0] == IndexKey(i, pk, field)
    {
      assert KeyColumn(r)[i] == IndexKey(i, pk, field);
    }
  }

  // ---------------------------------------------------------------------------
  // The imperative code

  /** The loop that fills the nested input of an array field
      (`for i, mv := range iv`). */
  method IndexItems(pk: string, field: string, items: seq<Json>) returns (data: map<string, Json>)
    ensures data == ArrayInput(pk, field, items)
  {
    data := map[];
    for i := 0 to |items|
      invariant data == ArrayInput(pk, field, items[..i])
    {
      assert items[..i + 1][..i] == items[..i];
      data := data[IndexKey(i, pk, field) := items[i]];
    }
    assert items[..|items|] == items;
  }

  lemma JobKeysAppend(jobs: seq<Job>, more: seq<Job>)
    ensures JobKeys(jobs + more) == JobKeys(jobs) + JobKeys(more)
    ensures |more| == 1 ==> JobKeys(more) == {(more[0].pk, more[0].field)}
  {
    var all := jobs + more;
    forall x | x in JobKeys(all)
      ensures x in JobKeys(jobs) + JobKeys(more)
    {
      var i :| 0 <= i < |all| && x == (all[i].pk, all[i].field);
      if i >= |jobs| {
        assert more[i - |jobs|] == all[i];
      }
    }
    forall x | x in JobKeys(jobs) + JobKeys(more)
      ensures x in JobKeys(all)
    {
      if x in JobKeys(jobs) {
        var i :| 0 <= i < |jobs| && x == (jobs[i].pk, jobs[i].field);
        assert all[i] == jobs[i];
      } else {
        var i :| 0 <= i < |more| && x == (more[i].pk, more[i].field);
        assert all[|jobs| + i] == more[i];
      }
    }
  }

  /** The body of the inner loop for field `k` of row `pk`: its cell, the type
      name unless the value is a string, and the deferred call an array or
      object value registers. */
  method FillField(pk: string, k: string, v: Json) returns (cell: string, job: Option<Job>)
    ensures cell == Cell(v)
    ensures job.Some? <==> IsNested(v)
    ensures job.Some? ==> job.value.pk == pk && job.value.field == k && Deferred(pk, k, v) == Some(job.value.input)
  {
    cell := TypeName(v);
    job := None;
    if v.Arr? {
      var nested := IndexItems(pk, k, v.items);
      job := Some(Job(pk, k, nested));
    } else if v.Obj? {
      var nested := map[MemberKey(pk, k) := v];
      job := Some(Job(pk, k, nested));
    } else if v.Str? {
      cell := v.s;
    }
  }

  /** The body of showData's outer loop for one entry: fill the row's cells
      and register a deferred call for each array or object field. */
  method FillRow(pk: string, val: Json) returns (value: map<string, string>, jobs: seq<Job>)
    ensures value == RowFields(val)
    ensures forall i :: 0 <= i < |jobs| ==> RowJob(pk, val, jobs[i])
    ensures forall i, j :: 0 <= i < j < |jobs| ==> jobs[i].field != jobs[j].field
    ensures val.Obj? ==> forall f :: f in val.fields && IsNested(val.fields[f]) ==> (pk, f) in JobKeys(jobs)
  {
    value := map[];
    jobs := [];
    if val.Obj? {
      var data := val.fields;
      var ks := data.Keys;
      while ks != {}
        invariant ks <= data.Keys
        invariant value == CellsOf(data, data.Keys - ks)
        invariant FieldJobsFor(pk, val, jobs, data.Keys - ks)
      {
        var k :| k in ks;
        var cell, job := FillField(pk, k, data[k]);
        CellsStep(data, data.Keys - ks, k);
        value := value[k := cell];
        FieldStep(pk, val, jobs, data.Keys - ks, k, job);
        if job.Some? {
          jobs := jobs + [job.value];
        }
        assert data.Keys - (ks - {k}) == (data.Keys - ks) + {k};
        ks := ks - {k};
      }
      assert data.Keys - ks == data.Keys;
    }
  }

  /** The cells of the fields in `done`. */
  function CellsOf(data: map<string, Json>, done: set<string>): map<string, string>
    requires done <= data.Keys
  {
    map k | k in done :: Cell(data[k])
  }

  lemma CellsStep(data: map<string, Json>, done: set<string>, k: string)
    requires done <= data.Keys && k in data
    ensures CellsOf(data, done + {k}) == CellsOf(data, done)[k := Cell(data[k])]
  {
  }

  /** The calls registered for the fields in `done` of the row made from `val`:
      each nested one exactly once. */
  ghost predicate FieldJobsFor(pk: string, val: Json, jobs: seq<Job>, done: set<string>)
    requires val.Obj?
  {
    && (forall i :: 0 <= i < |jobs| ==> RowJob(pk, val, jobs[i]) && jobs[i].field in done)
    && (forall i, j :: 0 <= i < j < |jobs| ==> jobs[i].field != jobs[j].field)
    && (forall f :: f in done && f in val.fields && IsNested(val.fields[f]) ==> (pk, f) in JobKeys(jobs))
  }

  lemma FieldStep(pk: string, val: Json, jobs: seq<Job>, done: set<string>, k: string, job: Option<Job>)
    requires val.Obj? && FieldJobsFor(pk, val, jobs, done) && k in val.fields && k !in done
    requires job.Some? <==> IsNested(val.fields[k])
    requires job.Some? ==> job.value.pk == pk && job.value.field == k && Deferred(pk, k, val.fields[k]) == Some(job.value.input)
    ensures FieldJobsFor(pk, val, if job.Some? then jobs + [job.value] else jobs, done + {k})
  {
    if job.Some? {
      FieldStepNested(pk, val, jobs, done, job.value);
    }
  }

  lemma FieldStepNested(pk: string, val: Json, jobs: seq<Job>, done: set<string>, job: Job)
    requires val.Obj? && FieldJobsFor(pk, val, jobs, done) && job.field !in done
    requires RowJob(pk, val, job)
    ensures FieldJobsFor(pk, val, jobs + [job], done + {job.field})
  {
    var all := jobs + [job];
    JobKeysAppend(jobs, [job]);
    assert JobKeys(all) == JobKeys(jobs) + {(pk, job.field)};
    forall i | 0 <= i < |all|
      ensures RowJob(pk, val, all[i]) && all[i].field in done + {job.field}
    {
      if i < |jobs| {
        assert all[i] == jobs[i];
      }
    }
    forall i, j | 0 <= i < j < |all|
      ensures all[i].field != all[j].field
    {
      assert all[i] == jobs[i];
      if j < |jobs| {
        assert all[j] == jobs[j];
      }
    }
  }

  /** showData: render the table of `d`, then run the deferred calls, the one
      registered last first. `gen` is the value `d` was carved out of; it only
      bounds the recursion. */
  method ShowData(d: map<string, Json>, ghost gen: Json) returns (out: seq<Rendered>)
    requires ValuesUnder(d, gen)
    ensures Flattens(d, out, gen)
    decreases gen, 1
  {
    var table := new Table();
    var jobs := FillTable(d, table);
    ghost var unsorted := table.rows;
    var head := table.RenderTable();
    RowsOfPermutation(d, unsorted, table.rows);
    assert RowsOf(d, table.rows) && Ascending(table.rows) && Renders(table.rows, head);
    var rest := RunDeferred(d, gen, jobs);
    out := [head] + rest;
    assert out[1..] == rest;
  }

  /** showData's loop over the input map: one row per entry, appended to the
      table, and the deferred calls in the order they are registered. */
  method FillTable(d: map<string, Json>, table: Table) returns (jobs: seq<Job>)
    requires table.rows == []
    modifies table
    ensures RowsOf(d, table.rows)
    ensures Registers(d, jobs)
  {
    jobs := [];
    var pks := d.Keys;
    while pks != {}
      invariant pks <= d.Keys
      invariant RowsFor(d, table.rows, d.Keys - pks)
      invariant JobsFor(d, jobs, d.Keys - pks)
    {
      var pk :| pk in pks;
      var value, rowJobs := FillRow(pk, d[pk]);
      RowsStep(d, table.rows, d.Keys - pks, pk);
      table.rows := table.rows + [Record(pk, value)];
      JobsStep(d, jobs, d.Keys - pks, pk, rowJobs);
      jobs := jobs + rowJobs;
      assert d.Keys - (pks - {pk}) == (d.Keys - pks) + {pk};
      pks := pks - {pk};
    }
    assert d.Keys - pks == d.Keys;
  }

  lemma RowsStep(e: map<string, Json>, rows: seq<Record>, done: set<string>, pk: string)
    requires RowsFor(e, rows, done) && pk in e && pk !in done
    ensures RowsFor(e, rows + [RowOf(pk, e[pk])], done + {pk})
  {
    var r := RowOf(pk, e[pk]);
    KeysOfAppend(rows, r);
    var rs := rows + [r];
    forall i | 0 <= i < |rows|
      ensures rs[i] == rows[i] && rows[i].key != pk
    {
      assert rows[i].key in KeysOf(rows);
    }
  }

  lemma JobsStep(e: map<string, Json>, jobs: seq<Job>, done: set<string>, pk: string, more: seq<Job>)
    requires JobsFor(e, jobs, done) && pk in e && pk !in done
    requires forall i :: 0 <= i < |more| ==> RowJob(pk, e[pk], more[i])
    requires forall i, j :: 0 <= i < j < |more| ==> more[i].field != more[j].field
    requires e[pk].Obj? ==> forall f :: f in e[pk].fields && IsNested(e[pk].fields[f]) ==> (pk, f) in JobKeys(more)
    ensures JobsFor(e, jobs + more, done + {pk})
  {
    JobKeysAppend(jobs, more);
    var all := jobs + more;
    forall i | 0 <= i < |all|
      ensures IsJobOf(e, all[i]) && all[i].pk in done + {pk}
    {
      if i >= |jobs| {
        assert all[i] == more[i - |jobs|];
      }
    }
    forall i, j | 0 <= i < j < |all|
      ensures (all[i].pk, all[i].field) != (all[j].pk, all[j].field)
    {
      if i < |jobs| && j >= |jobs| {
        assert all[j] == more[j - |jobs|];
      } else if i >= |jobs| {
        assert all[i] == more[i - |jobs|] && all[j] == more[j - |jobs|];
      }
    }
  }

  /** The deferred calls, run when showData returns: last registered first. */
  method RunDeferred(d: map<string, Json>, ghost gen: Json, jobs: seq<Job>) returns (rest: seq<Rendered>)
    requires ValuesUnder(d, gen) && Registers(d, jobs)
    ensures exists parts :: DefersTo(d, gen, jobs, parts, rest)
    decreases gen, 0
  {
    rest := [];
    ghost var parts: seq<seq<Rendered>> := seq(|jobs|, _ => []);
    var i := |jobs|;
    while i > 0
      invariant 0 <= i <= |jobs| == |parts|
      invariant rest == ConcatReversed(parts[i..])
      invariant forall m :: i <= m < |jobs| ==>
                  ValuesUnder(jobs[m].input, Source(d, jobs[m])) && Flattens(jobs[m].input, parts[m], Source(d, jobs[m]))
    {
      i := i - 1;
      DeferredUnder(jobs[i].pk, jobs[i].field, Source(d, jobs[i]));
      var sub := ShowData(jobs[i].input, Source(d, jobs[i]));
      parts := parts[i := sub];
      ConcatReversedCons(parts, i);
      rest := rest + sub;
    }
    assert parts[0..] == parts;
    assert DefersTo(d, gen, jobs, parts, rest);
  }

  lemma ConcatReversedCons(parts: seq<seq<Rendered>>, i: nat)
    requires i < |parts|
    ensures ConcatReversed(parts[i..]) == ConcatReversed(parts[i + 1..]) + parts[i]
  {
    assert parts[i..][1..] == parts[i + 1..];
  }
}
