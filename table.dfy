/** A table of records and its rendering: the rows are sorted by key in place
    through `sort.Interface` (`Len`, `Swap`, `Less`), then turned into a header
    and one projected row per record. The drawing itself belongs to the
    table-writer library and is not modelled; rendering stops at header + rows. */
module TableRender {
  import KeyOrder

  /** The first header cell, which also marks the column holding the row key. */
  const PrimaryKey := "primary key"

  /** One row to show: its primary key and its cells by column name. */
  datatype Record = Record(key: string, value: map<string, string>)

  /** What is handed to the table writer. */
  datatype Rendered = Rendered(header: seq<string>, data: seq<seq<string>>)

  /** Each row is not ordered after any later row. */
  ghost predicate Ordered(rows: seq<Record>)
  {
    forall i, j :: 0 <= i < j < |rows| ==> !KeyOrder.Less(rows[j].key, rows[i].key)
  }

  /** Each row is ordered strictly before every later row. */
  ghost predicate Ascending(rows: seq<Record>)
  {
    forall i, j :: 0 <= i < j < |rows| ==> KeyOrder.Less(rows[i].key, rows[j].key)
  }

  ghost predicate DistinctKeys(rows: seq<Record>)
  {
    forall i, j :: 0 <= i < j < |rows| ==> rows[i].key != rows[j].key
  }

  ghost predicate NoDuplicates(s: seq<string>)
  {
    forall i, j :: 0 <= i < j < |s| ==> s[i] != s[j]
  }

  /** Reading a Go map yields the zero value "" for a missing entry. */
  function Lookup(value: map<string, string>, k: string): string
  {
    if k in value then value[k] else ""
  }

  /** The cell a row shows under column `k`. */
  function Column(k: string, row: Record): string
  {
    if k == PrimaryKey then row.key else Lookup(row.value, k)
  }

  /** A row projected onto a header. */
  function Project(header: seq<string>, row: Record): seq<string>
  {
    seq(|header|, m requires 0 <= m < |header| => Column(header[m], row))
  }

  /** The header made from the first row: "primary key", then each of that
      row's field names once, in whatever order the map yields them. */
  ghost predicate IsHeader(first: Record, header: seq<string>)
  {
    && |header| >= 1
    && header[0] == PrimaryKey
    && NoDuplicates(header[1..])
    && (forall k :: k in header[1..] <==> k in first.value)
  }

  /** `r` is what renderTable hands to the writer for the (already sorted) rows. */
  ghost predicate Renders(rows: seq<Record>, r: Rendered)
  {
    && (rows == [] ==> r.header == [])
    && (rows != [] ==> IsHeader(rows[0], r.header))
    && |r.data| == |rows|
    && forall i :: 0 <= i < |rows| ==> r.data[i] == Project(r.header, rows[i])
  }

  lemma OrderedDistinctIsAscending(rows: seq<Record>)
    requires Ordered(rows) && DistinctKeys(rows)
    ensures Ascending(rows)
  {
    forall i, j | 0 <= i < j < |rows|
      ensures KeyOrder.Less(rows[i].key, rows[j].key)
    {
      KeyOrder.Total(rows[i].key, rows[j].key);
    }
  }

  lemma AscendingIsDistinct(rows: seq<Record>)
    requires Ascending(rows)
    ensures DistinctKeys(rows) && Ordered(rows)
  {
    forall i, j | 0 <= i < j < |rows|
      ensures rows[i].key != rows[j].key && !KeyOrder.Less(rows[j].key, rows[i].key)
    {
      KeyOrder.Irreflexive(rows[i].key);
      KeyOrder.Asymmetric(rows[i].key, rows[j].key);
    }
  }

  /** The loop of renderTable that fills one data row (`for _, k := range keys`). */
  method ProjectRow(header: seq<string>, row: Record) returns (d: seq<string>)
    ensures d == Project(header, row)
    ensures forall m :: 0 <= m < |header| && header[m] == PrimaryKey ==> d[m] == row.key
    ensures forall m :: 0 <= m < |header| && header[m] != PrimaryKey && header[m] !in row.value ==> d[m] == ""
  {
    d := [];
    for n := 0 to |header|
      invariant |d| == n
      invariant forall m :: 0 <= m < n ==> d[m] == Column(header[m], row)
    {
      if header[n] == PrimaryKey {
        d := d + [row.key];
      } else {
        d := d + [Lookup(row.value, header[n])];
      }
    }
  }

  /** `Table` of the source: the rows collected for one table. */
  class Table {
    var rows: seq<Record>

    constructor ()
      ensures rows == []
    {
      rows := [];
    }

    function Len(): (n: nat)
      reads this
      ensures n == |rows|
    {
      |rows|
    }

    /** Rows compare by key only. */
    predicate Less(i: nat, j: nat)
      reads this
      requires i < |rows| && j < |rows|
    {
      KeyOrder.Less(rows[i].key, rows[j].key)
    }

    method Swap(i: nat, j: nat)
      requires i < |rows| && j < |rows|
      modifies this
      ensures rows == old(rows)[i := old(rows)[j]][j := old(rows)[i]]
      ensures multiset(rows) == multiset(old(rows))
      ensures DistinctKeys(old(rows)) ==> DistinctKeys(rows)
    {
      SwapKeeps(rows, i, j);
      rows := rows[i := rows[j]][j := rows[i]];
    }

    /** `sort.Sort(r)`: the library only promises a sorted permutation, which
        this insertion sort over the same `Less` and `Swap` delivers. */
    method Sort()
      modifies this
      ensures multiset(rows) == multiset(old(rows))
      ensures Ordered(rows)
      ensures DistinctKeys(old(rows)) ==> Ascending(rows)
    {
      var i := 1;
      while i < Len()
        invariant |rows| == |old(rows)|
        invariant |rows| == 0 || 1 <= i <= |rows|
        invariant forall p, q :: 0 <= p < q < i && q < |rows| ==> !KeyOrder.Less(rows[q].key, rows[p].key)
        invariant multiset(rows) == multiset(old(rows))
        invariant DistinctKeys(old(rows)) ==> DistinctKeys(rows)
      {
        Insert(i);
        i := i + 1;
      }
      if DistinctKeys(old(rows)) {
        OrderedDistinctIsAscending(rows);
      }
    }

    /** One pass of the insertion sort: row `i` moves down by swaps past the
        rows ordered after it. */
    method Insert(i: nat)
      requires 0 < i < |rows|
      requires forall p, q :: 0 <= p < q < i ==> !KeyOrder.Less(rows[q].key, rows[p].key)
      modifies this
      ensures |rows| == |old(rows)|
      ensures forall p, q :: 0 <= p < q <= i ==> !KeyOrder.Less(rows[q].key, rows[p].key)
      ensures multiset(rows) == multiset(old(rows))
      ensures DistinctKeys(old(rows)) ==> DistinctKeys(rows)
    {
      var j := i;
      while j > 0 && Less(j, j - 1)
        invariant 0 <= j <= i < |rows| == |old(rows)|
        invariant forall p, q :: 0 <= p < q <= i && p != j && q != j ==> !KeyOrder.Less(rows[q].key, rows[p].key)
        invariant forall q :: j < q <= i ==> KeyOrder.Less(rows[j].key, rows[q].key)
        invariant multiset(rows) == multiset(old(rows))
        invariant DistinctKeys(old(rows)) ==> DistinctKeys(rows)
      {
        SinkStep(rows, i, j);
        Swap(j - 1, j);
        j := j - 1;
      }
      InsertionDone(rows, i, j);
    }

    /** renderTable: sort, take the header from the first row, project each row. */
    method RenderTable() returns (r: Rendered)
      modifies this
      ensures multiset(rows) == multiset(old(rows))
      ensures Ordered(rows)
      ensures DistinctKeys(old(rows)) ==> Ascending(rows)
      ensures Renders(rows, r)
    {
      Sort();
      var sorted := rows;
      var keys: seq<string> := [];
      var data: seq<seq<string>> := [];
      var n := 0;
      while n < |sorted|
        invariant rows == sorted
        invariant 0 <= n <= |sorted|
        invariant n == 0 ==> keys == []
        invariant n > 0 ==> IsHeader(sorted[0], keys)
        invariant |data| == n
        invariant forall m :: 0 <= m < n ==> data[m] == Project(keys, sorted[m])
      {
        var val := sorted[n].value;
        if |keys| == 0 {
          keys := [PrimaryKey];
          var fields := val.Keys;
          while fields != {}
            invariant keys != [] && keys[0] == PrimaryKey
            invariant NoDuplicates(keys[1..])
            invariant fields <= val.Keys
            invariant forall k :: k in keys[1..] <==> k in val && k !in fields
          {
            var k :| k in fields;
            assert (keys + [k])[1..] == keys[1..] + [k];
            keys := keys + [k];
            fields := fields - {k};
          }
        }
        var d := ProjectRow(keys, sorted[n]);
        data := data + [d];
        n := n + 1;
      }
      r := Rendered(keys, data);
    }
  }

  /** Exchanging two rows keeps the same rows and keeps their keys distinct. */
  lemma SwapKeeps(rows: seq<Record>, i: nat, j: nat)
    requires i < |rows| && j < |rows|
    ensures multiset(rows[i := rows[j]][j := rows[i]]) == multiset(rows)
    ensures DistinctKeys(rows) ==> DistinctKeys(rows[i := rows[j]][j := rows[i]])
  {
    var s := rows[i := rows[j]][j := rows[i]];
    var from := (p: nat) => if p == i then j else if p == j then i else p;
    forall p | 0 <= p < |s|
      ensures s[p] == rows[from(p)]
    {
    }
  }

  /** Swapping the moving row `j` below a row ordered after it keeps the
      inner loop's invariants, one place further down. */
  lemma SinkStep(rows: seq<Record>, i: nat, j: nat)
    requires 0 < j <= i < |rows|
    requires forall p, q :: 0 <= p < q <= i && p != j && q != j ==> !KeyOrder.Less(rows[q].key, rows[p].key)
    requires forall q :: j < q <= i ==> KeyOrder.Less(rows[j].key, rows[q].key)
    requires KeyOrder.Less(rows[j].key, rows[j - 1].key)
    ensures var s := rows[j - 1 := rows[j]][j := rows[j - 1]];
            && (forall p, q :: 0 <= p < q <= i && p != j - 1 && q != j - 1 ==> !KeyOrder.Less(s[q].key, s[p].key))
            && (forall q :: j - 1 < q <= i ==> KeyOrder.Less(s[j - 1].key, s[q].key))
  {
    var s := rows[j - 1 := rows[j]][j := rows[j - 1]];
    forall p, q | 0 <= p < q <= i && p != j - 1 && q != j - 1
      ensures !KeyOrder.Less(s[q].key, s[p].key)
    {
      if q == j {
        KeyOrder.Asymmetric(rows[j].key, rows[j - 1].key);
        if p < j - 1 {
          assert !KeyOrder.Less(rows[j - 1].key, rows[p].key);
        }
      } else if p == j {
        KeyOrder.Asymmetric(rows[j].key, rows[j - 1].key);
      }
    }
    forall q | j - 1 < q <= i
      ensures KeyOrder.Less(s[j - 1].key, s[q].key)
    {
      if q > j {
        assert KeyOrder.Less(rows[j].key, rows[q].key);
      }
    }
  }

  /** When the inner insertion loop stops, the first `i + 1` rows are ordered. */
  lemma InsertionDone(rows: seq<Record>, i: nat, j: nat)
    requires j <= i < |rows|
    requires forall p, q :: 0 <= p < q <= i && p != j && q != j ==> !KeyOrder.Less(rows[q].key, rows[p].key)
    requires forall q :: j < q <= i ==> KeyOrder.Less(rows[j].key, rows[q].key)
    requires j == 0 || !KeyOrder.Less(rows[j].key, rows[j - 1].key)
    ensures forall p, q :: 0 <= p < q < i + 1 ==> !KeyOrder.Less(rows[q].key, rows[p].key)
  {
    forall p, q | 0 <= p < q < i + 1
      ensures !KeyOrder.Less(rows[q].key, rows[p].key)
    {
      if q == j {
        if p < j - 1 {
          KeyOrder.NotAfterTransitive(rows[p].key, rows[j - 1].key, rows[j].key);
        }
      } else if p == j {
        KeyOrder.Asymmetric(rows[j].key, rows[q].key);
      }
    }
  }
}
