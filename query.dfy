/** findData: find a bucket by name, walk its cursor from the first key not
    before the prefix while the keys still start with the prefix, decode each
    value into a JSON object and show the collected entries. A bucket is its
    key/value pairs in cursor order; a cursor is a position in them, the
    position one past the last pair being the end, where the key is nil. */
module Query {
  import opened Wrappers
  import opened JsonValues
  import opened KeyOrder
  import TableRender
  import Flatten

  /** A stored value as `json.Unmarshal` sees it: a JSON document, or bytes it
      rejects. */
  datatype Stored = Parsed(doc: Json) | Unparsable

  datatype Pair = Pair(key: string, value: Stored)

  datatype Bucket = Bucket(name: string, pairs: seq<Pair>)

  /** The entries `json.Unmarshal(v, &u)` leaves in the fresh map `u`: the
      members of a JSON object; nothing for `null`, for any other JSON value
      (a type error) or for bytes that are not JSON (a syntax error). The error
      is ignored, so every visited key still gets an entry. */
  function DecodeObject(v: Stored): map<string, Json>
  {
    if v.Parsed? && v.doc.Obj? then v.doc.fields else map[]
  }

  /** The keys of a bucket ascend strictly, as the storage engine keeps them. */
  ghost predicate SortedKeys(pairs: seq<Pair>)
  {
    forall i, j :: 0 <= i < j < |pairs| ==> Less(pairs[i].key, pairs[j].key)
  }

  /** `Cursor.Seek(prefix)`: the position of the first key not ordered before
      `prefix`, or the end when there is none. */
  function Seek(pairs: seq<Pair>, prefix: string): (pos: nat)
    ensures pos <= |pairs|
    ensures forall i :: 0 <= i < pos ==> Less(pairs[i].key, prefix)
    ensures pos < |pairs| ==> !Less(pairs[pos].key, prefix)
  {
    if pairs == [] || !Less(pairs[0].key, prefix) then 0
    else 1 + Seek(pairs[1..], prefix)
  }

  /** The key under the cursor; `None` at the end, where Go returns a nil key. */
  function CursorKey(pairs: seq<Pair>, pos: nat): Option<string>
  {
    if pos < |pairs| then Some(pairs[pos].key) else None
  }

  /** A nil key reads as the empty byte slice. */
  function Bytes(k: Option<string>): string
  {
    if k.Some? then k.value else []
  }

  /** `Cursor.Next()`: one step on; at the end the cursor stays at the end. */
  function Next(pairs: seq<Pair>, pos: nat): nat
  {
    if pos < |pairs| then pos + 1 else pos
  }

  /** The loop test as written: `bytes.HasPrefix(pk, prefix)`. */
  predicate GuardAsWritten(pairs: seq<Pair>, prefix: string, pos: nat)
  {
    HasPrefix(Bytes(CursorKey(pairs, pos)), prefix)
  }

  /** The loop test with the end of the cursor checked: `pk != nil && ...`. */
  predicate Guard(pairs: seq<Pair>, prefix: string, pos: nat)
  {
    CursorKey(pairs, pos).Some? && HasPrefix(CursorKey(pairs, pos).value, prefix)
  }

  /** Where the run of keys starting with `prefix` that begins at `from` ends. */
  function RunEnd(pairs: seq<Pair>, prefix: string, from: nat): (e: nat)
    requires from <= |pairs|
    ensures from <= e <= |pairs|
    ensures forall m :: from <= m < e ==> HasPrefix(pairs[m].key, prefix)
    ensures e < |pairs| ==> !HasPrefix(pairs[e].key, prefix)
    decreases |pairs| - from
  {
    if from == |pairs| || !HasPrefix(pairs[from].key, prefix) then from
    else RunEnd(pairs, prefix, from + 1)
  }

  /** The pairs the cursor loop visits: from the seek position to the end of
      the run. */
  function Run(pairs: seq<Pair>, prefix: string): seq<Pair>
  {
    var s := Seek(pairs, prefix);
    pairs[s..RunEnd(pairs, prefix, s)]
  }

  /** The `data` map after `data[string(pk)] = u` for each visited pair in turn. */
  function Collect(ps: seq<Pair>): map<string, Json>
  {
    if ps == [] then map[]
    else
      var n := |ps| - 1;
      Collect(ps[..n])[ps[n].key := Obj(DecodeObject(ps[n].value))]
  }

  /** What findData hands to showData, shown as `out`: the input map is its
      own generator for the flattening. */
  ghost predicate Shows(d: map<string, Json>, out: seq<TableRender.Rendered>)
  {
    Flatten.ValuesUnder(d, Obj(d)) && Flatten.Flattens(d, out, Obj(d))
  }

  // ---------------------------------------------------------------------------
  // Properties

  /** The keys that start with the prefix are exactly the run after the seek
      position: none before it, none after the first key that does not. */
  lemma PrefixRun(pairs: seq<Pair>, prefix: string)
    requires SortedKeys(pairs)
    ensures forall i :: 0 <= i < |pairs| ==>
              (HasPrefix(pairs[i].key, prefix) <==>
               Seek(pairs, prefix) <= i < RunEnd(pairs, prefix, Seek(pairs, prefix)))
  {
    var s := Seek(pairs, prefix);
    var e := RunEnd(pairs, prefix, s);
    forall i | 0 <= i < |pairs|
      ensures HasPrefix(pairs[i].key, prefix) <==> s <= i < e
    {
      if i < s && HasPrefix(pairs[i].key, prefix) {
        PrefixNotBefore(pairs[i].key, prefix);
      }
      if e < i && HasPrefix(pairs[i].key, prefix) {
        if s < e {
          Asymmetric(pairs[s].key, pairs[e].key);
          NotAfterTransitive(prefix, pairs[s].key, pairs[e].key);
        }
        Asymmetric(pairs[e].key, pairs[i].key);
        PrefixInterval(prefix, pairs[e].key, pairs[i].key);
      }
    }
  }

  /** The collected map has one entry per visited key. */
  lemma {:induction false} CollectKeys(ps: seq<Pair>)
    ensures forall k :: k in Collect(ps) <==> exists i :: 0 <= i < |ps| && ps[i].key == k
  {
    if ps != [] {
      var n := |ps| - 1;
      var prev := ps[..n];
      CollectKeys(prev);
      forall k | k in Collect(ps)
        ensures exists i :: 0 <= i < |ps| && ps[i].key == k
      {
        if k != ps[n].key {
          assert k in Collect(prev);
          var i :| 0 <= i < n && prev[i].key == k;
          assert ps[i].key == k;
        }
      }
      forall i | 0 <= i < |ps|
        ensures ps[i].key in Collect(ps)
      {
        if i < n {
          assert prev[i] == ps[i];
        }
      }
    }
  }

  /** With distinct keys, each visited key holds its own decoded value. */
  lemma {:induction false} CollectValues(ps: seq<Pair>)
    requires SortedKeys(ps)
    ensures forall i :: 0 <= i < |ps| ==> ps[i].key in Collect(ps)
    ensures forall i :: 0 <= i < |ps| ==> Collect(ps)[ps[i].key] == Obj(DecodeObject(ps[i].value))
  {
    if ps != [] {
      var n := |ps| - 1;
      var prev := ps[..n];
      CollectValues(prev);
      forall i | 0 <= i < |ps|
        ensures ps[i].key in Collect(ps)
        ensures Collect(ps)[ps[i].key] == Obj(DecodeObject(ps[i].value))
      {
        if i < n {
          assert prev[i] == ps[i];
          Irreflexive(ps[n].key);
        }
      }
    }
  }

  /** Over a bucket's sorted keys, the loop's map holds exactly the keys that
      start with the prefix, each with its decoded value. */
  lemma RunEntries(pairs: seq<Pair>, prefix: string)
    requires SortedKeys(pairs)
    ensures forall k :: k in Collect(Run(pairs, prefix)) <==>
              exists i :: 0 <= i < |pairs| && pairs[i].key == k && HasPrefix(k, prefix)
    ensures forall i :: 0 <= i < |pairs| && HasPrefix(pairs[i].key, prefix) ==>
              Collect(Run(pairs, prefix))[pairs[i].key] == Obj(DecodeObject(pairs[i].value))
  {
    var s := Seek(pairs, prefix);
    PrefixRun(pairs, prefix);
    RunSorted(pairs, prefix);
    SliceEntries(pairs, prefix, s, RunEnd(pairs, prefix, s));
  }

  /** The entries collected from the slice that holds exactly the keys with
      the prefix. */
  lemma SliceEntries(pairs: seq<Pair>, prefix: string, s: nat, e: nat)
    requires s <= e <= |pairs|
    requires SortedKeys(pairs[s..e])
    requires forall i :: 0 <= i < |pairs| ==> (HasPrefix(pairs[i].key, prefix) <==> s <= i < e)
    ensures forall k :: k in Collect(pairs[s..e]) <==>
              exists i :: 0 <= i < |pairs| && pairs[i].key == k && HasPrefix(k, prefix)
    ensures forall i :: 0 <= i < |pairs| && HasPrefix(pairs[i].key, prefix) ==>
              Collect(pairs[s..e])[pairs[i].key] == Obj(DecodeObject(pairs[i].value))
  {
    SliceKeys(pairs, prefix, s, e);
    SliceValues(pairs, prefix, s, e);
  }

  lemma SliceKeys(pairs: seq<Pair>, prefix: string, s: nat, e: nat)
    requires s <= e <= |pairs|
    requires forall i :: 0 <= i < |pairs| ==> (HasPrefix(pairs[i].key, prefix) <==> s <= i < e)
    ensures forall k :: k in Collect(pairs[s..e]) <==>
              exists i :: 0 <= i < |pairs| && pairs[i].key == k && HasPrefix(k, prefix)
  {
    var run := pairs[s..e];
    CollectKeys(run);
    forall k | k in Collect(run)
      ensures exists i :: 0 <= i < |pairs| && pairs[i].key == k && HasPrefix(k, prefix)
    {
      var j :| 0 <= j < |run| && run[j].key == k;
      assert pairs[s + j] == run[j];
    }
    forall i | 0 <= i < |pairs| && HasPrefix(pairs[i].key, prefix)
      ensures pairs[i].key in Collect(run)
    {
      assert run[i - s] == pairs[i];
    }
  }

  lemma SliceValues(pairs: seq<Pair>, prefix: string, s: nat, e: nat)
    requires s <= e <= |pairs|
    requires SortedKeys(pairs[s..e])
    requires forall i :: 0 <= i < |pairs| ==> (HasPrefix(pairs[i].key, prefix) <==> s <= i < e)
    ensures forall i :: 0 <= i < |pairs| && HasPrefix(pairs[i].key, prefix) ==>
              pairs[i].key in Collect(pairs[s..e]) && Collect(pairs[s..e])[pairs[i].key] == Obj(DecodeObject(pairs[i].value))
  {
    var run := pairs[s..e];
    CollectValues(run);
    forall i | 0 <= i < |pairs| && HasPrefix(pairs[i].key, prefix)
      ensures pairs[i].key in Collect(run) && Collect(run)[pairs[i].key] == Obj(DecodeObject(pairs[i].value))
    {
      assert run[i - s] == pairs[i];
    }
  }

  /** The visited pairs keep the bucket's ascending order. */
  lemma RunSorted(pairs: seq<Pair>, prefix: string)
    requires SortedKeys(pairs)
    ensures SortedKeys(Run(pairs, prefix))
  {
    var s := Seek(pairs, prefix);
    var run := Run(pairs, prefix);
    forall i, j | 0 <= i < j < |run|
      ensures Less(run[i].key, run[j].key)
    {
      assert run[i] == pairs[s + i] && run[j] == pairs[s + j];
    }
  }

  /** The visited keys, in cursor order. */
  function KeysOfRun(run: seq<Pair>): (keys: seq<string>)
    ensures |keys| == |run|
  {
    seq(|run|, i requires 0 <= i < |run| => run[i].key)
  }

  /** The collected map has exactly the visited keys. */
  lemma CollectDomain(run: seq<Pair>)
    ensures forall x :: x in Collect(run) <==> x in KeysOfRun(run)
  {
    CollectKeys(run);
    var keys := KeysOfRun(run);
    forall x | x in keys
      ensures x in Collect(run)
    {
      var i :| 0 <= i < |run| && keys[i] == x;
      assert run[i].key == x;
    }
    forall x | x in Collect(run)
      ensures x in keys
    {
      var i :| 0 <= i < |run| && run[i].key == x;
      assert keys[i] == x;
    }
  }

  /** The key column of a table made from the collected map, sorted, is the
      sequence of visited keys. */
  lemma KeyColumnIsRun(run: seq<Pair>, r: TableRender.Rendered)
    requires SortedKeys(run)
    requires StrictlyAscending(Flatten.KeyColumn(r))
    requires forall x :: x in Flatten.KeyColumn(r) <==> x in Collect(run)
    ensures |r.data| == |run|
    ensures forall i :: 0 <= i < |run| ==> Flatten.KeyColumn(r)[i] == run[i].key
  {
    CollectDomain(run);
    var keys := KeysOfRun(run);
    assert StrictlyAscending(keys);
    AscendingUnique(Flatten.KeyColumn(r), keys);
  }

  /** The table of a query shows the visited pairs in cursor order: since the
      keys ascend already, sorting the rows gives back the run. */
  lemma QueryTable(pairs: seq<Pair>, prefix: string, out: seq<TableRender.Rendered>)
    requires SortedKeys(pairs)
    requires Shows(Collect(Run(pairs, prefix)), out)
    ensures |out[0].data| == |Run(pairs, prefix)|
    ensures forall i :: 0 <= i < |Run(pairs, prefix)| ==>
              var p := Run(pairs, prefix)[i];
              && out[0].data[i][0] == p.key
              && out[0].data[i] == TableRender.Project(out[0].header, Flatten.RowOf(p.key, Obj(DecodeObject(p.value))))
  {
    RunSorted(pairs, prefix);
    TableOfRun(Run(pairs, prefix), out);
  }

  /** The table made from the entries collected from ascending pairs lists
      those pairs in order. */
  lemma TableOfRun(run: seq<Pair>, out: seq<TableRender.Rendered>)
    requires SortedKeys(run)
    requires Shows(Collect(run), out)
    ensures |out[0].data| == |run|
    ensures forall i :: 0 <= i < |run| ==>
              && out[0].data[i][0] == run[i].key
              && out[0].data[i] == TableRender.Project(out[0].header, Flatten.RowOf(run[i].key, Obj(DecodeObject(run[i].value))))
  {
    var d := Collect(run);
    Flatten.ParentTable(d, out, Obj(d));
    KeyColumnIsRun(run, out[0]);
    CollectValues(run);
    forall i | 0 <= i < |run|
      ensures out[0].data[i][0] == run[i].key
      ensures out[0].data[i] == TableRender.Project(out[0].header, Flatten.RowOf(run[i].key, Obj(DecodeObject(run[i].value))))
    {
      assert Flatten.KeyColumn(out[0])[i] == run[i].key;
      assert d[run[i].key] == Obj(DecodeObject(run[i].value));
    }
  }

  // ---------------------------------------------------------------------------
  // The loops

  /** One more visited pair adds its entry. */
  lemma CollectSnoc(pairs: seq<Pair>, s: nat, pos: nat)
    requires s <= pos < |pairs|
    ensures Collect(pairs[s..pos + 1]) == Collect(pairs[s..pos])[pairs[pos].key := Obj(DecodeObject(pairs[pos].value))]
  {
    assert pairs[s..pos + 1][..pos - s] == pairs[s..pos];
  }

  /** The cursor loop as written. Its test never looks for the end of the
      cursor; only a non-empty prefix stops it there. */
  method ScanAsWritten(pairs: seq<Pair>, prefix: string) returns (data: map<string, Json>)
    requires prefix != []
    ensures data == Collect(Run(pairs, prefix))
  {
    var s := Seek(pairs, prefix);
    var pos := s;
    data := map[];
    while GuardAsWritten(pairs, prefix, pos)
      invariant s <= pos <= |pairs|
      invariant RunEnd(pairs, prefix, pos) == RunEnd(pairs, prefix, s)
      invariant data == Collect(pairs[s..pos])
      decreases |pairs| - pos
    {
      CollectSnoc(pairs, s, pos);
      data := data[pairs[pos].key := Obj(DecodeObject(pairs[pos].value))];
      pos := Next(pairs, pos);
    }
  }

  /** The cursor loop with the end of the cursor checked, for every prefix. */
  method Scan(pairs: seq<Pair>, prefix: string) returns (data: map<string, Json>)
    ensures data == Collect(Run(pairs, prefix))
    ensures SortedKeys(pairs) ==> forall k :: k in data <==>
              exists i :: 0 <= i < |pairs| && pairs[i].key == k && HasPrefix(k, prefix)
    ensures SortedKeys(pairs) ==> forall i :: 0 <= i < |pairs| && HasPrefix(pairs[i].key, prefix) ==>
              data[pairs[i].key] == Obj(DecodeObject(pairs[i].value))
  {
    var s := Seek(pairs, prefix);
    var pos := s;
    data := map[];
    while Guard(pairs, prefix, pos)
      invariant s <= pos <= |pairs|
      invariant RunEnd(pairs, prefix, pos) == RunEnd(pairs, prefix, s)
      invariant data == Collect(pairs[s..pos])
      decreases |pairs| - pos
    {
      CollectSnoc(pairs, s, pos);
      data := data[pairs[pos].key := Obj(DecodeObject(pairs[pos].value))];
      pos := Next(pairs, pos);
    }
    if SortedKeys(pairs) {
      RunEntries(pairs, prefix);
    }
  }

  /** The position of the as-written loop after at most `n` more iterations
      from `pos`. */
  function IterateAsWritten(pairs: seq<Pair>, prefix: string, pos: nat, n: nat): nat
    decreases n
  {
    if n == 0 || !GuardAsWritten(pairs, prefix, pos) then pos
    else IterateAsWritten(pairs, prefix, Next(pairs, pos), n - 1)
  }

  /** With the empty prefix the as-written loop never stops: it walks to the
      end of the cursor, where the nil key still has the empty prefix and
      `Next` stays put, so after any number of iterations the test holds. */
  lemma {:induction false} EmptyPrefixNeverStops(pairs: seq<Pair>, pos: nat, n: nat)
    requires pos <= |pairs|
    ensures IterateAsWritten(pairs, [], pos, n) == if pos + n <= |pairs| then pos + n else |pairs|
    ensures GuardAsWritten(pairs, [], IterateAsWritten(pairs, [], pos, n))
    decreases n
  {
    if n > 0 {
      EmptyPrefixNeverStops(pairs, Next(pairs, pos), n - 1);
    }
  }

  /** tx.ForEach over the buckets, keeping the last one whose name matches. */
  method LookupBucket(store: seq<Bucket>, name: string) returns (found: Option<Bucket>)
    ensures found.None? <==> forall i :: 0 <= i < |store| ==> store[i].name != name
    ensures found.Some? ==>
              exists i :: (&& 0 <= i < |store| && store[i] == found.value && store[i].name == name
                           && forall j :: i < j < |store| ==> store[j].name != name)
  {
    found := None;
    ghost var at := 0;
    for i := 0 to |store|
      invariant found.None? <==> forall j :: 0 <= j < i ==> store[j].name != name
      invariant found.Some? ==> at < i && store[at] == found.value && store[at].name == name
                                && forall j :: at < j < i ==> store[j].name != name
    {
      if store[i].name == name {
        found := Some(store[i]);
        at := i;
      }
    }
  }

  /** findData: "bucket not found" when no bucket has the name; otherwise the
      flattened tables of the entries whose keys start with the prefix. */
  method FindData(store: seq<Bucket>, name: string, prefix: string) returns (r: Result<seq<TableRender.Rendered>>)
    ensures r.Err? <==> forall i :: 0 <= i < |store| ==> store[i].name != name
    ensures r.Err? ==> r.message == "bucket not found"
    ensures r.Ok? ==>
              exists i :: (&& 0 <= i < |store| && store[i].name == name
                           && (forall j :: i < j < |store| ==> store[j].name != name)
                           && Shows(Collect(Run(store[i].pairs, prefix)), r.value))
  {
    var found := LookupBucket(store, name);
    if found.None? {
      return Err("bucket not found");
    }
    var data := Scan(found.value.pairs, prefix);
    var out := Flatten.ShowData(data, Obj(data));
    r := Ok(out);
  }
}
