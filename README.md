# BoltDB browser core, modelled in Dafny

`main.go` is an interactive, read-only browser for a BoltDB file. It reads one
command per line. It can list the buckets, select a bucket, or query a bucket
for the keys that start with a prefix. A query decodes each stored value as a
JSON object and prints it as a table with one row per key. Array and object
fields are printed as further tables after the parent table.

The model covers the sequential logic of that program:

- `key_order.dfy` (`KeyOrder`): Go's byte-wise string order, which both the
  row sort (`Less`) and the cursor use, and `bytes.HasPrefix`. It proves the
  order is a strict total order. It also proves that the keys with a given
  prefix form an interval of that order.
- `json_values.dfy` (`JsonValues`): the values `json.Unmarshal` produces, and
  the type names `reflect.TypeOf` prints for them.
- `key_format.dfy` (`KeyFormat`): the keys made up for nested tables.
  `%03d-<pk>|<field>` is used for array items and `<pk>|<field>` for object
  members. Up to 1000 items the zero-padded index sorts in array order. Item
  1000 sorts before item 999.
- `table.dfy` (`TableRender`): the `Table` class with its `rows` slice. It
  models `Len`, `Swap` and `Less`, the in-place sort, and `renderTable` up to
  the header and data rows handed to the table writer. The header is
  `primary key` followed by the first row's field names. Every row is
  projected onto that header: a missing field gives `""` and an extra field is
  dropped.
- `flatten.dfy` (`Flatten`): `showData`.
  - Each entry of the input becomes one row.
  - A string field shows the string itself. Any other field shows its type
    name.
  - Each array or object field registers a deferred `showData` on a new input.
  - The deferred calls run after the parent table is rendered, the one
    registered last first.
  - `Flattens` specifies the whole output recursively. `ShowData` is proved
    against it.
- `query.dfy` (`Query`): `findData`.
  - It finds the bucket by name. It seeks the cursor to the prefix and
    collects pairs while the key has the prefix.
  - A bucket is its pairs in ascending key order, and a cursor is a position
    in them. The position one past the last pair is the end, where Go
    returns a nil key.
- `commands.dfy` (`Commands`): the handling of one input line.
  - The line is trimmed, then classified by the anchored patterns in the
    source's order.
  - The `Session` class holds the selected bucket (the global `bucket`).
    Its `Step` method turns a line into a reply.

Go map iteration order is not specified. Wherever the source ranges over a
map, the model picks an arbitrary element with `:|`. The contracts hold for
every such order.

Two details of `main.go` shape the model:

- Deferred tables come out last-registered first, because Go runs deferred
  calls in LIFO order.
- The command `bucket=<name>` on its own is commented out (main.go:130-133),
  so it gets "Command not found".

## Model

| member | source | states |
|---|---|---|
| KeyOrder.Irreflexive | main.go:79 | no key is ordered before itself |
| KeyOrder.Asymmetric | main.go:79 | two keys are never each ordered before the other |
| KeyOrder.Transitive | main.go:79 | the key order is transitive |
| KeyOrder.Total | main.go:79 | of two different keys, one is ordered before the other |
| KeyOrder.PrefixNotBefore | main.go:179 | a key that starts with the prefix is not ordered before the prefix, so seeking to the prefix skips none of them |
| KeyOrder.PrefixInterval | main.go:179 | a key ordered between two keys that both start with the prefix also starts with it |
| KeyOrder.AscendingUnique | main.go:36 | two strictly ascending key sequences with the same elements are equal: a sorted listing of a key set is unique |
| JsonValues.TypeName | main.go:202 | the printed type name is never empty, and it is "string" exactly for strings |
| KeyFormat.Pad3Digits | main.go:207 | below 1000, `%03d` is exactly the three decimal digits, most significant first |
| KeyFormat.Pad3Injective | main.go:207 | different indexes give different `%03d` texts |
| KeyFormat.IndexKeyInjective | main.go:207 | different items of one array field get different keys |
| KeyFormat.IndexKeyOrder | main.go:207 | below 1000, a lower index gives a key ordered strictly before a higher one |
| KeyFormat.IndexKeyOrderBreaksAt1000 | main.go:207 | the key of item 1000 is ordered before the key of item 999 |
| TableRender.Table.constructor | main.go:192 | a new table has no rows |
| TableRender.Table.Len | main.go:77 | the length is the number of rows |
| TableRender.Table.Swap | main.go:78 | exactly rows i and j are exchanged, and the rows stay the same multiset with keys as distinct as before |
| TableRender.SwapKeeps | main.go:78 | an exchange keeps the multiset of rows and keeps distinct keys distinct |
| TableRender.Table.Insert | main.go:77-79 | one insertion pass extends the ordered prefix by one row, keeps the multiset of rows and keeps keys distinct |
| TableRender.Table.Sort | main.go:36 | the rows end up ordered by key and are a permutation of the old rows; distinct keys end up strictly ascending |
| TableRender.OrderedDistinctIsAscending | main.go:36 | rows ordered by key with distinct keys ascend strictly |
| TableRender.AscendingIsDistinct | main.go:36 | strictly ascending rows have distinct keys and are ordered |
| TableRender.ProjectRow | main.go:60-67 | a row's cells follow the header: its key under `primary key`, "" under a field it lacks |
| TableRender.Table.RenderTable | main.go:34-69 | the rows are sorted in place as a permutation; no rows give no header; otherwise the header is `primary key` then each field of the first sorted row once; every data row is its row projected onto that header |
| Flatten.ArrayInputEntries | main.go:203-208 | the nested input of an array has one entry per item, keyed by the item's index key, holding that item, and nothing else |
| Flatten.DeferredUnder | main.go:203-214 | every value of a nested input is the field value itself or sits directly inside it, so the recursion descends |
| Flatten.IndexItems | main.go:205-208 | the loop over the items builds exactly the nested input of the array |
| Flatten.FillField | main.go:201-218 | a field's cell is the string itself or else its type name; a deferred call is registered exactly for array and object fields, with the nested input they call for |
| Flatten.FillRow | main.go:196-220 | a row's cells are one per field of an object value and none otherwise; each nested field registers exactly one call |
| Flatten.FillTable | main.go:194-221 | one row per input entry with distinct keys; the registered calls cover each nested field of each row exactly once |
| Flatten.RowsOfPermutation | main.go:36 | sorting the filled rows keeps exactly one row per input entry |
| Flatten.ShowData | main.go:190-224 | the output is the parent table of the sorted rows, then the outputs of the deferred calls, each flattened in turn, last registered first |
| Flatten.RunDeferred | main.go:209-214 | running the registered calls in reverse gives their outputs, last registered first |
| Flatten.ConcatReversedSnoc | main.go:209-214 | the output of the call registered last comes before all earlier ones |
| Flatten.ConcatReversedLength | main.go:209-214 | the deferred part of the output has as many tables as the jobs' outputs together |
| Flatten.ParentTable | main.go:192-223 | the parent table comes first; it has one data row per input entry in strictly ascending key order; each row starts with its key and shows that entry's cells under the header; no entry gives no header |
| Flatten.TableOfRows | main.go:192-223 | the same facts, from sorted rows that hold one row per entry |
| Flatten.RenderedKeys | main.go:60-67 | each rendered row starts with its record's key |
| Flatten.FlatInputOneTable | main.go:200-220 | an input with no array or object field renders as a single table |
| Flatten.NestedObjectOneRow | main.go:210-214 | the nested table of an object field has one row, keyed by the parent key and the field name, showing the object's own fields |
| Flatten.IndexKeysAscending | main.go:207 | up to 1000 items the index keys ascend in array order |
| Flatten.SortedArrayKeys | main.go:203-208 | the ascending listing of an array's nested keys is the index keys in array order |
| Flatten.NestedArrayInOrder | main.go:203-209 | the nested table of an array of at most 1000 items shows item i as row i, keyed by its index key |
| Query.Seek | main.go:179 | the seek position is the first key not ordered before the prefix, or the end |
| Query.RunEnd | main.go:179-183 | the run from the seek position ends at the first key without the prefix, or at the end |
| Query.PrefixRun | main.go:179 | over ascending keys, a key starts with the prefix exactly when it lies in the run after the seek position |
| Query.CollectKeys | main.go:180-182 | the collected map has an entry for each visited key and no others |
| Query.CollectValues | main.go:180-182 | each visited key holds its own decoded value, the empty object when decoding fails |
| Query.RunEntries | main.go:175-183 | the collected map holds exactly the bucket's keys that start with the prefix, each with its decoded value |
| Query.SliceEntries | main.go:175-183 | the same, for any slice that holds exactly the keys with the prefix |
| Query.RunSorted | main.go:179-183 | the visited pairs keep ascending key order |
| Query.KeyColumnIsRun | main.go:179-185 | the key column of the sorted table of the collected entries is the visited keys in order |
| Query.QueryTable | main.go:179-185 | the query's table lists the visited pairs in cursor order, each with its decoded cells |
| Query.TableOfRun | main.go:179-185 | the same, for any ascending run of pairs |
| Query.CollectSnoc | main.go:180-182 | visiting one more pair adds its entry and changes nothing else |
| Query.ScanAsWritten | main.go:175-183 | with a non-empty prefix, the loop as written stops and collects exactly the run |
| Query.EmptyPrefixNeverStops | main.go:179 | with the empty prefix, the loop as written is still running after any number of iterations, parked at the end |
| Query.Scan | main.go:175-183 | the loop with the end checked stops for every prefix and collects exactly the keys with the prefix, each with its decoded value |
| Query.LookupBucket | main.go:164-169 | no bucket is found exactly when no name matches; otherwise the last bucket with the name is found |
| Query.FindData | main.go:161-188 | "bucket not found" exactly when no bucket has the name; otherwise the flattened tables of the run in the last bucket with the name |
| Commands.TrimRightNewlines | main.go:110 | the result is the line without all of its trailing newlines |
| Commands.TrimLeftSpace | main.go:110 | the result is the text without all of its leading white space |
| Commands.TrimRightSpace | main.go:110 | the result is the text without all of its trailing white space |
| Commands.CleanKeeps | main.go:110 | text with no white space at either end, typed as a line, is cleaned into itself |
| Commands.CleanIdempotent | main.go:110 | a cleaned line has no white space at either end, and cleaning it again changes nothing |
| Commands.AlnumRun | main.go:126 | the run is all letters and digits and stops at the first other character |
| Commands.AlnumRunStops | main.go:126 | after a name of letters and digits, the run stops exactly at the name's end |
| Commands.UpToNewline | main.go:126 | the capture is a newline-free start of the text ending at its first newline |
| Commands.UpToNewlineStops | main.go:126 | a newline-free prefix followed by a newline or the end is captured exactly |
| Commands.BucketKeyMatches | main.go:126 | a line of the shape `bucket=<alnum*><space>key=<rest>` matches with exactly that name and prefix |
| Commands.BucketKeyParts | main.go:126 | a bucket-pattern match splits the line into exactly that shape |
| Commands.FormatTrimmed | main.go:110-136 | the text of a command has no white space at either end |
| Commands.ParseCanonical | main.go:111-136 | the patterns, tried in order, classify the text of each command as that command |
| Commands.TypedBucketLine | main.go:126-127 | `bucket=<name> key=<prefix>` is classified as a query of that bucket with that prefix |
| Commands.ParseFormat | main.go:110-136 | parsing the text of any command typed as a line gives the command back |
| KeyOrder.Less | main.go:79 | definition: Go's `<` on strings, comparing position by position, a proper prefix first |
| KeyOrder.HasPrefix | main.go:179 | definition: `bytes.HasPrefix`, the prefix is a leading part of the key |
| KeyFormat.Pad3 | main.go:207 | `%03d`: decimal digits only, padded with zeros to at least three |
| KeyFormat.Decimal | main.go:207 | `%d` inside `%03d`: at least one decimal digit, a single digit exactly below 10 |
| KeyFormat.IndexKey | main.go:207 | definition: `%03d-<pk>\|<field>` of the item index, row key and field name |
| KeyFormat.MemberKey | main.go:213 | definition: `<pk>\|<field>` of the row key and field name |
| TableRender.Table.Less | main.go:79 | definition: rows compare by key only, with `KeyOrder.Less` |
| TableRender.Project | main.go:60-67 | definition: cell m of a row is its key under `primary key` and otherwise its field named by header m, "" when missing |
| TableRender.Lookup | main.go:65 | definition: `val[k]`, the field's text when present and Go's zero value `""` when missing |
| Flatten.Cell | main.go:202-217 | definition: a string field shows itself, any other field its type name |
| Flatten.RowFields | main.go:200-202 | definition: one cell per field of an object value, no cells for any other value |
| Flatten.ArrayInput | main.go:205-208 | definition: the nested input of an array, item i under the key `IndexKey(i, pk, field)`, added in item order |
| Flatten.Deferred | main.go:203-214 | definition: an array registers its `ArrayInput`, an object the single entry `MemberKey(pk, field)`, anything else nothing |
| Flatten.ConcatReversed | main.go:209-214 | definition: the deferred calls' outputs joined with the call registered last first, the LIFO order of Go's `defer` |
| Query.DecodeObject | main.go:180-181 | definition: the members of a stored JSON object, and no members for anything else, since the decoding error is ignored |
| Query.CursorKey | main.go:179 | definition: the key under the cursor, none (Go's nil) at the end |
| Query.Next | main.go:179 | definition: one position on, staying at the end once there |
| Query.Bytes | main.go:179 | definition: a nil cursor key reads as the empty byte slice |
| Query.GuardAsWritten | main.go:179 | definition: the loop test as written, `bytes.HasPrefix` of the cursor key, a nil key reading as empty |
| Query.Guard | main.go:179 | definition: the corrected loop test, a key under the cursor (not at the end) that has the prefix |
| Query.IterateAsWritten | main.go:179-182 | definition: the cursor position after at most n iterations of the loop as written, stopping early when its test fails |
| Query.Collect | main.go:180-182 | definition: the `data` map after storing each visited key's decoded object in turn |
| Query.Run | main.go:179 | definition: the pairs from the seek position up to the first key without the prefix |
| Commands.TrimSpace | main.go:110 | definition: `strings.TrimSpace`, leading then trailing white space removed |
| Commands.Clean | main.go:110 | definition: trailing newlines removed, then `TrimSpace` |
| Commands.IsSpace | main.go:110 | definition: `unicode.IsSpace`, the white space `strings.TrimSpace` removes: ASCII tab, newline, vertical tab, form feed, carriage return and space, plus U+0085, U+00A0 and the Unicode space, line and paragraph separators |
| Commands.IsReSpace | main.go:126 | definition: the regular-expression class `\s`: ASCII tab, newline, form feed, carriage return and space only |
| Commands.IsAlnum | main.go:126 | definition: the class `[a-zA-Z0-9]`, also used by the `use=` pattern at line 116 |
| Commands.MatchUse | main.go:116 | definition: `^use=([a-zA-Z0-9]*)$`, the rest of the line after `use=` when it is all letters and digits |
| Commands.MatchKey | main.go:118 | definition: `^key=(.*)$`, the rest of the line after `key=` when it holds no newline |
| Commands.MatchBucketKey | main.go:126 | definition: `^bucket=([a-zA-Z0-9]*)\skey=(.*)`, the whole run of letters and digits after `bucket=`, one white-space character, `key=`, then the text up to the first newline |
| Commands.Parse | main.go:111-136 | the patterns tried in source order: "" is blank and `show buckets` lists; a selection names the letters and digits after `use=`; `key=` takes the rest of the line; a bucket query has the positional shape of the bucket pattern; only the exact word `quit` quits |
| Commands.QuitMatchesNoPattern | main.go:116-134 | `quit` matches none of the selection and query patterns, so it reaches its own test |
| Commands.Ask | main.go:122-129 | a query replies with "bucket not found" exactly when no bucket has the name, and otherwise with the flattened tables of the matching run |
| Commands.Session.constructor | main.go:22 | no bucket is selected at the start |
| Commands.Session.Step | main.go:110-137 | only `use=` changes the selection; blank lines do nothing; `key=` without a selection says "Selected bucket" and otherwise queries the selected bucket; `bucket=..key=` queries the named bucket; `quit` exits; anything else says "Command not found: " and the line |

## Left out

- The goroutine, the `resv` channel, the shutdown handshake and the `> ` prompt (main.go:86-148) are concurrency and process lifecycle. A read error ends the session; the model handles whole lines only.
- Flag parsing, `os.Stat` and `bolt.Open` (main.go:83-100) are I/O.
- BoltDB itself (`db.View`, `tx.ForEach`, `Cursor`) is replaced by a list of named buckets, each a sequence of pairs with a position as cursor. `SortedKeys` states the order BoltDB keeps keys in.
- `showBucketList` (main.go:151-159) only prints names from the storage engine. `Step` replies `ListBuckets` for it.
- The table writer (main.go:71-74) is a foreign library. Rendering stops at the header and the data rows.
- `json.Unmarshal` (main.go:181) is replaced by the `Stored` datatype: a decoded JSON document, or bytes that are not JSON.
- Flatten.ShowData: the column order and the order of sibling nested tables follow Go map iteration. The contract leaves both open: any header order and any registration order.
- TableRender.Table.Sort: `sort.Sort` is replaced by an insertion sort over the same `Len`, `Less` and `Swap`. Only what `sort.Sort` promises is claimed: sorted order and a permutation.
- Flatten.NestedArrayInOrder: stated for arrays of at most 1000 items only. Beyond that the key order departs from array order, as `KeyFormat.IndexKeyOrderBreaksAt1000` shows.
- Query.FindData: uses the loop with the end of the cursor checked (`Query.Scan`). The divergence of the loop as written is stated separately (see Findings).
- Keys and strings are sequences of characters, not bytes. The byte-wise order and `bytes.HasPrefix` are modelled on characters. This agrees with Go for keys whose characters are single bytes.
- Numbers are kept as `real`. Only their type name is ever shown.
- `Record.value` is a pointer to the cell map, and the row is appended before its cells are filled (main.go:196-198). The model fills the cells first and then appends the row. The table ends up the same; the aliasing itself is not modelled.
- A `nil` value for a nested bucket is not distinguished from other stored bytes; it decodes to no fields.

## Findings

| source | as written | input that shows it | evidently intended | confidence | as-written member | corrected member |
|---|---|---|---|---|---|---|
| main.go:179 | the loop test is `bytes.HasPrefix(pk, prefix)` only; at the end of the cursor `pk` is nil, which has the empty prefix, and `Next` stays at the end | `key=` with a bucket selected, or `bucket=b key=`, on any bucket: the loop never stops | stop at the end of the cursor (`pk != nil && bytes.HasPrefix(pk, prefix)`), listing every key of the bucket | not executed | Query.ScanAsWritten, Query.EmptyPrefixNeverStops | Query.Scan |
