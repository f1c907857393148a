/** Shared value types of the loader: optional values, results, the values
    handed to the database driver and the rows a CSV dictionary reader yields. */
module Basics {

  /** Python's `None`-or-value. */
  datatype Option<+T> = None | Some(value: T)

  /** A value or the reason there is none; models a raised exception. */
  datatype Result<+T, +E> = Success(value: T) | Failure(error: E)

  /** A statement parameter as the driver receives it: SQL NULL (Python `None`)
      or a string. */
  datatype Value = Null | Text(s: string)

  /** One CSV record: header -> cell text. A header that is absent from the
      map stands for a field the record does not have (or whose cell the
      reader filled with `None`). */
  type Row = map<string, string>

  /** `row.get(h)` followed by the `'' -> None` rewrite. */
  function FieldValue(row: Row, h: string): Value
  {
    if h in row && row[h] != "" then Text(row[h]) else Null
  }

  /** One `key: value` entry of a Python dictionary display. */
  datatype Entry<+T> = Entry(key: string, value: T)

  /** The dictionary a display denotes: a later entry with the same key
      replaces an earlier one. */
  function EntriesMap<T>(es: seq<Entry<T>>): (m: map<string, T>)
    ensures forall k :: k in m <==> exists i | 0 <= i < |es| :: es[i].key == k
    decreases |es|
  {
    if |es| == 0 then map[]
    else
      var init := EntriesMap(es[..|es| - 1]);
      assert forall i | 0 <= i < |es| - 1 :: es[..|es| - 1][i] == es[i];
      init[es[|es| - 1].key := es[|es| - 1].value]
  }

  predicate DistinctKeys<T>(es: seq<Entry<T>>)
  {
    forall i, j | 0 <= i < j < |es| :: es[i].key != es[j].key
  }

  /** With distinct keys, looking up an entry's key yields that entry's
      value. */
  lemma {:induction false} EntriesMapLookup<T>(es: seq<Entry<T>>, i: nat)
    requires DistinctKeys(es) && i < |es|
    ensures es[i].key in EntriesMap(es) && EntriesMap(es)[es[i].key] == es[i].value
    decreases |es|
  {
    var init := es[..|es| - 1];
    if i < |es| - 1 {
      assert init[i] == es[i];
      assert DistinctKeys(init) by {
        forall a, b | 0 <= a < b < |init| ensures init[a].key != init[b].key {
          assert init[a] == es[a] && init[b] == es[b];
        }
      }
      EntriesMapLookup(init, i);
    }
  }

  /** Concatenation regroups freely. */
  lemma AppendAssoc<T>(a: seq<T>, b: seq<T>, c: seq<T>)
    ensures a + b + c == a + (b + c)
  {
  }
}
