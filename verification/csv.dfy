/** CSV records and the loop of `ReadCSV` (utils/filereader.go, and its twin
    filereader/filereader.go) that groups the records of a statement by their
    first column: "Trades", "Dividends", "Interest" and so on. */
module Csv {

  /** One CSV record, already split into fields. */
  type Record = seq<string>

  /** Every record has a first field. Go's `encoding/csv` never returns a
      record without fields, and the loop indexes field 0 unguarded. */
  predicate AllNonEmpty(records: seq<Record>) {
    forall i :: 0 <= i < |records| ==> |records[i]| > 0
  }

  /** The records whose first field is `key`, in reading order: the reference
      definition of one group. */
  function WithKey(records: seq<Record>, key: string): (g: seq<Record>)
    requires AllNonEmpty(records)
    ensures |g| <= |records|
    ensures forall r :: r in g ==> r in records && r[0] == key
    ensures (exists i :: 0 <= i < |records| && records[i][0] == key) <==> |g| > 0
  {
    if |records| == 0 then []
    else
      var init := records[..|records| - 1];
      var last := records[|records| - 1];
      assert forall i :: 0 <= i < |init| ==> init[i] == records[i];
      var g := WithKey(init, key);
      assert forall r :: r in g ==> r in records;
      if last[0] == key then g + [last] else g
  }

  /** The grouping loop as a fold: each record is appended to the group of
      its own first field, which is created empty on first sight. A key is
      present exactly when some record has it as its first field. */
  function GroupByFirstField(records: seq<Record>): (m: map<string, seq<Record>>)
    requires AllNonEmpty(records)
    ensures forall key :: key in m <==> exists i :: 0 <= i < |records| && records[i][0] == key
  {
    if |records| == 0 then map[]
    else
      var init := records[..|records| - 1];
      var last := records[|records| - 1];
      assert forall i :: 0 <= i < |init| ==> init[i] == records[i];
      var m := GroupByFirstField(init);
      var group := if last[0] in m then m[last[0]] else [];
      m[last[0] := group + [last]]
  }

  /** Each group holds exactly the records with its key, in reading order,
      and none is empty. */
  lemma {:induction false} GroupsAreWithKey(records: seq<Record>, key: string)
    requires AllNonEmpty(records)
    ensures key in GroupByFirstField(records) ==> GroupByFirstField(records)[key] == WithKey(records, key)
    ensures key in GroupByFirstField(records) ==> |GroupByFirstField(records)[key]| > 0
    decreases |records|
  {
    if |records| > 0 {
      var init := records[..|records| - 1];
      var last := records[|records| - 1];
      assert forall i :: 0 <= i < |init| ==> init[i] == records[i];
      GroupsAreWithKey(init, key);
      if key !in GroupByFirstField(init) && key == last[0] {
        assert WithKey(init, key) == [];
      }
    }
  }

  /** Groups keep reading order: the group of the records read in two
      stretches is the first stretch's group followed by the second's. */
  lemma {:induction false} WithKeyAppend(a: seq<Record>, b: seq<Record>, key: string)
    requires AllNonEmpty(a) && AllNonEmpty(b)
    ensures AllNonEmpty(a + b)
    ensures WithKey(a + b, key) == WithKey(a, key) + WithKey(b, key)
    decreases |b|
  {
    if |b| == 0 {
      assert a + b == a;
    } else {
      var init := b[..|b| - 1];
      assert (a + b)[..|a + b| - 1] == a + init;
      assert (a + b)[|a + b| - 1] == b[|b| - 1];
      WithKeyAppend(a, init, key);
    }
  }

  /** Sum of the sizes of the groups of `keys`. */
  function GroupSizes(records: seq<Record>, keys: seq<string>): nat
    requires AllNonEmpty(records)
  {
    if |keys| == 0 then 0 else GroupSizes(records, keys[..|keys| - 1]) + |WithKey(records, keys[|keys| - 1])|
  }

  /** How many of `keys` equal `key`. */
  function Occurrences(keys: seq<string>, key: string): nat {
    if |keys| == 0 then 0
    else Occurrences(keys[..|keys| - 1], key) + (if keys[|keys| - 1] == key then 1 else 0)
  }

  lemma {:induction false} OccurrencesOfDistinct(keys: seq<string>, key: string)
    requires forall i, j :: 0 <= i < j < |keys| ==> keys[i] != keys[j]
    ensures Occurrences(keys, key) == (if key in keys then 1 else 0)
    decreases |keys|
  {
    if |keys| > 0 {
      var init := keys[..|keys| - 1];
      OccurrencesOfDistinct(init, key);
      assert key in keys <==> key in init || keys[|keys| - 1] == key;
      if keys[|keys| - 1] == key {
        assert key !in init by {
          forall i | 0 <= i < |init|
            ensures init[i] != key
          {
            assert init[i] == keys[i];
          }
        }
      }
    }
  }

  /** Adding one record grows the group sizes by the number of times its key
      is listed. */
  lemma {:induction false} GroupSizesStep(records: seq<Record>, last: Record, keys: seq<string>)
    requires AllNonEmpty(records) && |last| > 0
    ensures AllNonEmpty(records + [last])
    ensures GroupSizes(records + [last], keys) == GroupSizes(records, keys) + Occurrences(keys, last[0])
    decreases |keys|
  {
    var all := records + [last];
    assert all[..|all| - 1] == records;
    if |keys| > 0 {
      GroupSizesStep(records, last, keys[..|keys| - 1]);
    }
  }

  /** No record is lost or duplicated: over any list naming each key of the
      grouping once, the group sizes add up to the number of records read. */
  lemma {:induction false} GroupSizesSum(records: seq<Record>, keys: seq<string>)
    requires AllNonEmpty(records)
    requires forall i, j :: 0 <= i < j < |keys| ==> keys[i] != keys[j]
    requires forall i :: 0 <= i < |records| ==> records[i][0] in keys
    ensures GroupSizes(records, keys) == |records|
    decreases |records|
  {
    if |records| == 0 {
      GroupSizesOfNothing(records, keys);
    } else {
      var init := records[..|records| - 1];
      var last := records[|records| - 1];
      assert init + [last] == records;
      GroupSizesSum(init, keys);
      GroupSizesStep(init, last, keys);
      OccurrencesOfDistinct(keys, last[0]);
    }
  }

  lemma {:induction false} GroupSizesOfNothing(records: seq<Record>, keys: seq<string>)
    requires |records| == 0
    ensures GroupSizes(records, keys) == 0
    decreases |keys|
  {
    if |keys| > 0 {
      GroupSizesOfNothing(records, keys[..|keys| - 1]);
    }
  }

  /** `ReadCSV`'s loop over the records read before end of file. */
  method GroupRecords(records: seq<Record>) returns (m: map<string, seq<Record>>)
    requires AllNonEmpty(records)
    ensures m == GroupByFirstField(records)
  {
    m := map[];
    var i := 0;
    while i < |records|
      invariant 0 <= i <= |records|
      invariant m == GroupByFirstField(records[..i])
    {
      var record := records[i];
      if record[0] !in m {
        m := m[record[0] := []];
      }
      m := m[record[0] := m[record[0]] + [record]];
      assert records[..i + 1][..i] == records[..i];
      i := i + 1;
    }
    assert records[..i] == records;
  }
}
