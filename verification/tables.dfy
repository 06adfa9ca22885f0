/** The slice of pandas the harness uses, over an abstract table: a list of
    column names and a list of rows. */
module Tables {
  import opened Outcomes

  /** One cell of a data frame. `Null` stands for a missing value: NaN read
      from a CSV file, or a Python `None` stored in an object column. */
  datatype Cell = Text(text: string) | Int(n: int) | Null

  datatype Table = Table(columns: seq<string>, rows: seq<seq<Cell>>)

  /** `pd.DataFrame()` */
  const EmptyTable := Table([], [])

  function Min(a: int, b: int): int {
    if a <= b then a else b
  }

  predicate Distinct(names: seq<string>) {
    forall i, j :: 0 <= i < j < |names| ==> names[i] != names[j]
  }

  /** Column names are unique (`read_csv` renames duplicates) and every row
      has one cell per column. */
  predicate WellFormed(t: Table) {
    && Distinct(t.columns)
    && forall k :: 0 <= k < |t.rows| ==> |t.rows[k]| == |t.columns|
  }

  /** Position of the first column called `name`, if any. */
  function IndexOf(names: seq<string>, name: string): (r: Option<nat>)
    ensures r.None? <==> name !in names
    ensures r.Some? ==> r.value < |names| && names[r.value] == name && name !in names[..r.value]
  {
    if |names| == 0 then None
    else if names[0] == name then Some(0)
    else
      match IndexOf(names[1..], name)
      case None => None
      case Some(i) =>
        assert names[..i + 1] == [names[0]] + names[1..][..i];
        Some(i + 1)
  }

  /** `df[name]`: the cells of one column, top to bottom. */
  function Column(t: Table, name: string): (cells: seq<Cell>)
    requires WellFormed(t) && name in t.columns
    ensures |cells| == |t.rows|
    ensures forall k, j :: 0 <= k < |t.rows| && 0 <= j < |t.columns| && t.columns[j] == name ==> cells[k] == t.rows[k][j]
  {
    var j := IndexOf(t.columns, name).value;
    seq(|t.rows|, k requires 0 <= k < |t.rows| => t.rows[k][j])
  }

  /** `df.head(n)` for `n >= 0`. */
  function Head(t: Table, n: nat): (h: Table)
    ensures h.columns == t.columns
    ensures |h.rows| == Min(n, |t.rows|)
    ensures h.rows == t.rows[..|h.rows|]
    ensures WellFormed(t) ==> WellFormed(h)
  {
    Table(t.columns, if n <= |t.rows| then t.rows[..n] else t.rows)
  }

  /** `df[name] = values`: an existing column is overwritten in place, a new
      one is appended on the right. */
  function SetColumn(t: Table, name: string, values: seq<Cell>): (r: Table)
    requires WellFormed(t) && |values| == |t.rows|
    ensures WellFormed(r) && |r.rows| == |t.rows|
    ensures r.columns == if name in t.columns then t.columns else t.columns + [name]
    ensures Column(r, name) == values
    ensures forall k, j :: 0 <= k < |t.rows| && 0 <= j < |t.columns| && t.columns[j] != name ==> r.rows[k][j] == t.rows[k][j]
  {
    match IndexOf(t.columns, name)
    case Some(j) =>
      Table(t.columns, seq(|t.rows|, k requires 0 <= k < |t.rows| => t.rows[k][j := values[k]]))
    case None =>
      var r := Table(t.columns + [name], seq(|t.rows|, k requires 0 <= k < |t.rows| => t.rows[k] + [values[k]]));
      assert forall j :: 0 <= j < |t.columns| ==> r.columns[j] != name;
      r
  }

  /** Setting one column leaves every other column as it was. */
  lemma SetColumnKeepsColumn(t: Table, name: string, values: seq<Cell>, other: string)
    requires WellFormed(t) && |values| == |t.rows|
    requires other in t.columns && other != name
    ensures Column(SetColumn(t, name, values), other) == Column(t, other)
  {
    var r := SetColumn(t, name, values);
    var j := IndexOf(t.columns, other).value;
    assert r.columns[j] == other;
    forall k | 0 <= k < |t.rows|
      ensures Column(r, other)[k] == Column(t, other)[k]
    {
      assert r.rows[k][j] == t.rows[k][j];
    }
  }

  /** `df[names]`: a new frame with exactly the named columns, in that order,
      or a `KeyError` when one of them is absent. */
  function Select(t: Table, names: seq<string>): (r: Outcome<Table>)
    requires WellFormed(t)
    ensures r.Ok? <==> forall i :: 0 <= i < |names| ==> names[i] in t.columns
    ensures r.Ok? ==> r.value.columns == names && |r.value.rows| == |t.rows|
    ensures r.Ok? ==> forall k :: 0 <= k < |t.rows| ==> |r.value.rows[k]| == |names|
    ensures r.Ok? ==> forall k, i, j :: 0 <= k < |t.rows| && 0 <= i < |names| && 0 <= j < |t.columns| && t.columns[j] == names[i] ==> r.value.rows[k][i] == t.rows[k][j]
    ensures r.Ok? && Distinct(names) ==> WellFormed(r.value)
  {
    if forall i :: 0 <= i < |names| ==> names[i] in t.columns then
      Ok(Table(names, seq(|t.rows|, k requires 0 <= k < |t.rows| =>
        seq(|names|, i requires 0 <= i < |names| => Column(t, names[i])[k]))))
    else
      Err("not in index")
  }

  /** A Python dict: keys with their values, in insertion order. */
  type Record = seq<(string, Cell)>

  function Keys(rec: Record): (keys: seq<string>)
    ensures |keys| == |rec|
    ensures forall i :: 0 <= i < |rec| ==> keys[i] == rec[i].0
  {
    seq(|rec|, i requires 0 <= i < |rec| => rec[i].0)
  }

  /** `rec.get(key)` as a frame cell: a missing key reads as a missing value. */
  function Get(rec: Record, key: string): (c: Cell)
    ensures key !in Keys(rec) ==> c == Null
    ensures forall i :: 0 <= i < |rec| && rec[i].0 == key && key !in Keys(rec[..i]) ==> c == rec[i].1
  {
    if |rec| == 0 then Null
    else if rec[0].0 == key then rec[0].1
    else
      assert forall i :: 1 <= i <= |rec| ==> Keys(rec[..i]) == [rec[0].0] + Keys(rec[1..][..i - 1]);
      Get(rec[1..], key)
  }

  /** `acc` followed by the keys of `keys` it does not already hold, in order. */
  function AddNew(acc: seq<string>, keys: seq<string>): (r: seq<string>)
    ensures |acc| <= |r| && r[..|acc|] == acc
    ensures forall c :: c in r <==> c in acc || c in keys
    ensures Distinct(acc) ==> Distinct(r)
    decreases |keys|
  {
    if |keys| == 0 then acc
    else
      var next := if keys[0] in acc then acc else acc + [keys[0]];
      var r := AddNew(next, keys[1..]);
      assert r[..|acc|] == next[..|next|][..|acc|];
      assert forall c :: c in keys <==> c == keys[0] || c in keys[1..];
      r
  }

  lemma {:induction false} AddNewPresent(acc: seq<string>, keys: seq<string>)
    requires forall c :: c in keys ==> c in acc
    ensures AddNew(acc, keys) == acc
    decreases |keys|
  {
    if |keys| > 0 {
      AddNewPresent(acc, keys[1..]);
    }
  }

  lemma {:induction false} AddNewFresh(acc: seq<string>, keys: seq<string>)
    requires Distinct(keys)
    requires forall c :: c in keys ==> c !in acc
    ensures AddNew(acc, keys) == acc + keys
    decreases |keys|
  {
    if |keys| > 0 {
      var next := acc + [keys[0]];
      FreshAfterFirst(acc, keys);
      AddNewFreshStep(acc, keys);
      AddNewFresh(next, keys[1..]);
      SplitFirst(acc, keys);
    }
  }

  lemma SplitFirst<T>(acc: seq<T>, keys: seq<T>)
    requires |keys| > 0
    ensures acc + [keys[0]] + keys[1..] == acc + keys
  {
  }

  lemma AddNewFreshStep(acc: seq<string>, keys: seq<string>)
    requires |keys| > 0 && keys[0] !in acc
    ensures AddNew(acc, keys) == AddNew(acc + [keys[0]], keys[1..])
  {
  }

  /** Moving the first of distinct fresh keys into `acc` leaves the rest
      distinct and fresh. */
  lemma FreshAfterFirst(acc: seq<string>, keys: seq<string>)
    requires |keys| > 0 && Distinct(keys)
    requires forall c :: c in keys ==> c !in acc
    ensures Distinct(keys[1..])
    ensures keys[0] !in acc
    ensures forall c :: c in keys[1..] ==> c !in acc + [keys[0]]
  {
    assert keys[0] in keys;
    var rest := keys[1..];
    forall c | c in rest ensures c !in acc + [keys[0]] {
      var i :| 0 <= i < |rest| && rest[i] == c;
      assert keys[i + 1] == c;
    }
  }

  /** The columns of `pd.DataFrame(records)`: every key of every record, in
      order of first appearance. */
  function UnionKeys(records: seq<Record>): (cols: seq<string>)
    ensures Distinct(cols)
    ensures forall c :: c in cols <==> exists k :: 0 <= k < |records| && c in Keys(records[k])
  {
    if |records| == 0 then []
    else
      var init := records[..|records| - 1];
      var cols := AddNew(UnionKeys(init), Keys(records[|records| - 1]));
      assert forall k :: 0 <= k < |init| ==> init[k] == records[k];
      cols
  }

  /** When every dict has the same keys, the frame's columns are those keys in
      their own order. */
  lemma {:induction false} UnionKeysOfUniform(records: seq<Record>, keys: seq<string>)
    requires |records| > 0 && Distinct(keys)
    requires forall k :: 0 <= k < |records| ==> Keys(records[k]) == keys
    ensures UnionKeys(records) == keys
    decreases |records|
  {
    var init := records[..|records| - 1];
    if |init| == 0 {
      AddNewFresh([], keys);
    } else {
      UnionKeysOfUniform(init, keys);
      AddNewPresent(keys, keys);
    }
  }

  /** The position of the first `key` in `keys`, or `|keys|` when it is
      absent. */
  function Position(keys: seq<string>, key: string): (p: nat)
    ensures p <= |keys|
    ensures p < |keys| <==> key in keys
    ensures p < |keys| ==> keys[p] == key && key !in keys[..p]
  {
    match IndexOf(keys, key)
    case Some(i) => i
    case None => |keys|
  }

  lemma PositionTail(keys: seq<string>, key: string)
    requires |keys| > 0 && key != keys[0]
    ensures Position(keys, key) == 1 + Position(keys[1..], key)
  {
    var p, q := Position(keys, key), Position(keys[1..], key);
    assert keys == [keys[0]] + keys[1..];
    if key in keys[1..] {
      assert keys[q + 1] == key;
      assert keys[..q + 1] == [keys[0]] + keys[1..][..q];
    }
  }

  /** The keys `AddNew` appends are fresh keys of `keys`, in the order of
      their first position there. */
  lemma {:induction false} AddNewOrder(acc: seq<string>, keys: seq<string>)
    ensures forall i :: |acc| <= i < |AddNew(acc, keys)| ==> AddNew(acc, keys)[i] in keys && AddNew(acc, keys)[i] !in acc
    ensures forall i, j :: |acc| <= i < j < |AddNew(acc, keys)| ==>
      Position(keys, AddNew(acc, keys)[i]) < Position(keys, AddNew(acc, keys)[j])
    decreases |keys|
  {
    if |keys| > 0 {
      var r := AddNew(acc, keys);
      var first, rest := keys[0], keys[1..];
      var next := if first in acc then acc else acc + [first];
      assert r == AddNew(next, rest);
      AddNewOrder(next, rest);
      assert first in next;
      assert r[..|next|] == next;
      forall i | |acc| <= i < |r|
        ensures r[i] in keys && r[i] !in acc
      {
        if i < |next| {
          assert r[i] == r[..|next|][i] == first;
        } else {
          assert r[i] in rest && r[i] !in next;
        }
      }
      forall i, j | |acc| <= i < j < |r|
        ensures Position(keys, r[i]) < Position(keys, r[j])
      {
        assert r[j] !in next;
        PositionTail(keys, r[j]);
        if i < |next| {
          assert r[i] == r[..|next|][i] == first;
        } else {
          PositionTail(keys, r[i]);
        }
      }
    }
  }

  /** The index of the first dict that has `key`, or `|records|` when none
      does. */
  function FirstDict(records: seq<Record>, key: string): (k: nat)
    ensures k <= |records|
    ensures k < |records| ==> key in Keys(records[k])
    ensures forall i :: 0 <= i < k && i < |records| ==> key !in Keys(records[i])
  {
    if |records| == 0 then 0
    else
      var init := records[..|records| - 1];
      assert forall i :: 0 <= i < |init| ==> init[i] == records[i];
      var k := FirstDict(init, key);
      if k < |init| then k
      else if key in Keys(records[|records| - 1]) then |init|
      else |records|
  }

  /** `a` turns up before `b` when the dicts are read in order, each one's
      keys in its own order. */
  predicate FirstSeenBefore(records: seq<Record>, a: string, b: string) {
    var ka, kb := FirstDict(records, a), FirstDict(records, b);
    ka < kb || (ka == kb < |records| && Position(Keys(records[ka]), a) < Position(Keys(records[ka]), b))
  }

  /** The frame's columns come in order of first appearance: an earlier
      column was met first, in an earlier dict or earlier in the same dict.
      With `Distinct` and the membership clause this fixes the columns
      completely. */
  lemma {:induction false} UnionKeysOrder(records: seq<Record>)
    ensures forall i, j :: 0 <= i < j < |UnionKeys(records)| ==>
      FirstSeenBefore(records, UnionKeys(records)[i], UnionKeys(records)[j])
    decreases |records|
  {
    if |records| > 0 {
      var init := records[..|records| - 1];
      var last := records[|records| - 1];
      var prev := UnionKeys(init);
      var cols := UnionKeys(records);
      assert cols == AddNew(prev, Keys(last));
      UnionKeysOrder(init);
      AddNewOrder(prev, Keys(last));
      forall i, j | 0 <= i < j < |cols|
        ensures FirstSeenBefore(records, cols[i], cols[j])
      {
        if j < |prev| {
          assert cols[i] == prev[i] && cols[j] == prev[j];
          SeenBeforeCarries(records, prev[i], prev[j]);
        } else if i < |prev| {
          assert cols[i] == prev[i];
          FirstDictOfEarlier(records, cols[i]);
          FirstDictOfNew(records, cols[j]);
        } else {
          FirstDictOfNew(records, cols[i]);
          FirstDictOfNew(records, cols[j]);
        }
      }
    }
  }

  /** A key some earlier dict has keeps its first dict when a dict is added. */
  lemma FirstDictOfEarlier(records: seq<Record>, key: string)
    requires |records| > 0 && key in UnionKeys(records[..|records| - 1])
    ensures FirstDict(records, key) == FirstDict(records[..|records| - 1], key) < |records| - 1
  {
    var init := records[..|records| - 1];
    var k :| 0 <= k < |init| && key in Keys(init[k]);
  }

  /** A key first met in the added dict has that dict as its first. */
  lemma FirstDictOfNew(records: seq<Record>, key: string)
    requires |records| > 0 && key !in UnionKeys(records[..|records| - 1]) && key in Keys(records[|records| - 1])
    ensures FirstDict(records, key) == |records| - 1
  {
    var init := records[..|records| - 1];
    assert FirstDict(init, key) == |init|;
  }

  lemma SeenBeforeCarries(records: seq<Record>, a: string, b: string)
    requires |records| > 0
    requires a in UnionKeys(records[..|records| - 1]) && b in UnionKeys(records[..|records| - 1])
    requires FirstSeenBefore(records[..|records| - 1], a, b)
    ensures FirstSeenBefore(records, a, b)
  {
    var init := records[..|records| - 1];
    FirstDictOfEarlier(records, a);
    FirstDictOfEarlier(records, b);
    assert records[FirstDict(init, a)] == init[FirstDict(init, a)];
  }

  /** `pd.DataFrame(records)` for a list of dicts. */
  function FromRecords(records: seq<Record>): (t: Table)
    ensures WellFormed(t) && |t.rows| == |records|
    ensures t.columns == UnionKeys(records)
    ensures forall k, j :: 0 <= k < |records| && 0 <= j < |t.columns| ==> t.rows[k][j] == Get(records[k], t.columns[j])
  {
    var cols := UnionKeys(records);
    Table(cols, seq(|records|, k requires 0 <= k < |records| =>
      seq(|cols|, j requires 0 <= j < |cols| => Get(records[k], cols[j]))))
  }
}
