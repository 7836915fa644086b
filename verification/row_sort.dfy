/** Records of the table and the comparator sort that orders a copy of them
    by the active sort key (src/components/DataTable.tsx lines 29-37). */
module RowSort {
  import opened JsValues

  /** A table record: its integer `id` and its other named fields. */
  datatype Row = Row(id: int, fields: map<string, Value>)

  /** `record[name]`: the id under "id", a stored field, or `undefined`. */
  function Field(r: Row, name: string): (v: Value)
    ensures name == "id" ==> v == Num(r.id)
    ensures name != "id" && name in r.fields ==> v == r.fields[name]
    ensures name != "id" && name !in r.fields ==> v == Undefined
  {
    if name == "id" then Num(r.id)
    else if name in r.fields then r.fields[name]
    else Undefined
  }

  /** `a` may stand before `b` in a list sorted by `key`: in ascending
      direction `a[key]` is not greater than `b[key]`, in descending direction
      it is not smaller. */
  predicate InOrder(a: Row, b: Row, key: string, asc: bool) {
    if asc then !Less(Field(b, key), Field(a, key))
    else !Less(Field(a, key), Field(b, key))
  }

  /** Every neighbouring pair of rows is in order. */
  predicate Ordered(s: seq<Row>, key: string, asc: bool) {
    forall i | 0 < i < |s| :: InOrder(s[i - 1], s[i], key, asc)
  }

  /** Every pair of rows, near or far, is in order. */
  predicate Sorted(s: seq<Row>, key: string, asc: bool) {
    forall i, j | 0 <= i < j < |s| :: InOrder(s[i], s[j], key, asc)
  }

  /** All rows hold a value of the same kind under `key`. */
  predicate Homogeneous(s: seq<Row>, key: string) {
    forall i, j | 0 <= i < |s| && 0 <= j < |s| :: SameKind(Field(s[i], key), Field(s[j], key))
  }

  /** The comparator passed to `sort`: negative when `a` goes first, positive
      when `b` goes first, zero for equal keys. */
  function Compare(a: Row, b: Row, key: string, asc: bool): (r: int)
    ensures -1 <= r <= 1
    ensures r <= 0 <==> InOrder(a, b, key, asc)
    ensures r >= 0 <==> InOrder(b, a, key, asc)
  {
    var va, vb := Field(a, key), Field(b, key);
    LessAsymmetric(va, vb);
    if Less(va, vb) then (if asc then -1 else 1)
    else if Less(vb, va) then (if asc then 1 else -1)
    else 0
  }

  /** Inserts `x` before the first element it compares at most equal to. */
  function Insert(x: Row, s: seq<Row>, key: string, asc: bool): (r: seq<Row>)
    ensures multiset(r) == multiset(s) + multiset{x}
    ensures |r| > 0 && (r[0] == x || (|s| > 0 && r[0] == s[0]))
    ensures Ordered(s, key, asc) ==> Ordered(r, key, asc)
    decreases |s|
  {
    if |s| == 0 then [x]
    else if Compare(x, s[0], key, asc) <= 0 then
      OrderedCons(x, s, key, asc);
      [x] + s
    else
      assert s == [s[0]] + s[1..];
      var t := Insert(x, s[1..], key, asc);
      OrderedCons(s[0], t, key, asc);
      OrderedTail(s, key, asc);
      [s[0]] + t
  }

  /** Putting a row in front of an ordered list that it may precede keeps the
      list ordered. */
  lemma OrderedCons(h: Row, t: seq<Row>, key: string, asc: bool)
    ensures Ordered(t, key, asc) && (|t| > 0 ==> InOrder(h, t[0], key, asc))
            ==> Ordered([h] + t, key, asc)
  {
    if Ordered(t, key, asc) && (|t| > 0 ==> InOrder(h, t[0], key, asc)) {
      var r := [h] + t;
      forall i | 0 < i < |r|
        ensures InOrder(r[i - 1], r[i], key, asc)
      {
        if i > 1 {
          assert r[i - 1] == t[i - 2] && r[i] == t[i - 1];
        }
      }
    }
  }

  lemma OrderedTail(s: seq<Row>, key: string, asc: bool)
    requires |s| > 0
    ensures Ordered(s, key, asc) ==> Ordered(s[1..], key, asc)
  {
    if Ordered(s, key, asc) {
      forall i | 0 < i < |s| - 1
        ensures InOrder(s[1..][i - 1], s[1..][i], key, asc)
      {
        assert s[1..][i - 1] == s[i] && s[1..][i] == s[i + 1];
      }
    }
  }

  /** The sorted copy `[...data].sort(cmp)`: an insertion sort. */
  function SortBy(s: seq<Row>, key: string, asc: bool): (r: seq<Row>)
    ensures multiset(r) == multiset(s)
    ensures Ordered(r, key, asc)
    decreases |s|
  {
    if |s| == 0 then []
    else
      assert s == [s[0]] + s[1..];
      Insert(s[0], SortBy(s[1..], key, asc), key, asc)
  }

  lemma InOrderTransitive(a: Row, b: Row, c: Row, key: string, asc: bool)
    requires SameKind(Field(a, key), Field(b, key)) && SameKind(Field(b, key), Field(c, key))
    requires InOrder(a, b, key, asc) && InOrder(b, c, key, asc)
    ensures InOrder(a, c, key, asc)
  {
    var va, vb, vc := Field(a, key), Field(b, key), Field(c, key);
    if asc {
      NotLessTransitive(va, vb, vc);
    } else {
      NotLessTransitive(vc, vb, va);
    }
  }

  lemma {:induction false} OrderedSpan(s: seq<Row>, key: string, asc: bool, i: int, j: int)
    requires Ordered(s, key, asc) && Homogeneous(s, key)
    requires 0 <= i < j < |s|
    ensures InOrder(s[i], s[j], key, asc)
    decreases j - i
  {
    if i + 1 < j {
      OrderedSpan(s, key, asc, i, j - 1);
      InOrderTransitive(s[i], s[j - 1], s[j], key, asc);
    }
  }

  /** When every row holds a value of one kind under the key, neighbouring
      order is order between every pair. */
  lemma OrderedHomogeneousIsSorted(s: seq<Row>, key: string, asc: bool)
    requires Ordered(s, key, asc) && Homogeneous(s, key)
    ensures Sorted(s, key, asc)
  {
    forall i, j | 0 <= i < j < |s|
      ensures InOrder(s[i], s[j], key, asc)
    {
      OrderedSpan(s, key, asc, i, j);
    }
  }

  /** A permutation keeps the kinds found under the key. */
  lemma HomogeneousPermutation(s: seq<Row>, t: seq<Row>, key: string)
    requires multiset(s) == multiset(t) && Homogeneous(t, key)
    ensures Homogeneous(s, key)
  {
    forall i, j | 0 <= i < |s| && 0 <= j < |s|
      ensures SameKind(Field(s[i], key), Field(s[j], key))
    {
      assert s[i] in multiset(t) && s[j] in multiset(t);
      var i' :| 0 <= i' < |t| && t[i'] == s[i];
      var j' :| 0 <= j' < |t| && t[j'] == s[j];
    }
  }
}
