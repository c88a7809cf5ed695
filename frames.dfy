/**
 * Keyed, ordered tables: the part of a pandas DataFrame that the callbacks and
 * column loops rely on.  A table is a sequence of (label, value) entries in row
 * (or column) order; `frame.loc[label] = row` and `frame[name] = column` both
 * overwrite what is stored under an existing label and append a new entry
 * otherwise.  That single operation, `Upsert`, and the table built by a series
 * of them, `UpsertAll` (and `Build`, from an empty table), are defined here
 * once and used by every module.
 */
module Frames {

  datatype Entry<K, V> = Entry(key: K, val: V)

  /** The labels of a table, in table order (a DataFrame's index or its columns). */
  function Keys<K, V>(t: seq<Entry<K, V>>): (ks: seq<K>)
    ensures |ks| == |t|
    ensures forall i :: 0 <= i < |t| ==> ks[i] == t[i].key
  {
    seq(|t|, i requires 0 <= i < |t| => t[i].key)
  }

  /** `b` starts with the labels of `a`, in order. */
  predicate LabelsPrefix<K(==), V>(a: seq<Entry<K, V>>, b: seq<Entry<K, V>>)
  {
    |a| <= |b| && forall i :: 0 <= i < |a| ==> b[i].key == a[i].key
  }

  /** Every label of `a` is a label of `b` when `b` starts with the labels of `a`. */
  lemma LabelsPrefixHas<K, V>(a: seq<Entry<K, V>>, b: seq<Entry<K, V>>, j: nat)
    requires LabelsPrefix(a, b) && j < |a|
    ensures a[j].key in Keys(b)
  {
    assert Keys(b)[j] == a[j].key;
  }

  /** No label occurs twice. */
  predicate DistinctKeys<K(==), V>(t: seq<Entry<K, V>>)
    decreases |t|
  {
    t == [] || (t[|t| - 1].key !in Keys(t[..|t| - 1]) && DistinctKeys(t[..|t| - 1]))
  }

  /** Unique labels, pairwise. */
  lemma {:induction false} DistinctKeysPairwise<K, V>(t: seq<Entry<K, V>>, i: nat, j: nat)
    requires DistinctKeys(t) && i < j < |t|
    ensures t[i].key != t[j].key
    decreases |t|
  {
    var p := t[..|t| - 1];
    assert p[i] == t[i];
    if j == |t| - 1 {
      assert Keys(p)[i] == t[i].key;
    } else {
      assert p[j] == t[j];
      DistinctKeysPairwise(p, i, j);
    }
  }

  /** Labels that differ pairwise are unique. */
  lemma {:induction false} PairwiseDistinctKeys<K, V>(t: seq<Entry<K, V>>)
    requires forall i, j :: 0 <= i < j < |t| ==> t[i].key != t[j].key
    ensures DistinctKeys(t)
    decreases |t|
  {
    if t != [] {
      var p := t[..|t| - 1];
      forall i, j | 0 <= i < j < |p| ensures p[i].key != p[j].key {
        assert p[i] == t[i] && p[j] == t[j];
      }
      PairwiseDistinctKeys(p);
      forall i | 0 <= i < |p| ensures Keys(p)[i] != t[|t| - 1].key {
        assert p[i] == t[i];
      }
    }
  }

  /** Position of the first entry labelled `k`. */
  function IndexOf<K(==), V>(t: seq<Entry<K, V>>, k: K): (i: nat)
    requires k in Keys(t)
    ensures i < |t| && t[i].key == k
    ensures forall j :: 0 <= j < i ==> t[j].key != k
  {
    if t[0].key == k then 0
    else
      assert Keys(t) == [t[0].key] + Keys(t[1..]);
      1 + IndexOf(t[1..], k)
  }

  /** Position of the last entry labelled `k`. */
  function LastIndexOf<K(==), V>(t: seq<Entry<K, V>>, k: K): (i: nat)
    requires k in Keys(t)
    ensures i < |t| && t[i].key == k
    ensures forall j :: i < j < |t| ==> t[j].key != k
  {
    var n := |t| - 1;
    if t[n].key == k then n
    else
      assert Keys(t) == Keys(t[..n]) + [t[n].key];
      LastIndexOf(t[..n], k)
  }

  /** `frame[k]` / `frame.loc[k]`: what is stored under label `k` (the first such entry). */
  function Get<K(==), V>(t: seq<Entry<K, V>>, k: K): V
    requires k in Keys(t)
  {
    t[IndexOf(t, k)].val
  }

  /** In a table with unique labels, the label at position `j` holds that position's value. */
  lemma GetAt<K, V>(t: seq<Entry<K, V>>, j: nat)
    requires DistinctKeys(t) && j < |t|
    ensures t[j].key in Keys(t) && Get(t, t[j].key) == t[j].val
  {
    var k := t[j].key;
    assert Keys(t)[j] == k;
    var i := IndexOf(t, k);
    if i < j {
      DistinctKeysPairwise(t, i, j);
    }
  }

  /**
   * `frame.loc[k] = v`: every entry labelled `k` now holds `v`; when there is
   * none, one entry is appended at the end.  Nothing else moves or changes.
   */
  function Upsert<K(==), V>(t: seq<Entry<K, V>>, k: K, v: V): (r: seq<Entry<K, V>>)
    ensures Keys(r) == if k in Keys(t) then Keys(t) else Keys(t) + [k]
    ensures forall i :: 0 <= i < |r| && r[i].key == k ==> r[i].val == v
    ensures forall i :: 0 <= i < |t| && t[i].key != k ==> r[i] == t[i]
  {
    if k in Keys(t) then
      seq(|t|, i requires 0 <= i < |t| => if t[i].key == k then Entry(k, v) else t[i])
    else
      t + [Entry(k, v)]
  }

  /** Upserting keeps labels unique. */
  lemma UpsertKeepsDistinct<K, V>(t: seq<Entry<K, V>>, k: K, v: V)
    requires DistinctKeys(t)
    ensures DistinctKeys(Upsert(t, k, v))
  {
    var r := Upsert(t, k, v);
    if k in Keys(t) {
      SameKeysDistinct(t, r);
    } else {
      assert r[..|r| - 1] == t;
    }
  }

  /** Uniqueness depends on the labels alone. */
  lemma SameKeysDistinct<K, V>(a: seq<Entry<K, V>>, b: seq<Entry<K, V>>)
    requires DistinctKeys(a) && Keys(a) == Keys(b)
    ensures DistinctKeys(b)
  {
    forall i, j | 0 <= i < j < |b|
      ensures b[i].key != b[j].key
    {
      assert Keys(a)[i] == a[i].key && Keys(b)[i] == b[i].key;
      assert Keys(a)[j] == a[j].key && Keys(b)[j] == b[j].key;
      DistinctKeysPairwise(a, i, j);
    }
    PairwiseDistinctKeys(b);
  }

  /** Labels only ever get added at the end: whatever prefix of labels a table had, it keeps. */
  lemma UpsertKeepsLabels<K, V>(t: seq<Entry<K, V>>, k: K, v: V, p: seq<K>)
    requires p <= Keys(t)
    ensures p <= Keys(Upsert(t, k, v))
  {
    if k !in Keys(t) {
      assert Keys(t) <= Keys(t) + [k];
    }
  }

  /** Reading back: the upserted label yields the new value, every other label its old one. */
  lemma GetAfterUpsert<K, V>(t: seq<Entry<K, V>>, k: K, v: V, k': K)
    requires k' == k || k' in Keys(t)
    ensures k' in Keys(Upsert(t, k, v))
    ensures Get(Upsert(t, k, v), k') == if k' == k then v else Get(t, k')
  {
    var r := Upsert(t, k, v);
    var i := IndexOf(r, k');
    if k' != k {
      var i0 := IndexOf(t, k');
      assert r[i0] == t[i0];
    }
  }

  /** Upserting a label the table does not hold appends exactly one entry. */
  lemma UpsertFresh<K, V>(t: seq<Entry<K, V>>, k: K, v: V)
    requires k !in Keys(t)
    ensures Upsert(t, k, v) == t + [Entry(k, v)]
  {
  }

  /** Upserting the label held at position `j` of a table with unique labels replaces that entry only. */
  lemma UpsertAt<K, V>(t: seq<Entry<K, V>>, j: nat, v: V)
    requires DistinctKeys(t) && j < |t|
    ensures Upsert(t, t[j].key, v) == t[j := Entry(t[j].key, v)]
  {
    var k := t[j].key;
    assert Keys(t)[j] == k;
    var r := Upsert(t, k, v);
    assert |r| == |Keys(r)| == |Keys(t)| == |t|;
    forall i | 0 <= i < |t|
      ensures r[i] == t[j := Entry(k, v)][i]
    {
      assert Keys(r)[i] == Keys(t)[i];
      if i < j {
        DistinctKeysPairwise(t, i, j);
      } else if j < i {
        DistinctKeysPairwise(t, j, i);
      }
    }
  }

  /** A repeated `loc[k] = …` for the same label overwrites; it never adds a second row. */
  lemma UpsertTwice<K, V>(t: seq<Entry<K, V>>, k: K, v1: V, v2: V)
    ensures Upsert(Upsert(t, k, v1), k, v2) == Upsert(t, k, v2)
  {
    var a := Upsert(Upsert(t, k, v1), k, v2);
    var b := Upsert(t, k, v2);
    assert Keys(a) == Keys(b);
    assert |a| == |Keys(a)| == |Keys(b)| == |b|;
    forall i | 0 <= i < |a|
      ensures a[i] == b[i]
    {
      assert Keys(a)[i] == Keys(b)[i];
      if i < |t| && t[i].key != k {
        assert Upsert(t, k, v1)[i] == t[i];
      }
    }
  }

  /** The table left by upserting the entries of `es` into `t`, in order. */
  function UpsertAll<K(==), V>(t: seq<Entry<K, V>>, es: seq<Entry<K, V>>): seq<Entry<K, V>>
  {
    if es == [] then t
    else
      var n := |es| - 1;
      Upsert(UpsertAll(t, es[..n]), es[n].key, es[n].val)
  }

  lemma SnocAssoc<T>(a: seq<T>, b: seq<T>, x: T)
    ensures (a + b) + [x] == a + (b + [x])
  {
  }

  /** Upserting one more entry of `es` extends the series by one write. */
  lemma UpsertAllSnoc<K, V>(t: seq<Entry<K, V>>, es: seq<Entry<K, V>>, k: nat)
    requires k < |es|
    ensures UpsertAll(t, es[..k + 1]) == Upsert(UpsertAll(t, es[..k]), es[k].key, es[k].val)
  {
    assert es[..k + 1][..k] == es[..k];
  }

  /** The table built from nothing by upserting `es` in order. */
  function Build<K(==), V>(es: seq<Entry<K, V>>): seq<Entry<K, V>>
  {
    UpsertAll([], es)
  }

  /** Upserting a series keeps labels unique. */
  lemma {:induction false} UpsertAllDistinct<K, V>(t: seq<Entry<K, V>>, es: seq<Entry<K, V>>)
    requires DistinctKeys(t)
    ensures DistinctKeys(UpsertAll(t, es))
  {
    if es != [] {
      var n := |es| - 1;
      UpsertAllDistinct(t, es[..n]);
      UpsertKeepsDistinct(UpsertAll(t, es[..n]), es[n].key, es[n].val);
    }
  }

  /** After a series of upserts the table holds exactly its old labels and the upserted ones. */
  lemma {:induction false} UpsertAllKeys<K, V>(t: seq<Entry<K, V>>, es: seq<Entry<K, V>>, k: K)
    ensures k in Keys(UpsertAll(t, es)) <==> k in Keys(t) || k in Keys(es)
  {
    if es != [] {
      var n := |es| - 1;
      UpsertAllKeys(t, es[..n], k);
      assert Keys(es) == Keys(es[..n]) + [es[n].key];
    }
  }

  /** The value under an upserted label is the one from the last entry that carried it. */
  lemma {:induction false} UpsertAllLastWins<K, V>(t: seq<Entry<K, V>>, es: seq<Entry<K, V>>, k: K)
    requires k in Keys(es)
    ensures k in Keys(UpsertAll(t, es))
    ensures Get(UpsertAll(t, es), k) == es[LastIndexOf(es, k)].val
  {
    var n := |es| - 1;
    var p := es[..n];
    assert Keys(es) == Keys(p) + [es[n].key];
    if es[n].key == k {
      GetAfterUpsert(UpsertAll(t, p), k, es[n].val, k);
    } else {
      UpsertAllLastWins(t, p, k);
      GetAfterUpsert(UpsertAll(t, p), es[n].key, es[n].val, k);
      assert LastIndexOf(es, k) == LastIndexOf(p, k) by {
        var i, i' := LastIndexOf(es, k), LastIndexOf(p, k);
        assert es[i'] == p[i'];
        if i < i' { assert false; }
      }
    }
  }

  /** A label that none of the upserted entries carries keeps its old value. */
  lemma {:induction false} UpsertAllUntouched<K, V>(t: seq<Entry<K, V>>, es: seq<Entry<K, V>>, k: K)
    requires k in Keys(t) && k !in Keys(es)
    ensures k in Keys(UpsertAll(t, es))
    ensures Get(UpsertAll(t, es), k) == Get(t, k)
  {
    if es != [] {
      var n := |es| - 1;
      assert Keys(es) == Keys(es[..n]) + [es[n].key];
      UpsertAllUntouched(t, es[..n], k);
      GetAfterUpsert(UpsertAll(t, es[..n]), es[n].key, es[n].val, k);
    }
  }

  /** The first entry for `k` in a longer table is the first entry in the prefix, when there is one. */
  lemma IndexOfExtend<K, V>(p: seq<Entry<K, V>>, e: Entry<K, V>, k: K)
    requires k in Keys(p + [e])
    ensures k in Keys(p) ==> IndexOf(p + [e], k) == IndexOf(p, k)
    ensures k !in Keys(p) ==> IndexOf(p + [e], k) == |p|
  {
    var i := IndexOf(p + [e], k);
    if k in Keys(p) {
      var i' := IndexOf(p, k);
      assert (p + [e])[i'] == p[i'];
    }
  }

  /** Rows (or columns) of a built table stand in the order their labels first appeared. */
  lemma {:induction false} BuildFirstAppearanceOrder<K, V>(es: seq<Entry<K, V>>, i: nat, j: nat)
    requires i < j < |Build(es)|
    ensures Build(es)[i].key in Keys(es) && Build(es)[j].key in Keys(es)
    ensures IndexOf(es, Build(es)[i].key) < IndexOf(es, Build(es)[j].key)
    decreases |es|, 1
  {
    var n := |es| - 1;
    var p := es[..n];
    if j < |Build(p)| {
      BuildOrderInPrefix(es, i, j);
    } else {
      BuildOrderLast(es, i, j);
    }
  }

  /** Two rows that the table built from all but the last entry already had keep their order. */
  lemma {:induction false} BuildOrderInPrefix<K, V>(es: seq<Entry<K, V>>, i: nat, j: nat)
    requires es != [] && i < j < |Build(es[..|es| - 1])| && j < |Build(es)|
    ensures Build(es)[i].key in Keys(es) && Build(es)[j].key in Keys(es)
    ensures IndexOf(es, Build(es)[i].key) < IndexOf(es, Build(es)[j].key)
    decreases |es|, 0
  {
    var n := |es| - 1;
    var p := es[..n];
    var b := Build(p);
    BuildKeepsRow(es, i);
    BuildKeepsRow(es, j);
    BuildFirstAppearanceOrder(p, i, j);
    var ki, kj := b[i].key, b[j].key;
    IndexOfInPrefix(es, ki);
    IndexOfInPrefix(es, kj);
  }

  /** A label that all but the last entry already carry is first found where it was. */
  lemma IndexOfInPrefix<K, V>(es: seq<Entry<K, V>>, k: K)
    requires es != [] && k in Keys(es[..|es| - 1])
    ensures k in Keys(es) && IndexOf(es, k) == IndexOf(es[..|es| - 1], k)
  {
    var p := es[..|es| - 1];
    var i := IndexOf(p, k);
    assert es[i] == p[i];
    forall x | 0 <= x < i
      ensures es[x].key != k
    {
      assert es[x] == p[x];
    }
    IndexOfIs(es, k, i);
  }

  /** The last upsert keeps the label of every row the table already had. */
  lemma BuildKeepsRow<K, V>(es: seq<Entry<K, V>>, i: nat)
    requires es != [] && i < |Build(es[..|es| - 1])|
    ensures i < |Build(es)| && Build(es)[i].key == Build(es[..|es| - 1])[i].key
  {
    var n := |es| - 1;
    var b := Build(es[..n]);
    var r := Build(es);
    assert es[..n] == es[..|es| - 1];
    assert Keys(r)[i] == Keys(b)[i];
  }

  /** A row that the last entry appended comes after every row the table already had. */
  lemma BuildOrderLast<K, V>(es: seq<Entry<K, V>>, i: nat, j: nat)
    requires es != [] && i < |Build(es[..|es| - 1])| <= j < |Build(es)|
    ensures Build(es)[i].key in Keys(es) && Build(es)[j].key in Keys(es)
    ensures IndexOf(es, Build(es)[i].key) < IndexOf(es, Build(es)[j].key)
  {
    var n := |es| - 1;
    var p := es[..n];
    var b := Build(p);
    BuildKeepsRow(es, i);
    BuildAppendedRow(es, j);
    var ki := b[i].key;
    assert Keys(b)[i] == ki;
    UpsertAllKeys([], p, ki);
    IndexOfInPrefix(es, ki);
    IndexOfLast(es);
  }

  /** A row past those of the table built from all but the last entry holds the last entry's label, which is new. */
  lemma BuildAppendedRow<K, V>(es: seq<Entry<K, V>>, j: nat)
    requires es != [] && |Build(es[..|es| - 1])| <= j < |Build(es)|
    ensures Build(es)[j].key == es[|es| - 1].key && es[|es| - 1].key !in Keys(es[..|es| - 1])
  {
    var n := |es| - 1;
    var p := es[..n];
    var b := Build(p);
    var r := Build(es);
    var k := es[n].key;
    assert Keys(r)[j] == r[j].key;
    assert k !in Keys(b);
    UpsertAllKeys([], p, k);
  }

  /** A label first carried by the last entry is first found there. */
  lemma IndexOfLast<K, V>(es: seq<Entry<K, V>>)
    requires es != [] && es[|es| - 1].key !in Keys(es[..|es| - 1])
    ensures es[|es| - 1].key in Keys(es) && IndexOf(es, es[|es| - 1].key) == |es| - 1
  {
    var n := |es| - 1;
    var p, k := es[..n], es[n].key;
    forall x | 0 <= x < n
      ensures es[x].key != k
    {
      assert Keys(p)[x] == es[x].key;
    }
    IndexOfIs(es, k, n);
  }

  /** `IndexOf` finds exactly the first position carrying the label. */
  lemma IndexOfIs<K, V>(t: seq<Entry<K, V>>, k: K, i: nat)
    requires i < |t| && t[i].key == k
    requires forall x :: 0 <= x < i ==> t[x].key != k
    ensures k in Keys(t) && IndexOf(t, k) == i
  {
    assert Keys(t)[i] == k;
  }
}
