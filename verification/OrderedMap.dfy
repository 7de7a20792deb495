/**
 * A JavaScript Map as the list of its entries: setting a new key appends, setting a
 * known key replaces the value where it stands.
 */
module OrderedMap {
  import opened Outcomes

  datatype Entry<K, V> = Entry(key: K, value: V)

  predicate Has<K(==), V>(s: seq<Entry<K, V>>, k: K) {
    exists i :: 0 <= i < |s| && s[i].key == k
  }

  ghost predicate Unique<K, V>(s: seq<Entry<K, V>>) {
    forall i, j :: 0 <= i < j < |s| ==> s[i].key != s[j].key
  }

  function Put<K(==), V>(s: seq<Entry<K, V>>, k: K, v: V): seq<Entry<K, V>> {
    if s == [] then [Entry(k, v)]
    else if s[0].key == k then [Entry(k, v)] + s[1..]
    else [s[0]] + Put(s[1..], k, v)
  }

  /** new Map(entries) */
  function FromEntries<K(==), V>(s: seq<Entry<K, V>>): seq<Entry<K, V>> {
    if s == [] then [] else Put(FromEntries(s[..|s| - 1]), s[|s| - 1].key, s[|s| - 1].value)
  }

  /** A new key goes to the end. */
  lemma {:induction false} PutNew<K, V>(s: seq<Entry<K, V>>, k: K, v: V)
    requires !Has(s, k)
    ensures Put(s, k, v) == s + [Entry(k, v)]
  {
    if s != [] {
      assert s[0].key != k;
      assert !Has(s[1..], k) by {
        forall i | 0 <= i < |s[1..]| ensures s[1..][i].key != k {
          assert s[1..][i] == s[i + 1];
        }
      }
      PutNew(s[1..], k, v);
    }
  }

  /** A known key keeps its place. */
  lemma {:induction false} PutKnown<K, V>(s: seq<Entry<K, V>>, i: nat, v: V)
    requires Unique(s) && i < |s|
    ensures Put(s, s[i].key, v) == s[i := Entry(s[i].key, v)]
  {
    hide Unique;
    var e := Entry(s[i].key, v);
    if i == 0 {
      assert [e] + s[1..] == s[0 := e];
    } else {
      TailUnique(s);
      PutKnown(s[1..], i - 1, v);
      UpdateInTail(s, i, e);
    }
  }

  lemma TailUnique<K, V>(s: seq<Entry<K, V>>)
    requires s != [] && Unique(s)
    ensures Unique(s[1..]) && forall i :: 0 < i < |s| ==> s[i].key != s[0].key
  {
  }

  lemma UpdateInTail<K, V>(s: seq<Entry<K, V>>, i: nat, e: Entry<K, V>)
    requires 0 < i < |s|
    ensures [s[0]] + s[1..][i - 1 := e] == s[i := e]
    ensures s[1..][i - 1] == s[i]
  {
  }

  lemma PutKeeps<K, V>(s: seq<Entry<K, V>>, k: K, v: V)
    requires Unique(s)
    ensures Unique(Put(s, k, v))
    ensures Has(Put(s, k, v), k)
    ensures forall j :: Has(s, j) ==> Has(Put(s, k, v), j)
    ensures forall e :: e in Put(s, k, v) ==> e == Entry(k, v) || e in s
    ensures forall e :: e in s && e.key != k ==> e in Put(s, k, v)
  {
    if Has(s, k) {
      var i :| 0 <= i < |s| && s[i].key == k;
      PutKnown(s, i, v);
      var t := s[i := Entry(k, v)];
      forall j | Has(s, j) ensures Has(t, j) {
        var x :| 0 <= x < |s| && s[x].key == j;
        assert t[x].key == j;
      }
      assert t[i].key == k;
      forall e | e in s && e.key != k ensures e in t {
        var x :| 0 <= x < |s| && s[x] == e;
        assert t[x] == e;
      }
    } else {
      PutNew(s, k, v);
      var t := s + [Entry(k, v)];
      assert t[|s|].key == k;
      forall j | Has(s, j) ensures Has(t, j) {
        var x :| 0 <= x < |s| && s[x].key == j;
        assert t[x].key == j;
      }
    }
  }

  lemma {:induction false} FromEntriesFixed<K, V>(s: seq<Entry<K, V>>)
    requires Unique(s)
    ensures FromEntries(s) == s
  {
    if s != [] {
      var n := |s| - 1;
      SplitLast(s);
      FromEntriesFixed(s[..n]);
      forall i | 0 <= i < n ensures s[..n][i].key != s[n].key {
      }
      PutNew(s[..n], s[n].key, s[n].value);
    }
  }
}
