/**
 * Python dictionaries with string keys, as insertion-ordered association
 * lists. `Put` is item assignment `d[k] = v`; `Literal` is a dict display
 * `{k1: v1, k2: v2, ...}`, evaluated left to right, so a repeated key keeps
 * the position of its first occurrence and the value of its last.
 */
module Dicts {
  import opened Wrappers

  type Dict<V> = seq<(string, V)>

  function Keys<V>(d: Dict<V>): (ks: seq<string>)
    ensures |ks| == |d|
    ensures forall i | 0 <= i < |d| :: ks[i] == d[i].0
  {
    seq(|d|, i requires 0 <= i < |d| => d[i].0)
  }

  predicate Distinct(ks: seq<string>) {
    forall i, j | 0 <= i < j < |ks| :: ks[i] != ks[j]
  }

  /** `d.get(k)`: the value stored under `k`, if any. */
  function Lookup<V>(d: Dict<V>, k: string): (r: Option<V>)
    ensures r.Some? <==> k in Keys(d)
  {
    if |d| == 0 then None
    else if d[0].0 == k then Some(d[0].1)
    else
      assert Keys(d) == [d[0].0] + Keys(d[1..]);
      Lookup(d[1..], k)
  }

  lemma KeysCons<V>(x: (string, V), d: Dict<V>)
    ensures Keys([x] + d) == [x.0] + Keys(d)
  {
  }

  lemma LookupCons<V>(x: (string, V), d: Dict<V>, k: string)
    ensures Lookup([x] + d, k) == if x.0 == k then Some(x.1) else Lookup(d, k)
  {
    assert ([x] + d)[0] == x;
    assert ([x] + d)[1..] == d;
  }

  /** With distinct keys, each entry's key reads that entry's value. */
  lemma {:induction false} LookupDistinct<V>(d: Dict<V>, i: nat)
    requires Distinct(Keys(d)) && i < |d|
    ensures Lookup(d, d[i].0) == Some(d[i].1)
  {
    var t := d[1..];
    assert d == [d[0]] + t;
    LookupCons(d[0], t, d[i].0);
    if i > 0 {
      var ks := Keys(d);
      assert ks[0] != ks[i];
      assert Distinct(Keys(t)) by {
        forall a, b | 0 <= a < b < |t|
          ensures Keys(t)[a] != Keys(t)[b]
        {
          assert Keys(t)[a] == ks[a + 1] && Keys(t)[b] == ks[b + 1];
        }
      }
      assert t[i - 1] == d[i];
      LookupDistinct(t, i - 1);
    }
  }

  /** Lookup in a two-entry dict. */
  lemma LookupPair<V>(a: (string, V), b: (string, V), k: string)
    ensures Lookup([a, b], k) == if a.0 == k then Some(a.1) else if b.0 == k then Some(b.1) else None
  {
    LookupCons(a, [b], k);
    LookupCons(b, [], k);
    assert [a, b] == [a] + [b];
    assert [b] == [b] + [];
  }

  /** `d[k] = v`: overwrite in place if `k` is present, append otherwise. */
  function Put<V>(d: Dict<V>, k: string, v: V): (r: Dict<V>)
    ensures Keys(r) == if k in Keys(d) then Keys(d) else Keys(d) + [k]
    ensures k !in Keys(d) ==> r == d + [(k, v)]
  {
    if |d| == 0 then [(k, v)]
    else
      assert d == [d[0]] + d[1..];
      KeysCons(d[0], d[1..]);
      if d[0].0 == k then
        KeysCons((k, v), d[1..]);
        [(k, v)] + d[1..]
      else
        var t := Put(d[1..], k, v);
        KeysCons(d[0], t);
        [d[0]] + t
  }

  /** After `d[k] = v`, `k` reads `v` and every other key reads as before. */
  lemma {:induction false} LookupPut<V>(d: Dict<V>, k: string, v: V, k': string)
    ensures Lookup(Put(d, k, v), k') == if k' == k then Some(v) else Lookup(d, k')
  {
    if |d| > 0 {
      assert d == [d[0]] + d[1..];
      LookupCons(d[0], d[1..], k');
      if d[0].0 == k {
        LookupCons((k, v), d[1..], k');
      } else {
        LookupPut(d[1..], k, v, k');
        LookupCons(d[0], Put(d[1..], k, v), k');
      }
    }
  }

  /** `if cond: d[k] = v` */
  function PutIf<V>(d: Dict<V>, cond: bool, k: string, v: V): Dict<V> {
    if cond then Put(d, k, v) else d
  }

  /** Conditionally assigning a new key appends it, or leaves the dict alone. */
  lemma PutIfNew<V>(d: Dict<V>, cond: bool, k: string, v: V)
    requires k !in Keys(d)
    ensures PutIf(d, cond, k, v) == d + (if cond then [(k, v)] else [])
  {
  }

  /** The value of the last entry for `k` among `entries`. */
  function LastValue<V>(entries: seq<(string, V)>, k: string): Option<V> {
    if |entries| == 0 then None
    else if entries[|entries| - 1].0 == k then Some(entries[|entries| - 1].1)
    else LastValue(entries[..|entries| - 1], k)
  }

  /** First occurrences of each key, in order. */
  function Dedup(ks: seq<string>): (r: seq<string>)
    ensures Distinct(r)
    ensures forall k :: k in r <==> k in ks
    ensures |r| <= |ks|
  {
    if |ks| == 0 then []
    else
      var p := Dedup(ks[..|ks| - 1]);
      var k := ks[|ks| - 1];
      assert ks == ks[..|ks| - 1] + [k];
      if k in p then p else p + [k]
  }

  /** `{k1: v1, ..., kn: vn}`. */
  function Literal<V>(entries: seq<(string, V)>): (r: Dict<V>)
    ensures Keys(r) == Dedup(Keys(entries))
  {
    if |entries| == 0 then []
    else
      var init := entries[..|entries| - 1];
      var last := entries[|entries| - 1];
      assert Keys(init) == Keys(entries)[..|entries| - 1];
      Put(Literal(init), last.0, last.1)
  }

  /** Dropping the last key keeps distinctness, and the last key is new. */
  lemma DistinctSnoc(ks: seq<string>)
    requires |ks| > 0
    ensures Distinct(ks) <==> Distinct(ks[..|ks| - 1]) && ks[|ks| - 1] !in ks[..|ks| - 1]
  {
    var n := |ks| - 1;
    if Distinct(ks) {
      assert Distinct(ks[..n]) by {
        forall i, j | 0 <= i < j < n ensures ks[..n][i] != ks[..n][j] {
          assert ks[i] != ks[j];
        }
      }
      forall i | 0 <= i < n ensures ks[..n][i] != ks[n] {
        assert ks[i] != ks[n];
      }
    }
    if Distinct(ks[..n]) && ks[n] !in ks[..n] {
      forall i, j | 0 <= i < j < |ks| ensures ks[i] != ks[j] {
        assert ks[i] == ks[..n][i];
        if j < n {
          assert ks[j] == ks[..n][j];
        }
      }
    }
  }

  /** In a display, each key reads the value of its last entry. */
  lemma {:induction false} LookupLiteral<V>(entries: seq<(string, V)>, k: string)
    ensures Lookup(Literal(entries), k) == LastValue(entries, k)
  {
    if |entries| > 0 {
      var init := entries[..|entries| - 1];
      var last := entries[|entries| - 1];
      LookupLiteral(init, k);
      LookupPut(Literal(init), last.0, last.1, k);
    }
  }

  lemma {:induction false} LiteralOfDistinct<V>(entries: seq<(string, V)>)
    requires Distinct(Keys(entries))
    ensures Literal(entries) == entries
  {
    if |entries| > 0 {
      var n := |entries| - 1;
      var init := entries[..n];
      var last := entries[n];
      assert Keys(init) == Keys(entries)[..n];
      DistinctSnoc(Keys(entries));
      assert entries == init + [last];
      LiteralOfDistinct(init);
      assert Keys(entries)[n] == last.0;
      assert last.0 !in Keys(init);
      assert Put(init, last.0, last.1) == init + [(last.0, last.1)];
    }
  }

  lemma {:induction false} DistinctOfFullLiteral<V>(entries: seq<(string, V)>)
    requires |Literal(entries)| == |entries|
    ensures Distinct(Keys(entries))
  {
    if |entries| > 0 {
      var init := entries[..|entries| - 1];
      var last := entries[|entries| - 1];
      var ks := Keys(entries);
      assert Keys(init) == ks[..|entries| - 1];
      assert |Literal(init)| <= |init| by {
        assert |Keys(Literal(init))| == |Dedup(Keys(init))|;
      }
      assert |Literal(init)| == |init| && last.0 !in Keys(Literal(init));
      DistinctOfFullLiteral(init);
      assert last.0 !in Keys(init);
      forall i, j | 0 <= i < j < |ks| ensures ks[i] != ks[j] {
        if j < |entries| - 1 {
          assert ks[i] == Keys(init)[i] && ks[j] == Keys(init)[j];
        } else {
          assert ks[i] == Keys(init)[i];
        }
      }
    }
  }

  /** A display keeps every entry exactly when its keys are distinct. */
  lemma LiteralSize<V>(entries: seq<(string, V)>)
    ensures |Literal(entries)| <= |entries|
    ensures |Literal(entries)| == |entries| <==> Distinct(Keys(entries))
  {
    assert |Keys(Literal(entries))| == |Dedup(Keys(entries))|;
    if Distinct(Keys(entries)) {
      LiteralOfDistinct(entries);
    }
    if |Literal(entries)| == |entries| {
      DistinctOfFullLiteral(entries);
    }
  }

  /** The set of keys named in a key sequence. */
  function KeySet(ks: seq<string>): set<string> {
    set k | k in ks
  }

  lemma {:induction false} DistinctCard(ks: seq<string>)
    requires Distinct(ks)
    ensures |KeySet(ks)| == |ks|
  {
    if |ks| > 0 {
      var n := |ks| - 1;
      DistinctSnoc(ks);
      DistinctCard(ks[..n]);
      assert KeySet(ks) == KeySet(ks[..n]) + {ks[n]} by {
        assert ks == ks[..|ks| - 1] + [ks[|ks| - 1]];
      }
      assert ks[n] !in KeySet(ks[..n]);
    }
  }

  /** A display has one entry per distinct key. */
  lemma LiteralSizeIsKeyCount<V>(entries: seq<(string, V)>)
    ensures |Literal(entries)| == |KeySet(Keys(entries))|
  {
    var d := Dedup(Keys(entries));
    assert |Literal(entries)| == |d| by {
      assert |Keys(Literal(entries))| == |Literal(entries)|;
    }
    DistinctCard(d);
    SameKeySet(d, Keys(entries));
  }

  lemma SameKeySet(a: seq<string>, b: seq<string>)
    requires forall k :: k in a <==> k in b
    ensures KeySet(a) == KeySet(b)
  {
  }

  lemma LastValueSnoc<V>(entries: seq<(string, V)>, x: (string, V), k: string)
    ensures LastValue(entries + [x], k) == if x.0 == k then Some(x.1) else LastValue(entries, k)
  {
    assert (entries + [x])[..|entries|] == entries;
  }
}
