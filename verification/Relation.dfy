/** A map from keys to sets, seen as the set of its pairs. */
module Relation {

  ghost function Pairs<K, V>(m: map<K, set<V>>): set<(K, V)> {
    set k, v | k in m && v in m[k] :: (k, v)
  }

  ghost predicate NoEmpty<K, V>(m: map<K, set<V>>) {
    forall k :: k in m ==> m[k] != {}
  }

  /** Two maps that are each other's reverse index, neither with a dead entry. */
  ghost predicate Converse<K(!new), V(!new)>(m: map<K, set<V>>, w: map<V, set<K>>) {
    NoEmpty(m) && NoEmpty(w) && ConversePairs(m, w)
  }

  ghost predicate ConversePairs<K(!new), V(!new)>(m: map<K, set<V>>, w: map<V, set<K>>) {
    forall k, v :: (k, v) in Pairs(m) <==> (v, k) in Pairs(w)
  }

  function Row<K, V>(m: map<K, set<V>>, key: K): set<V> {
    if key in m then m[key] else {}
  }

  function Insert<K, V>(m: map<K, set<V>>, key: K, value: V): map<K, set<V>> {
    m[key := Row(m, key) + {value}]
  }

  /** Removes one pair, and the entry with it when nothing is left there. */
  function Remove<K, V>(m: map<K, set<V>>, key: K, value: V): map<K, set<V>> {
    if key !in m then m
    else if m[key] - {value} == {} then m - {key}
    else m[key := m[key] - {value}]
  }

  /** Removes one pair and leaves the entry, empty or not. */
  function Erase<K, V>(m: map<K, set<V>>, key: K, value: V): map<K, set<V>> {
    if key in m then m[key := m[key] - {value}] else m
  }

  /** Drops an entry that has become empty. */
  function Tidy<K, V>(m: map<K, set<V>>, key: K): map<K, set<V>> {
    if key in m && m[key] == {} then m - {key} else m
  }

  /** Only the entry of `key` may be empty. */
  ghost predicate NoEmptyBut<K, V>(m: map<K, set<V>>, key: K) {
    forall k :: k in m && k != key ==> m[k] != {}
  }

  lemma {:induction false} ErasePairs<K, V>(m: map<K, set<V>>, key: K, value: V)
    ensures Pairs(Erase(m, key, value)) == Pairs(m) - {(key, value)}
    ensures NoEmptyBut(m, key) ==> NoEmptyBut(Erase(m, key, value), key)
  {
    var n := Erase(m, key, value);
    forall k, v ensures (k, v) in Pairs(n) <==> (k, v) in Pairs(m) - {(key, value)} {
    }
  }

  lemma {:induction false} TidyPairs<K, V>(m: map<K, set<V>>, key: K)
    ensures Pairs(Tidy(m, key)) == Pairs(m)
    ensures NoEmptyBut(m, key) ==> NoEmpty(Tidy(m, key))
  {
    var n := Tidy(m, key);
    forall k, v ensures (k, v) in Pairs(n) <==> (k, v) in Pairs(m) {
    }
  }

  lemma {:induction false} InsertPairs<K, V>(m: map<K, set<V>>, key: K, value: V)
    ensures Pairs(Insert(m, key, value)) == Pairs(m) + {(key, value)}
    ensures NoEmpty(m) ==> NoEmpty(Insert(m, key, value))
  {
    var n := Insert(m, key, value);
    forall k, v ensures (k, v) in Pairs(n) <==> (k, v) in Pairs(m) + {(key, value)} {
    }
  }

  lemma {:induction false} RemovePairs<K, V>(m: map<K, set<V>>, key: K, value: V)
    ensures Pairs(Remove(m, key, value)) == Pairs(m) - {(key, value)}
    ensures NoEmpty(m) ==> NoEmpty(Remove(m, key, value))
  {
    var n := Remove(m, key, value);
    forall k, v ensures (k, v) in Pairs(n) <==> (k, v) in Pairs(m) - {(key, value)} {
      assert k in m ==> (v in m[k] - {value} <==> v in m[k] && v != value);
    }
  }

  lemma {:induction false} RowPairs<K, V>(m: map<K, set<V>>, key: K, value: V)
    ensures value in Row(m, key) <==> (key, value) in Pairs(m)
  {
  }

  lemma {:induction false} ConverseInsert<K(!new), V(!new)>(m: map<K, set<V>>, w: map<V, set<K>>, key: K, value: V)
    requires Converse(m, w)
    ensures Converse(Insert(m, key, value), Insert(w, value, key))
  {
    InsertPairs(m, key, value);
    InsertPairs(w, value, key);
  }

  lemma {:induction false} ConverseErase<K(!new), V(!new)>(m: map<K, set<V>>, w: map<V, set<K>>, key: K, value: V)
    requires ConversePairs(m, w)
    ensures ConversePairs(Erase(m, key, value), Remove(w, value, key))
    ensures Pairs(Erase(m, key, value)) == Pairs(m) - {(key, value)}
    ensures NoEmptyBut(m, key) ==> NoEmptyBut(Erase(m, key, value), key)
    ensures NoEmpty(w) ==> NoEmpty(Remove(w, value, key))
  {
    ErasePairs(m, key, value);
    RemovePairs(w, value, key);
  }

  // ---------------------------------------------------------------------
  // Counting pairs
  // ---------------------------------------------------------------------

  lemma {:induction false} RowSize<K, V>(key: K, row: set<V>)
    ensures |set v | v in row :: (key, v)| == |row|
    decreases |row|
  {
    if row == {} {
    } else {
      var v :| v in row;
      var rest := row - {v};
      RowSize(key, rest);
      assert (set x | x in row :: (key, x)) == (set x | x in rest :: (key, x)) + {(key, v)};
    }
  }

  lemma {:induction false} SplitRow<K, V>(m: map<K, set<V>>, key: K)
    requires key in m
    ensures |Pairs(m)| == |Pairs(m - {key})| + |m[key]|
  {
    var row := set v | v in m[key] :: (key, v);
    RowSize(key, m[key]);
    assert Pairs(m) == Pairs(m - {key}) + row by {
      forall k, v ensures (k, v) in Pairs(m) <==> (k, v) in Pairs(m - {key}) + row {
      }
    }
    assert Pairs(m - {key}) !! row;
  }

  lemma {:induction false} FlipSize<K(!new), V(!new)>(p: set<(K, V)>, q: set<(V, K)>)
    requires forall k, v :: (k, v) in p <==> (v, k) in q
    ensures |p| == |q|
    decreases |p|
  {
    if p == {} {
      assert q == {} by {
        forall y ensures y !in q {
          assert (y.0, y.1) in q <==> (y.1, y.0) in p;
        }
      }
    } else {
      var x :| x in p;
      assert (x.0, x.1) in p;
      FlipSize(p - {x}, q - {(x.1, x.0)});
    }
  }

  /** Counting subscriptions by channel or by client gives the same number. */
  lemma {:induction false} ConverseSize<K(!new), V(!new)>(m: map<K, set<V>>, w: map<V, set<K>>)
    requires Converse(m, w)
    ensures |Pairs(m)| == |Pairs(w)|
  {
    FlipSize(Pairs(m), Pairs(w));
  }

  /** The two ways of adding up the sizes agree, whatever the order of either map. */
  lemma {:induction false} SumsAgree<K(!new), V(!new)>(m: map<K, set<V>>, w: map<V, set<K>>, keys: seq<K>,
                                                       values: seq<V>)
    requires Converse(m, w)
    requires (forall k :: k in m <==> k in keys) && (forall v :: v in w <==> v in values)
    requires forall i, j :: 0 <= i < j < |keys| ==> keys[i] != keys[j]
    requires forall i, j :: 0 <= i < j < |values| ==> values[i] != values[j]
    ensures SumSizes(m, keys) == SumSizes(w, values)
  {
    SumIsPairs(m, keys);
    SumIsPairs(w, values);
    ConverseSize(m, w);
  }

  /** The sum of the sizes of the entries, in any order of the keys. */
  ghost function SumSizes<K, V>(m: map<K, set<V>>, order: seq<K>): nat
    requires forall i :: 0 <= i < |order| ==> order[i] in m
  {
    if order == [] then 0 else |m[order[0]]| + SumSizes(m, order[1..])
  }

  lemma {:induction false} SumIsPairs<K, V>(m: map<K, set<V>>, order: seq<K>)
    requires forall k :: k in m <==> k in order
    requires forall i, j :: 0 <= i < j < |order| ==> order[i] != order[j]
    ensures SumSizes(m, order) == |Pairs(m)|
    decreases |order|
  {
    if order == [] {
      assert Pairs(m) == {};
    } else {
      var rest := m - {order[0]};
      assert order[0] in m;
      SplitRow(m, order[0]);
      SumIsPairs(rest, order[1..]);
      SumDepends(m, rest, order[1..]);
    }
  }

  lemma {:induction false} SumDepends<K, V>(m: map<K, set<V>>, n: map<K, set<V>>, order: seq<K>)
    requires forall i :: 0 <= i < |order| ==> order[i] in m && order[i] in n && m[order[i]] == n[order[i]]
    ensures SumSizes(m, order) == SumSizes(n, order)
    decreases |order|
  {
    if order == [] {
    } else {
      SumDepends(m, n, order[1..]);
    }
  }
}
