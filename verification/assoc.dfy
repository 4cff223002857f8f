/** Building a lookup table from a list of key/value pairs, left to right, where a
    later pair overwrites an earlier one with the same key. This is what an
    `array.reduce((acc, e) => { acc[key(e)] = value(e); return acc; }, {})` computes. */
module Assoc {

  /** No pair after pair `i` carries the same key. */
  predicate IsLastOfKey<K(==), V>(pairs: seq<(K, V)>, i: int)
  {
    0 <= i < |pairs| &&
    forall j :: i < j < |pairs| ==> pairs[j].0 != pairs[i].0
  }

  /** The table holds exactly the keys of the list, and each key maps to the value of
      the last pair that carries it. */
  function ToMap<K(==,!new), V>(pairs: seq<(K, V)>): (m: map<K, V>)
    ensures forall k :: k in m <==> exists i :: 0 <= i < |pairs| && pairs[i].0 == k
    ensures forall i :: IsLastOfKey(pairs, i) ==> pairs[i].0 in m && m[pairs[i].0] == pairs[i].1
    decreases |pairs|
  {
    if |pairs| == 0 then map[]
    else
      var init := pairs[..|pairs| - 1];
      var last := pairs[|pairs| - 1];
      assert pairs == init + [last];
      var m0 := ToMap(init);
      ToMapStep(init, last, m0);
      m0[last.0 := last.1]
  }

  /** One step of the left-to-right build: appending a pair updates its key. */
  lemma ToMapStep<K(!new), V>(init: seq<(K, V)>, last: (K, V), m0: map<K, V>)
    requires forall k :: k in m0 <==> exists i :: 0 <= i < |init| && init[i].0 == k
    requires forall i :: IsLastOfKey(init, i) ==> init[i].0 in m0 && m0[init[i].0] == init[i].1
    ensures var pairs := init + [last];
      var m := m0[last.0 := last.1];
      && (forall k :: k in m <==> exists i :: 0 <= i < |pairs| && pairs[i].0 == k)
      && (forall i :: IsLastOfKey(pairs, i) ==> pairs[i].0 in m && m[pairs[i].0] == pairs[i].1)
  {
    StepKeys(init, last, m0, m0[last.0 := last.1]);
    StepValues(init, last, m0);
  }

  lemma StepKeys<K(!new), V>(init: seq<(K, V)>, last: (K, V), m0: map<K, V>, m: map<K, V>)
    requires forall k :: k in m0 <==> exists i :: 0 <= i < |init| && init[i].0 == k
    requires m == m0[last.0 := last.1]
    ensures var pairs := init + [last];
      forall k :: k in m <==> exists i :: 0 <= i < |pairs| && pairs[i].0 == k
  {
    var pairs := init + [last];
    var n := |pairs|;
    forall k | k in m ensures exists i :: 0 <= i < n && pairs[i].0 == k {
      if k != last.0 {
        var i :| 0 <= i < |init| && init[i].0 == k;
        assert pairs[i] == init[i];
      } else {
        assert pairs[n - 1] == last;
      }
    }
    forall k | exists i :: 0 <= i < n && pairs[i].0 == k ensures k in m {
      var i :| 0 <= i < n && pairs[i].0 == k;
      if i < n - 1 { assert init[i] == pairs[i]; }
    }
  }

  lemma StepValues<K(!new), V>(init: seq<(K, V)>, last: (K, V), m0: map<K, V>)
    requires forall i :: IsLastOfKey(init, i) ==> init[i].0 in m0 && m0[init[i].0] == init[i].1
    ensures var pairs := init + [last];
      var m := m0[last.0 := last.1];
      forall i :: IsLastOfKey(pairs, i) ==> pairs[i].0 in m && m[pairs[i].0] == pairs[i].1
  {
    var pairs := init + [last];
    var n := |pairs|;
    var m := m0[last.0 := last.1];
    forall i | IsLastOfKey(pairs, i) ensures pairs[i].0 in m && m[pairs[i].0] == pairs[i].1 {
      if i < n - 1 {
        assert init[i] == pairs[i];
        assert pairs[n - 1] == last;
        forall j | i < j < |init| ensures init[j].0 != init[i].0 {
          assert init[j] == pairs[j];
        }
      }
    }
  }

  /** The position of the last pair carrying `key`, or -1 when there is none. */
  function LastIndexOf<K(==), V>(pairs: seq<(K, V)>, key: K): (p: int)
    ensures -1 <= p < |pairs|
    ensures p == -1 <==> forall i :: 0 <= i < |pairs| ==> pairs[i].0 != key
    ensures p >= 0 ==> IsLastOfKey(pairs, p) && pairs[p].0 == key
    decreases |pairs|
  {
    if |pairs| == 0 then -1
    else if pairs[|pairs| - 1].0 == key then |pairs| - 1
    else
      var init := pairs[..|pairs| - 1];
      assert forall i :: 0 <= i < |init| ==> init[i] == pairs[i];
      LastIndexOf(init, key)
  }
}
