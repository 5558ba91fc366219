/** Maps built by inserting key/value pairs in order (`HashMap::insert`
    in a loop): a later pair for a key replaces an earlier one. */
module Maps {

  function InsertAll<K(==, !new), V>(m: map<K, V>, kvs: seq<(K, V)>): (r: map<K, V>)
    ensures forall k :: k in r <==> k in m || exists i :: 0 <= i < |kvs| && kvs[i].0 == k
    decreases |kvs|
  {
    if |kvs| == 0 then m
    else
      var r := InsertAll(m[kvs[0].0 := kvs[0].1], kvs[1..]);
      assert forall i :: 1 <= i < |kvs| ==> kvs[i] == kvs[1..][i - 1];
      r
  }

  /** Pair `i` is the last one for its key. */
  predicate IsLast<K(==), V>(kvs: seq<(K, V)>, i: int)
  {
    0 <= i < |kvs| && forall j :: i < j < |kvs| ==> kvs[j].0 != kvs[i].0
  }

  /** The value of a key is that of its last pair. */
  lemma {:induction false} InsertAllLastWins<K(!new), V>(m: map<K, V>, kvs: seq<(K, V)>, i: int)
    requires IsLast(kvs, i)
    ensures kvs[i].0 in InsertAll(m, kvs) && InsertAll(m, kvs)[kvs[i].0] == kvs[i].1
    decreases |kvs|
  {
    var m' := m[kvs[0].0 := kvs[0].1];
    if i == 0 {
      InsertAllUntouched(m', kvs[1..], kvs[0].0);
    } else {
      assert IsLast(kvs[1..], i - 1);
      InsertAllLastWins(m', kvs[1..], i - 1);
    }
  }

  /** A key no pair mentions keeps its value in `m`. */
  lemma {:induction false} InsertAllUntouched<K(!new), V>(m: map<K, V>, kvs: seq<(K, V)>, k: K)
    requires forall i :: 0 <= i < |kvs| ==> kvs[i].0 != k
    ensures k in InsertAll(m, kvs) <==> k in m
    ensures k in m ==> InsertAll(m, kvs)[k] == m[k]
    decreases |kvs|
  {
    if |kvs| > 0 {
      assert forall i :: 0 <= i < |kvs| - 1 ==> kvs[1..][i] == kvs[i + 1];
      InsertAllUntouched(m[kvs[0].0 := kvs[0].1], kvs[1..], k);
    }
  }

  /** Inserting two runs of pairs is inserting their concatenation. */
  lemma {:induction false} InsertAllAppend<K(!new), V>(m: map<K, V>, a: seq<(K, V)>, b: seq<(K, V)>)
    ensures InsertAll(m, a + b) == InsertAll(InsertAll(m, a), b)
    decreases |a|
  {
    if |a| == 0 {
      assert a + b == b;
    } else {
      assert (a + b)[1..] == a[1..] + b;
      InsertAllAppend(m[a[0].0 := a[0].1], a[1..], b);
    }
  }
}
