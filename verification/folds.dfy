/** Building a dictionary from a sequence of candidate insertions, either
    with `d.setdefault(k, v)` (the first value offered for a key stays) or
    with `d[k] = v` (the last value offered for a key stays). */
module Folds {

  /** One step of a scan: nothing to insert, or a key and its value. Keys
      are dictionary keys such as band names. */
  datatype Entry<V> = Skip | Put(key: string, value: V)

  predicate PutsKey<V>(e: Entry<V>, k: string)
  {
    e.Put? && e.key == k
  }

  /** Some entry offers key `k`. */
  predicate HasKey<V>(es: seq<Entry<V>>, k: string)
  {
    exists i :: 0 <= i < |es| && PutsKey(es[i], k)
  }

  /** Entry `i` is the first to offer its key. */
  predicate IsFirst<V>(es: seq<Entry<V>>, i: int)
  {
    && 0 <= i < |es|
    && es[i].Put?
    && forall j :: 0 <= j < i ==> !PutsKey(es[j], es[i].key)
  }

  /** Entry `i` is the last to offer its key. */
  predicate IsLast<V>(es: seq<Entry<V>>, i: int)
  {
    && 0 <= i < |es|
    && es[i].Put?
    && forall j :: i < j < |es| ==> !PutsKey(es[j], es[i].key)
  }

  /** `for e in es: d.setdefault(e.key, e.value)`, starting from `acc`. A key
      ends up in the result exactly when it was there or is offered; keys
      already there keep their value, and every other key gets the value of
      its first offer. */
  function FirstWins<V>(es: seq<Entry<V>>, acc: map<string, V>): (r: map<string, V>)
    ensures forall k :: k in r <==> k in acc || HasKey(es, k)
    ensures forall k :: k in acc ==> r[k] == acc[k]
    ensures forall i :: IsFirst(es, i) && es[i].key !in acc ==> es[i].key in r && r[es[i].key] == es[i].value
    decreases |es|
  {
    if |es| == 0 then acc
    else
      var e := es[0];
      var acc' := if e.Put? && e.key !in acc then acc[e.key := e.value] else acc;
      var r := FirstWins(es[1..], acc');
      forall k ensures HasKey(es, k) <==> PutsKey(e, k) || HasKey(es[1..], k) {
        if HasKey(es, k) && !PutsKey(e, k) {
          var i :| 0 <= i < |es| && PutsKey(es[i], k);
          assert es[1..][i - 1] == es[i];
        }
        if HasKey(es[1..], k) {
          var i :| 0 <= i < |es[1..]| && PutsKey(es[1..][i], k);
          assert es[i + 1] == es[1..][i];
        }
      }
      forall i | IsFirst(es, i) && es[i].key !in acc ensures es[i].key in r && r[es[i].key] == es[i].value {
        if i > 0 {
          assert !PutsKey(es[0], es[i].key);
          assert IsFirst(es[1..], i - 1) by {
            forall j | 0 <= j < i - 1 ensures !PutsKey(es[1..][j], es[1..][i - 1].key) {
              assert es[1..][j] == es[j + 1];
            }
          }
        }
      }
      r
  }

  /** `for e in es: d[e.key] = e.value`, starting from `acc`. A key ends up
      in the result exactly when it was there or is offered; offered keys get
      the value of their last offer, and the others keep theirs. */
  function LastWins<V>(es: seq<Entry<V>>, acc: map<string, V>): (r: map<string, V>)
    ensures forall k :: k in r <==> k in acc || HasKey(es, k)
    ensures forall k :: k in acc && !HasKey(es, k) ==> r[k] == acc[k]
    ensures forall i :: IsLast(es, i) ==> es[i].key in r && r[es[i].key] == es[i].value
    decreases |es|
  {
    if |es| == 0 then acc
    else
      var init := es[..|es| - 1];
      var e := es[|es| - 1];
      var m := LastWins(init, acc);
      var r := if e.Put? then m[e.key := e.value] else m;
      forall k ensures HasKey(es, k) <==> PutsKey(e, k) || HasKey(init, k) {
        if HasKey(es, k) && !PutsKey(e, k) {
          var i :| 0 <= i < |es| && PutsKey(es[i], k);
          assert init[i] == es[i];
        }
        if HasKey(init, k) {
          var i :| 0 <= i < |init| && PutsKey(init[i], k);
          assert es[i] == init[i];
        }
      }
      forall i | IsLast(es, i) ensures es[i].key in r && r[es[i].key] == es[i].value {
        if i < |es| - 1 {
          assert !PutsKey(e, es[i].key);
          assert IsLast(init, i) by {
            forall j | i < j < |init| ensures !PutsKey(init[j], init[i].key) {
              assert init[j] == es[j];
            }
          }
        }
      }
      r
  }

  /** An offered key has a first offer. */
  lemma {:induction false} FirstExists<V>(es: seq<Entry<V>>, k: string)
    requires HasKey(es, k)
    ensures exists i :: IsFirst(es, i) && es[i].key == k
    decreases |es|
  {
    if PutsKey(es[0], k) {
      assert IsFirst(es, 0);
    } else {
      var i :| 0 <= i < |es| && PutsKey(es[i], k);
      assert PutsKey(es[1..][i - 1], k);
      FirstExists(es[1..], k);
      var j :| IsFirst(es[1..], j) && es[1..][j].key == k;
      assert IsFirst(es, j + 1) by {
        forall l | 0 <= l < j + 1 ensures !PutsKey(es[l], k) {
          if l > 0 {
            assert es[l] == es[1..][l - 1];
          }
        }
      }
    }
  }

  /** An offered key has a last offer. */
  lemma {:induction false} LastExists<V>(es: seq<Entry<V>>, k: string)
    requires HasKey(es, k)
    ensures exists i :: IsLast(es, i) && es[i].key == k
    decreases |es|
  {
    var n := |es| - 1;
    if PutsKey(es[n], k) {
      assert IsLast(es, n);
    } else {
      var init := es[..n];
      var i :| 0 <= i < |es| && PutsKey(es[i], k);
      assert PutsKey(init[i], k);
      LastExists(init, k);
      var j :| IsLast(init, j) && init[j].key == k;
      assert IsLast(es, j) by {
        forall l | j < l < |es| ensures !PutsKey(es[l], k) {
          if l < n {
            assert es[l] == init[l];
          }
        }
      }
    }
  }
}
