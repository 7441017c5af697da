/**
 * Filling a string-keyed record one assignment at a time, in the order of a
 * sequence of key/value pairs. This is what `Object.fromEntries`, repeated
 * `Map.prototype.set` calls, and a `forEach` loop writing `record[k] = v` do:
 * every key ends up present, and a later pair for a key overwrites an earlier
 * one. The last of these differs for the key `__proto__`, which a plain
 * object's assignment does not store as an own property.
 */
module Records {

  /** The map `m` after assigning every pair of `ps`, first to last. */
  function Assign<V>(m: map<string, V>, ps: seq<(string, V)>): map<string, V>
    decreases |ps|
  {
    if |ps| == 0 then m
    else Assign(m, ps[..|ps| - 1])[ps[|ps| - 1].0 := ps[|ps| - 1].1]
  }

  function KeysOf<V>(ps: seq<(string, V)>): set<string> {
    set i | 0 <= i < |ps| :: ps[i].0
  }

  /** Pair `i` is the last one for its key. */
  ghost predicate LastForKey<V>(ps: seq<(string, V)>, i: int) {
    0 <= i < |ps| && forall j :: i < j < |ps| ==> ps[j].0 != ps[i].0
  }

  /** One more assignment at the end. */
  lemma AssignSnoc<V>(m: map<string, V>, ps: seq<(string, V)>, p: (string, V))
    ensures Assign(m, ps + [p]) == Assign(m, ps)[p.0 := p.1]
  {
    assert (ps + [p])[..|ps|] == ps;
  }

  /** The keys after the assignments are the old keys plus every assigned key. */
  lemma {:induction false} AssignKeys<V>(m: map<string, V>, ps: seq<(string, V)>)
    ensures Assign(m, ps).Keys == m.Keys + KeysOf(ps)
    decreases |ps|
  {
    if |ps| > 0 {
      var init := ps[..|ps| - 1];
      AssignKeys(m, init);
      assert KeysOf(ps) == KeysOf(init) + {ps[|ps| - 1].0} by {
        forall k | k in KeysOf(ps) ensures k in KeysOf(init) + {ps[|ps| - 1].0} {
          var i :| 0 <= i < |ps| && ps[i].0 == k;
          if i < |ps| - 1 {
            assert init[i] == ps[i];
          }
        }
        forall k | k in KeysOf(init) ensures k in KeysOf(ps) {
          var i :| 0 <= i < |init| && init[i].0 == k;
          assert ps[i] == init[i];
        }
      }
    }
  }

  /** The value of a key is the one of its last assignment. */
  lemma {:induction false} AssignLastWins<V>(m: map<string, V>, ps: seq<(string, V)>, i: nat)
    requires i < |ps|
    requires forall j :: i < j < |ps| ==> ps[j].0 != ps[i].0
    ensures ps[i].0 in Assign(m, ps) && Assign(m, ps)[ps[i].0] == ps[i].1
    decreases |ps|
  {
    if i < |ps| - 1 {
      var init := ps[..|ps| - 1];
      assert init[i] == ps[i];
      AssignLastWins(m, init, i);
    }
  }

  /** A key that no pair assigns keeps its old presence and value. */
  lemma {:induction false} AssignOther<V>(m: map<string, V>, ps: seq<(string, V)>, k: string)
    requires forall i :: 0 <= i < |ps| ==> ps[i].0 != k
    ensures k in Assign(m, ps) <==> k in m
    ensures k in m ==> Assign(m, ps)[k] == m[k]
    decreases |ps|
  {
    if |ps| > 0 {
      var init := ps[..|ps| - 1];
      assert forall i :: 0 <= i < |init| ==> init[i] == ps[i];
      AssignOther(m, init, k);
    }
  }

  /** When every pair assigns the same value, every assigned key holds it. */
  lemma {:induction false} AssignConstant<V>(m: map<string, V>, ps: seq<(string, V)>, v: V, k: string)
    requires forall i :: 0 <= i < |ps| ==> ps[i].1 == v
    requires k in KeysOf(ps)
    ensures k in Assign(m, ps) && Assign(m, ps)[k] == v
    decreases |ps|
  {
    var last := ps[|ps| - 1];
    if last.0 != k {
      var init := ps[..|ps| - 1];
      var i :| 0 <= i < |ps| && ps[i].0 == k;
      assert init[i] == ps[i];
      assert forall j :: 0 <= j < |init| ==> init[j] == ps[j];
      AssignConstant(m, init, v, k);
    }
  }
}
