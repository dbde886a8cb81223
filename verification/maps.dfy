/** The in-memory stores keep `HashMap`s keyed by id. Listing a map's values
    is modelled as listing them by ascending key; callers rely only on which
    values are listed, not on their order. */
module Maps {

  /** `k` is the least element of `s`. */
  predicate IsLeast(k: int, s: set<int>) {
    k in s && forall y :: y in s ==> k <= y
  }

  /** Every non-empty finite set of ids has a least element. */
  lemma {:induction false} LeastExists(s: set<int>)
    requires s != {}
    ensures exists k :: IsLeast(k, s)
    decreases |s|
  {
    assert (forall y :: y !in s) ==> s == {};
    var x :| x in s;
    var rest := s - {x};
    if rest == {} {
      assert forall y :: y in s ==> y == x by {
        forall y | y in s ensures y == x {
          assert y !in rest;
        }
      }
      assert IsLeast(x, s);
    } else {
      LeastExists(rest);
      var m :| IsLeast(m, rest);
      var least := if x < m then x else m;
      assert s == rest + {x};
      assert IsLeast(least, s);
    }
  }

  /** The least key of a non-empty key set. */
  function Least(s: set<int>): (k: int)
    requires s != {}
    ensures k in s && forall y :: y in s ==> k <= y
  {
    LeastExists(s);
    var k :| IsLeast(k, s);
    k
  }

  /** `new ArrayList<>(map.values())`: one entry per key. */
  function ValuesByKey<V>(m: map<int, V>): (r: seq<V>)
    ensures |r| == |m.Keys|
    ensures forall k :: k in m ==> m[k] in r
    ensures forall i :: 0 <= i < |r| ==> exists k :: k in m && m[k] == r[i]
    decreases |m.Keys|
  {
    if m.Keys == {} then []
    else
      var k := Least(m.Keys);
      var rest := m - {k};
      assert rest.Keys == m.Keys - {k};
      var t := ValuesByKey(rest);
      var r := [m[k]] + t;
      assert forall j :: j in m ==> m[j] in r by {
        forall j | j in m ensures m[j] in r {
          if j != k {
            assert j in rest && rest[j] == m[j];
          }
        }
      }
      assert forall i :: 0 <= i < |r| ==> exists j :: j in m && m[j] == r[i] by {
        forall i | 0 <= i < |r| ensures exists j :: j in m && m[j] == r[i] {
          if i == 0 {
            assert m[k] == r[0];
          } else {
            assert r[i] == t[i - 1];
            var j :| j in rest && rest[j] == t[i - 1];
            assert m[j] == r[i];
          }
        }
      }
      r
  }
}
