/** What the modules share: the source's nullable values and its arrays keyed by name. */
module Wrappers {
  datatype Option<+T> = None | Some(value: T)

  // An assignment to a present key keeps its place.
  type Dict<V> = seq<(string, V)>

  function Put<V>(m: Dict<V>, key: string, v: V): (r: Dict<V>) {
    if m == [] then [(key, v)]
    else if m[0].0 == key then [(key, v)] + m[1..]
    else [m[0]] + Put(m[1..], key, v)
  }

  lemma {:induction false} PutNew<V>(m: Dict<V>, key: string, v: V)
    requires forall i :: 0 <= i < |m| ==> m[i].0 != key
    ensures Put(m, key, v) == m + [(key, v)]
  {
    if m != [] {
      PutNew(m[1..], key, v);
    }
  }

  lemma {:induction false} SmallerSet<T>(a: set<T>, b: set<T>)
    requires a <= b
    ensures |a| <= |b|
    ensures a != b ==> |a| < |b|
    decreases |a|
  {
    if a != {} {
      var x :| x in a;
      SmallerSet(a - {x}, b - {x});
      if a != b {
        assert a == a - {x} + {x} && b == b - {x} + {x};
      }
    } else if b != {} {
      var x :| x in b;
    }
  }
}
