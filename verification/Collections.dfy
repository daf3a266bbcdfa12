/** Notions shared by the other modules. */
module Collections {

  datatype Option<+T> = None | Some(value: T)

  function Min(a: nat, b: nat): nat {
    if a < b then a else b
  }

  /** DIVROUNDUP, by repeated subtraction. */
  function DivRoundUp(a: nat, b: nat): nat
    requires b > 0
  {
    if a == 0 then 0 else 1 + DivRoundUp(if a < b then 0 else a - b, b)
  }

  predicate NoDuplicates(q: seq<nat>) {
    forall i, j :: 0 <= i < j < |q| ==> q[i] != q[j]
  }

  /** Sets that agree but for one element. */
  lemma SizesDiffer(a: set<nat>, b: set<nat>, t: nat)
    requires forall u: nat :: u != t ==> (u in a <==> u in b)
    ensures |b| == |a| - (if t in a then 1 else 0) + (if t in b then 1 else 0)
  {
    var rest := a - {t};
    assert b - {t} == rest;
    if t in a { assert a == rest + {t}; } else { assert a == rest; }
    if t in b { assert b == rest + {t}; } else { assert b == rest; }
  }
}
