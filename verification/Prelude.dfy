/** Shared vocabulary: optional values, sums over finite sets, and the instance status enum of the database schema. */
module Prelude {
  datatype Option<+T> = None | Some(value: T) {
    function GetOr(default: T): T {
      match this
      case Some(v) => v
      case None => default
    }
  }

  /** The `InstanceStatus` enum of the schema. */
  datatype Status = Pending | Provisioning | Ready | Idle | Paused | Terminating | Terminated | Failed

  function Max(a: int, b: int): int {
    if a >= b then a else b
  }

  function Min(a: int, b: int): int {
    if a <= b then a else b
  }

  /** `ids.filter((id) => id.length > 0)` */
  function NonEmpty(ids: seq<string>): (r: seq<string>)
    ensures forall id :: id in r <==> id in ids && id != ""
  {
    if ids == [] then [] else (if ids[0] != "" then [ids[0]] else []) + NonEmpty(ids[1..])
  }

  /** The sum of `f` over a finite set, whatever order the elements are visited in. */
  ghost function SumOver<T>(s: set<T>, f: T -> int): int {
    if s == {} then 0 else
      var x :| x in s;
      f(x) + SumOver(s - {x}, f)
  }

  lemma {:induction false} SumSplit<T>(s: set<T>, f: T -> int, x: T)
    requires x in s
    ensures SumOver(s, f) == f(x) + SumOver(s - {x}, f)
    decreases |s|
  {
    var y :| y in s && SumOver(s, f) == f(y) + SumOver(s - {y}, f);
    if y != x {
      SumSplit(s - {y}, f, x);
      SumSplit(s - {x}, f, y);
      assert s - {y} - {x} == s - {x} - {y};
    }
  }

  lemma {:induction false} SumCongruent<T>(s: set<T>, f: T -> int, g: T -> int)
    requires forall x :: x in s ==> f(x) == g(x)
    ensures SumOver(s, f) == SumOver(s, g)
    decreases |s|
  {
    if s != {} {
      var x :| x in s;
      SumSplit(s, f, x);
      SumSplit(s, g, x);
      SumCongruent(s - {x}, f, g);
    }
  }

  lemma {:induction false} SumAdd<T>(s: set<T>, f: T -> int, g: T -> int, h: T -> int)
    requires forall x :: x in s ==> h(x) == f(x) + g(x)
    ensures SumOver(s, h) == SumOver(s, f) + SumOver(s, g)
    decreases |s|
  {
    if s != {} {
      var x :| x in s;
      SumSplit(s, f, x);
      SumSplit(s, g, x);
      SumSplit(s, h, x);
      SumAdd(s - {x}, f, g, h);
    }
  }

  /** Elements on which `f` is zero may be added to the index set freely. */
  lemma {:induction false} SumWiden<T>(s: set<T>, t: set<T>, f: T -> int)
    requires s <= t
    requires forall x :: x in t && x !in s ==> f(x) == 0
    ensures SumOver(s, f) == SumOver(t, f)
    decreases |t|
  {
    if s == t {
    } else {
      var x :| x in t && x !in s;
      SumSplit(t, f, x);
      SumWiden(s, t - {x}, f);
    }
  }

  /** Changing the summand at one element changes the sum by the difference there. */
  lemma {:induction false} SumUpdate<T>(s: set<T>, f: T -> int, g: T -> int, x: T)
    requires x in s
    requires forall y :: y in s && y != x ==> f(y) == g(y)
    ensures SumOver(s, g) == SumOver(s, f) + g(x) - f(x)
  {
    SumSplit(s, f, x);
    SumSplit(s, g, x);
    SumCongruent(s - {x}, f, g);
  }

  /** A sum that is pointwise dominated is dominated, and equal only if it is equal everywhere. */
  lemma {:induction false} SumDominated<T>(s: set<T>, f: T -> int, g: T -> int)
    requires forall x :: x in s ==> f(x) <= g(x)
    ensures SumOver(s, f) <= SumOver(s, g)
    ensures SumOver(s, f) == SumOver(s, g) <==> forall x :: x in s ==> f(x) == g(x)
    decreases |s|
  {
    if s != {} {
      var x :| x in s;
      SumSplit(s, f, x);
      SumSplit(s, g, x);
      SumDominated(s - {x}, f, g);
      assert forall y :: y in s ==> y == x || y in s - {x};
    }
  }
}
