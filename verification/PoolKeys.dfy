/**
 The key under which a whitelist's round-robin cursor is filed: its ids sorted and joined with commas
 (packages/control-plane/src/runtime/nodes.ts). Two requests share a cursor exactly when they name the same nodes.
 */
module PoolKeys {
  const FLEET := "__all__"

  /** Code-unit order, as the default sort of strings uses. */
  predicate StrLe(a: string, b: string) {
    a == [] || (b != [] && (a[0] < b[0] || (a[0] == b[0] && StrLe(a[1..], b[1..]))))
  }

  function Insert(x: string, s: seq<string>): seq<string> {
    if s == [] || StrLe(x, s[0]) then [x] + s else [s[0]] + Insert(x, s[1..])
  }

  function Sorted(s: seq<string>): seq<string> {
    if s == [] then [] else Insert(s[0], Sorted(s[1..]))
  }

  function Join(s: seq<string>): string {
    if s == [] then "" else if |s| == 1 then s[0] else s[0] + "," + Join(s[1..])
  }

  function PoolKey(whitelist: seq<string>): string {
    if whitelist == [] then FLEET else Join(Sorted(whitelist))
  }

  ghost predicate Ordered(s: seq<string>) {
    forall i, j :: 0 <= i < j < |s| ==> StrLe(s[i], s[j])
  }

  predicate CommaFree(s: seq<string>) {
    forall x :: x in s ==> ',' !in x
  }

  lemma {:induction false} StrTotal(a: string, b: string)
    ensures StrLe(a, b) || StrLe(b, a)
    ensures StrLe(a, b) && StrLe(b, a) ==> a == b
  {
    if a != [] && b != [] && a[0] == b[0] {
      StrTotal(a[1..], b[1..]);
      assert a == [a[0]] + a[1..] && b == [b[0]] + b[1..];
    }
  }

  lemma {:induction false} StrTransitive(a: string, b: string, c: string)
    requires StrLe(a, b) && StrLe(b, c)
    ensures StrLe(a, c)
  {
    if a != [] && a[0] == b[0] == c[0] {
      StrTransitive(a[1..], b[1..], c[1..]);
    }
  }

  lemma {:induction false} InsertKeepsOrder(x: string, s: seq<string>)
    requires Ordered(s)
    ensures Ordered(Insert(x, s)) && multiset(Insert(x, s)) == multiset(s) + multiset{x}
  {
    if s == [] {
    } else if StrLe(x, s[0]) {
      forall j | 0 <= j < |s|
        ensures StrLe(x, s[j])
      {
        if j > 0 {
          StrTransitive(x, s[0], s[j]);
        }
      }
    } else {
      InsertKeepsOrder(x, s[1..]);
      StrTotal(x, s[0]);
      var r := Insert(x, s[1..]);
      assert s == [s[0]] + s[1..];
      forall j | 0 <= j < |r|
        ensures StrLe(s[0], r[j])
      {
        assert r[j] in multiset(r);
        assert r[j] in s[1..] || r[j] == x;
      }
    }
  }

  lemma {:induction false} SortedOrdered(s: seq<string>)
    ensures Ordered(Sorted(s)) && multiset(Sorted(s)) == multiset(s)
  {
    if s != [] {
      SortedOrdered(s[1..]);
      InsertKeepsOrder(s[0], Sorted(s[1..]));
      assert s == [s[0]] + s[1..];
    }
  }

  lemma SmallestFirst(s: seq<string>, t: seq<string>)
    requires Ordered(s) && s != [] && t != [] && multiset(s) == multiset(t)
    ensures StrLe(s[0], t[0])
  {
    assert t[0] in multiset(s);
    var j :| 0 <= j < |s| && s[j] == t[0];
    StrTotal(s[0], s[0]);
  }

  lemma TailMultiset(s: seq<string>)
    requires s != []
    ensures multiset(s[1..]) == multiset(s) - multiset{s[0]}
  {
    assert s == [s[0]] + s[1..];
  }

  lemma {:induction false} OrderedUnique(s: seq<string>, t: seq<string>)
    requires Ordered(s) && Ordered(t) && multiset(s) == multiset(t)
    ensures s == t
  {
    hide StrLe;
    assert |s| == |multiset(s)| == |multiset(t)| == |t|;
    if s != [] {
      SmallestFirst(s, t);
      SmallestFirst(t, s);
      StrTotal(s[0], t[0]);
      TailMultiset(s);
      TailMultiset(t);
      OrderedUnique(s[1..], t[1..]);
      assert s == [s[0]] + s[1..] && t == [t[0]] + t[1..];
    }
  }

  lemma {:induction false} JoinInjective(s: seq<string>, t: seq<string>)
    requires s != [] && t != [] && CommaFree(s) && CommaFree(t)
    requires Join(s) == Join(t)
    ensures s == t
  {
    var a, b := Join(s), Join(t);
    assert s[0] in s && t[0] in t;
    if |s| > 1 {
      assert a[|s[0]|] == ',' && a[..|s[0]|] == s[0];
    }
    if |t| > 1 {
      assert b[|t[0]|] == ',' && b[..|t[0]|] == t[0];
    }
    if |s| > 1 && |t| > 1 {
      assert forall i :: 0 <= i < |s[0]| ==> a[i] == s[0][i] != ',';
      assert forall i :: 0 <= i < |t[0]| ==> b[i] == t[0][i] != ',';
      assert a[|s[0]| + 1..] == Join(s[1..]) && b[|t[0]| + 1..] == Join(t[1..]);
      JoinInjective(s[1..], t[1..]);
      assert s == [s[0]] + s[1..] && t == [t[0]] + t[1..];
    }
  }

  /** Request order does not matter and distinct pools never share a cursor, as long as no node id holds a comma. */
  lemma PoolKeyIdentifiesPool(w: seq<string>, v: seq<string>)
    requires w != [] && v != [] && CommaFree(w) && CommaFree(v)
    ensures PoolKey(w) == PoolKey(v) <==> multiset(w) == multiset(v)
  {
    SortedOrdered(w);
    SortedOrdered(v);
    if multiset(w) == multiset(v) {
      OrderedUnique(Sorted(w), Sorted(v));
    }
    if PoolKey(w) == PoolKey(v) {
      SortedCommaFree(w);
      SortedCommaFree(v);
      assert |multiset(Sorted(w))| == |w| && |multiset(Sorted(v))| == |v|;
      JoinInjective(Sorted(w), Sorted(v));
    }
  }

  lemma SortedCommaFree(w: seq<string>)
    requires CommaFree(w)
    ensures CommaFree(Sorted(w))
  {
    SortedOrdered(w);
    forall x | x in Sorted(w)
      ensures x in w
    {
      assert x in multiset(Sorted(w));
    }
  }
}
