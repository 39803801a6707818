/** Small facts about sequences shared by the bounded histories. */
module Sequences {

  datatype Option<+T> = None | Some(value: T) {
    function GetOr(default: T): T { if Some? then value else default }
  }

  function Min(a: int, b: int): int { if a < b then a else b }

  /** The newest `n` elements, or all of them. */
  function LastN<T>(s: seq<T>, n: nat): seq<T> {
    s[|s| - Min(n, |s|)..]
  }

  function Count<T>(s: seq<T>, p: T -> bool): nat {
    if s == [] then 0 else Count(s[..|s| - 1], p) + if p(s[|s| - 1]) then 1 else 0
  }

  lemma {:induction false} CountConcat<T>(a: seq<T>, b: seq<T>, p: T -> bool)
    ensures Count(a + b, p) == Count(a, p) + Count(b, p)
  {
    if b == [] {
      assert a + b == a;
    } else {
      CountConcat(a, b[..|b| - 1], p);
      assert (a + b)[..|a + b| - 1] == a + b[..|b| - 1];
    }
  }

  lemma CountPush<T>(a: seq<T>, x: T, p: T -> bool)
    ensures Count(a + [x], p) == Count(a, p) + if p(x) then 1 else 0
  {
    assert (a + [x])[..|a|] == a;
  }

  lemma CountUpdate<T>(a: seq<T>, i: nat, x: T, p: T -> bool)
    requires i < |a|
    ensures Count(a[i := x], p) == Count(a, p) - (if p(a[i]) then 1 else 0) + (if p(x) then 1 else 0)
  {
    var front, back := a[..i], a[i + 1..];
    assert a == front + [a[i]] + back;
    assert a[i := x] == front + [x] + back;
    CountConcat(front + [a[i]], back, p);
    CountConcat(front + [x], back, p);
    CountPush(front, a[i], p);
    CountPush(front, x, p);
  }

  lemma {:induction false} CountBound<T>(a: seq<T>, p: T -> bool)
    ensures Count(a, p) <= |a|
    ensures Count(a, p) == 0 <==> forall i | 0 <= i < |a| :: !p(a[i])
    ensures Count(a, p) == |a| <==> forall i | 0 <= i < |a| :: p(a[i])
  {
    if a != [] { CountBound(a[..|a| - 1], p); }
  }

  lemma SubsetSize<T>(a: set<T>, b: set<T>)
    requires a <= b
    ensures |a| <= |b|
    ensures a != b ==> |a| < |b|
  {
    assert b == a + (b - a);
  }
}
