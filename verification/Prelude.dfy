/** Small shared datatypes and sums over sequences. */
module Prelude {

  datatype Option<+T> = None | Some(value: T)

  datatype Result<+T, +E> = Ok(value: T) | Err(error: E)

  /** An L2 output root. */
  type Root = nat

  function Max(a: int, b: int): int {
    if a < b then b else a
  }

  function Min(a: int, b: int): int {
    if a < b then a else b
  }
}

/** Sums of a weight over a sequence that grows at its end. */
module Tallies {

  ghost function Sum<T>(s: seq<T>, w: T -> int): int {
    if s == [] then 0 else Sum(s[..|s| - 1], w) + w(s[|s| - 1])
  }

  ghost function Indicator<T>(p: T -> bool): T -> int {
    x => if p(x) then 1 else 0
  }

  ghost function Count<T>(s: seq<T>, p: T -> bool): (n: nat) {
    SumAtLeast(s, x => 0, Indicator(p));
    SumZero(s, x => 0);
    Sum(s, Indicator(p))
  }

  lemma SumPush<T>(s: seq<T>, x: T, w: T -> int)
    ensures Sum(s + [x], w) == Sum(s, w) + w(x)
  {
    assert (s + [x])[..|s|] == s;
  }

  lemma {:induction false} SumConcat<T>(s: seq<T>, t: seq<T>, w: T -> int)
    ensures Sum(s + t, w) == Sum(s, w) + Sum(t, w)
  {
    if t == [] {
      assert s + t == s;
    } else {
      var u, x := t[..|t| - 1], t[|t| - 1];
      SumConcat(s, u, w);
      assert s + t == (s + u) + [x];
      SumPush(s + u, x, w);
    }
  }

  lemma {:induction false} SumUpdate<T>(s: seq<T>, i: nat, x: T, w: T -> int)
    requires i < |s|
    ensures Sum(s[i := x], w) == Sum(s, w) - w(s[i]) + w(x)
  {
    assert s == s[..i] + ([s[i]] + s[i + 1..]);
    assert s[i := x] == s[..i] + ([x] + s[i + 1..]);
    SumConcat(s[..i], [s[i]] + s[i + 1..], w);
    SumConcat(s[..i], [x] + s[i + 1..], w);
    SumConcat([s[i]], s[i + 1..], w);
    SumConcat([x], s[i + 1..], w);
  }

  /** The sum depends only on the weights of the elements that occur. */
  lemma {:induction false} SumSame<T>(s: seq<T>, v: T -> int, w: T -> int)
    requires forall x :: x in s ==> v(x) == w(x)
    ensures Sum(s, v) == Sum(s, w)
  {
    if s != [] {
      SumSame(s[..|s| - 1], v, w);
    }
  }

  lemma {:induction false} SumAtLeast<T>(s: seq<T>, v: T -> int, w: T -> int)
    requires forall x :: x in s ==> v(x) <= w(x)
    ensures Sum(s, v) <= Sum(s, w)
  {
    if s != [] {
      SumAtLeast(s[..|s| - 1], v, w);
    }
  }

  lemma {:induction false} SumZero<T>(s: seq<T>, w: T -> int)
    requires forall x :: x in s ==> w(x) == 0
    ensures Sum(s, w) == 0
  {
    if s != [] {
      SumZero(s[..|s| - 1], w);
    }
  }

  /** A sum of non-negative weights is at least any one of them. */
  lemma SumAtLeastOne<T>(s: seq<T>, i: nat, w: T -> int)
    requires i < |s|
    requires forall x :: x in s ==> 0 <= w(x)
    ensures w(s[i]) <= Sum(s, w)
  {
    assert s == s[..i] + ([s[i]] + s[i + 1..]);
    SumConcat(s[..i], [s[i]] + s[i + 1..], w);
    SumConcat([s[i]], s[i + 1..], w);
    SumAtLeast(s[..i], x => 0, w);
    SumAtLeast(s[i + 1..], x => 0, w);
    SumZero(s[..i], x => 0);
    SumZero(s[i + 1..], x => 0);
  }

  lemma SumFront<T>(x: T, s: seq<T>, w: T -> int)
    ensures Sum([x] + s, w) == w(x) + Sum(s, w)
  {
    SumConcat([x], s, w);
    SumPush([], x, w);
    assert [] + [x] == [x];
  }

  lemma CountFront<T>(x: T, s: seq<T>, p: T -> bool)
    ensures Count([x] + s, p) == (if p(x) then 1 else 0) + Count(s, p)
  {
    SumFront(x, s, Indicator(p));
  }

  lemma CountPush<T>(s: seq<T>, x: T, p: T -> bool)
    ensures Count(s + [x], p) == Count(s, p) + (if p(x) then 1 else 0)
  {
    SumPush(s, x, Indicator(p));
  }

  lemma CountUpdate<T>(s: seq<T>, i: nat, x: T, p: T -> bool)
    requires i < |s|
    ensures Count(s[i := x], p) == Count(s, p) - (if p(s[i]) then 1 else 0) + (if p(x) then 1 else 0)
  {
    SumUpdate(s, i, x, Indicator(p));
  }

  lemma CountNone<T>(s: seq<T>, p: T -> bool)
    requires forall x :: x in s ==> !p(x)
    ensures Count(s, p) == 0
  {
    SumZero(s, Indicator(p));
  }

  lemma CountImplies<T>(s: seq<T>, p: T -> bool, q: T -> bool)
    requires forall x :: x in s && p(x) ==> q(x)
    ensures Count(s, p) <= Count(s, q)
  {
    SumAtLeast(s, Indicator(p), Indicator(q));
  }

  lemma CountConcat<T>(s: seq<T>, t: seq<T>, p: T -> bool)
    ensures Count(s + t, p) == Count(s, p) + Count(t, p)
  {
    SumConcat(s, t, Indicator(p));
  }

  lemma {:induction false} CountEither<T>(s: seq<T>, p: T -> bool, q: T -> bool, r: T -> bool)
    requires forall x :: x in s && r(x) ==> p(x) || q(x)
    ensures Count(s, r) <= Count(s, p) + Count(s, q)
  {
    if s != [] {
      CountEither(s[..|s| - 1], p, q, r);
    }
  }
}
