/** Small vocabulary shared by every module: optional values, byte strings, sums over a
    sequence, and the lexicographic order that the original's `sorted` uses on names. */
module Prelude {
  datatype Option<+T> = None | Some(value: T)

  newtype Byte = x: int | 0 <= x < 256
  type Bytes = seq<Byte>

  function Max(a: int, b: int): int {
    if a < b then b else a
  }

  function Min(a: int, b: int): int {
    if a < b then a else b
  }

  // ---- concatenation of a list of chunks, grown at its end ------------------------------

  function Flatten<T>(xs: seq<seq<T>>): seq<T> {
    if xs == [] then [] else Flatten(xs[..|xs| - 1]) + xs[|xs| - 1]
  }

  lemma FlattenSnoc<T>(xs: seq<seq<T>>, i: nat)
    requires i < |xs|
    ensures Flatten(xs[..i + 1]) == Flatten(xs[..i]) + xs[i]
  {
    assert xs[..i + 1][..i] == xs[..i];
  }

  lemma {:induction false} FlattenCons<T>(xs: seq<seq<T>>)
    requires xs != []
    ensures Flatten(xs) == xs[0] + Flatten(xs[1..])
  {
    var last := |xs| - 1;
    if last == 0 {
      assert xs[..0] == [] && xs[1..] == [];
    } else {
      FlattenCons(xs[..last]);
      FlattenSnoc(xs[1..], last - 1);
      assert xs[..last][1..] == xs[1..][..last - 1];
      assert xs[1..][..last] == xs[1..];
      assert Flatten(xs) == Flatten(xs[..last]) + xs[last];
    }
  }

  lemma {:induction false} FlattenPrefix<T>(xs: seq<seq<T>>, i: nat)
    requires i <= |xs|
    ensures Flatten(xs[..i]) <= Flatten(xs)
    decreases |xs|
  {
    if i == |xs| {
      assert xs[..i] == xs;
    } else {
      FlattenPrefix(xs[..|xs| - 1], i);
      assert xs[..|xs| - 1][..i] == xs[..i];
    }
  }

  // ---- weighted counts ------------------------------------------------------------------

  function Sum<T>(xs: seq<T>, weight: T -> nat): nat {
    if xs == [] then 0 else weight(xs[0]) + Sum(xs[1..], weight)
  }

  lemma {:induction false} SumUpdate<T>(xs: seq<T>, i: nat, x: T, weight: T -> nat)
    requires i < |xs|
    ensures Sum(xs[i := x], weight) == Sum(xs, weight) - weight(xs[i]) + weight(x)
  {
    if i == 0 {
      assert xs[i := x][1..] == xs[1..];
    } else {
      SumUpdate(xs[1..], i - 1, x, weight);
      assert xs[i := x][1..] == xs[1..][i - 1 := x];
    }
  }

  lemma {:induction false} SumZero<T>(xs: seq<T>, weight: T -> nat)
    requires forall x | x in xs :: weight(x) == 0
    ensures Sum(xs, weight) == 0
  {
    if xs != [] {
      SumZero(xs[1..], weight);
    }
  }

  // ---- the order of names ---------------------------------------------------------------

  /** Strict lexicographic order by code point, as Python compares strings. */
  predicate Before(a: string, b: string) {
    b != "" && (a == "" || a[0] < b[0] || (a[0] == b[0] && Before(a[1..], b[1..])))
  }

  lemma {:induction false} BeforeIrreflexive(a: string)
    ensures !Before(a, a)
  {
    if a != "" {
      BeforeIrreflexive(a[1..]);
    }
  }

  lemma {:induction false} BeforeTransitive(a: string, b: string, c: string)
    requires Before(a, b) && Before(b, c)
    ensures Before(a, c)
  {
    if a != "" && a[0] == b[0] && b[0] == c[0] {
      BeforeTransitive(a[1..], b[1..], c[1..]);
    }
  }

  lemma {:induction false} BeforeTotal(a: string, b: string)
    ensures a == b || Before(a, b) || Before(b, a)
  {
    if a != "" && b != "" && a[0] == b[0] {
      BeforeTotal(a[1..], b[1..]);
      assert a == [a[0]] + a[1..] && b == [b[0]] + b[1..];
    }
  }

  ghost predicate Increasing(names: seq<string>) {
    forall i, j | 0 <= i < j < |names| :: Before(names[i], names[j])
  }

  function Elements<T>(xs: seq<T>): set<T> {
    set x | x in xs
  }

  lemma HeadUnique(xs: seq<string>, ys: seq<string>)
    requires Increasing(xs) && Increasing(ys)
    requires xs != [] && ys != [] && xs[0] in ys && ys[0] in xs
    ensures xs[0] == ys[0]
  {
    var i :| 0 <= i < |ys| && ys[i] == xs[0];
    var j :| 0 <= j < |xs| && xs[j] == ys[0];
    if i != 0 && j != 0 {
      assert Before(xs[0], xs[j]) && Before(ys[0], ys[i]);
      BeforeTransitive(xs[0], ys[0], xs[0]);
      BeforeIrreflexive(xs[0]);
    }
  }

  lemma TailElements(xs: seq<string>)
    requires Increasing(xs) && xs != []
    ensures Elements(xs[1..]) == Elements(xs) - {xs[0]}
  {
    forall x
      ensures x in Elements(xs[1..]) <==> x in Elements(xs) - {xs[0]}
    {
      BeforeIrreflexive(x);
      if x in xs[1..] {
        var i :| 0 <= i < |xs| - 1 && xs[1..][i] == x;
        assert xs[i + 1] == x;
        assert Before(xs[0], xs[i + 1]);
      }
      if x in xs && x != xs[0] {
        var i :| 0 <= i < |xs| && xs[i] == x;
        assert xs[1..][i - 1] == x;
      }
    }
  }

  /** Two increasing lists of the same names are the same list: what `sorted` returns does not
      depend on the order in which a directory lists its entries. */
  lemma {:induction false} IncreasingUnique(xs: seq<string>, ys: seq<string>)
    requires Increasing(xs) && Increasing(ys)
    requires Elements(xs) == Elements(ys)
    ensures xs == ys
  {
    assert xs != [] ==> xs[0] in Elements(xs);
    assert ys != [] ==> ys[0] in Elements(ys);
    if xs != [] {
      HeadUnique(xs, ys);
      TailElements(xs);
      TailElements(ys);
      IncreasingUnique(xs[1..], ys[1..]);
      assert xs == [xs[0]] + xs[1..] && ys == [ys[0]] + ys[1..];
    }
  }

  lemma IncreasingNoDuplicates(xs: seq<string>)
    requires Increasing(xs)
    ensures forall i, j | 0 <= i < |xs| && 0 <= j < |xs| && xs[i] == xs[j] :: i == j
  {
    forall i | 0 <= i < |xs|
      ensures !Before(xs[i], xs[i])
    {
      BeforeIrreflexive(xs[i]);
    }
  }

  lemma InsertFront(x: string, xs: seq<string>)
    requires xs != [] && Before(x, xs[0])
    ensures Elements([x] + xs) == Elements(xs) + {x}
    ensures Increasing(xs) ==> Increasing([x] + xs)
  {
    if Increasing(xs) {
      var r := [x] + xs;
      forall i, j | 0 <= i < j < |r|
        ensures Before(r[i], r[j])
      {
        if i == 0 && j > 1 {
          assert Before(xs[0], xs[j - 1]);
          BeforeTransitive(x, xs[0], xs[j - 1]);
        }
      }
    }
  }

  lemma InsertBehind(x: string, xs: seq<string>, rest: seq<string>)
    requires xs != [] && x != xs[0] && !Before(x, xs[0])
    requires Elements(rest) == Elements(xs[1..]) + {x}
    requires Increasing(xs[1..]) ==> Increasing(rest)
    ensures Elements([xs[0]] + rest) == Elements(xs) + {x}
    ensures Increasing(xs) ==> Increasing([xs[0]] + rest)
  {
    BeforeTotal(x, xs[0]);
    assert xs == [xs[0]] + xs[1..];
    var r := [xs[0]] + rest;
    assert Elements(r) == {xs[0]} + Elements(rest);
    assert Elements(xs) == {xs[0]} + Elements(xs[1..]);
    if Increasing(xs) {
      forall i, j | 0 <= i < j < |r|
        ensures Before(r[i], r[j])
      {
        if i == 0 {
          assert r[j] in Elements(rest);
          if r[j] != x {
            var k :| 0 <= k < |xs| - 1 && xs[1..][k] == r[j];
            assert Before(xs[0], xs[k + 1]);
          }
        } else {
          assert Before(rest[i - 1], rest[j - 1]);
        }
      }
    }
  }

  /** Insertion of one name, the step of a sorted listing. */
  function InsertName(x: string, xs: seq<string>): (r: seq<string>)
    ensures Elements(r) == Elements(xs) + {x}
    ensures Increasing(xs) ==> Increasing(r)
  {
    if xs == [] then
      [x]
    else if x == xs[0] then
      xs
    else if Before(x, xs[0]) then
      InsertFront(x, xs);
      [x] + xs
    else
      var rest := InsertName(x, xs[1..]);
      InsertBehind(x, xs, rest);
      [xs[0]] + rest
  }

  /** `sorted(set(names))`: any listing of a directory, put in increasing order. */
  function SortNames(names: seq<string>): (r: seq<string>)
    ensures Elements(r) == Elements(names)
    ensures Increasing(r)
  {
    if names == [] then
      []
    else
      var r := InsertName(names[0], SortNames(names[1..]));
      assert names == [names[0]] + names[1..];
      r
  }

  // ---- text matching --------------------------------------------------------------------

  predicate StartsWith(s: string, prefix: string) {
    |prefix| <= |s| && s[..|prefix|] == prefix
  }

  predicate OccursAt(s: string, needle: string, i: nat) {
    i + |needle| <= |s| && s[i..i + |needle|] == needle
  }

  /** `needle in s` */
  predicate Contains(s: string, needle: string) {
    exists i: nat | i <= |s| :: OccursAt(s, needle, i)
  }
}
