/** Facts about finite sequences that the models share. */
module Sequences {

  datatype Option<+T> = None | Some(value: T)

  /** No value occurs twice. */
  ghost predicate NoDup<T(!new)>(s: seq<T>) {
    forall i, j :: 0 <= i < j < |s| ==> s[i] != s[j]
  }

  /** `s` without its first occurrence of `x`; `s` itself when there is none. */
  function Without<T(==)>(s: seq<T>, x: T): (r: seq<T>)
    ensures x !in s ==> r == s
  {
    if s == [] then [] else
    assert s == [s[0]] + s[1..];
    if s[0] == x then s[1..] else [s[0]] + Without(s[1..], x)
  }

  lemma {:induction false} WithoutMultiset<T>(s: seq<T>, x: T)
    ensures multiset(Without(s, x)) == multiset(s) - multiset{x}
  {
    if s != [] {
      assert s == [s[0]] + s[1..];
      WithoutMultiset(s[1..], x);
    }
  }

  lemma {:induction false} WithoutAt<T>(s: seq<T>, x: T, i: nat)
    requires i < |s| && s[i] == x && x !in s[..i]
    ensures Without(s, x) == s[..i] + s[i + 1..]
  {
    if i > 0 {
      assert s[0] == s[..i][0];
      assert s[1..][..i - 1] == s[..i][1..];
      WithoutAt(s[1..], x, i - 1);
    }
  }

  lemma {:induction false} NoDupCounts<T(!new)>(s: seq<T>)
    ensures NoDup(s) <==> forall x :: x in s ==> multiset(s)[x] == 1
  {
    if s != [] {
      var t := s[..|s| - 1];
      var l := s[|s| - 1];
      assert s == t + [l];
      NoDupCounts(t);
      if NoDup(s) {
        assert NoDup(t);
        forall x | x in s ensures multiset(s)[x] == 1 {
          if x == l { assert l !in t; }
        }
      }
      if forall x :: x in s ==> multiset(s)[x] == 1 {
        assert multiset(s)[l] == 1;
        assert l !in t;
        forall x | x in t ensures multiset(t)[x] == 1 { assert x in s; }
        assert NoDup(t);
        assert NoDup(s);
      }
    }
  }

  /** Two sequences with the same elements, counted, are duplicate-free together. */
  lemma NoDupSameMultiset<T(!new)>(s: seq<T>, t: seq<T>)
    requires NoDup(s) && multiset(t) == multiset(s)
    ensures NoDup(t)
  {
    NoDupCounts(s);
    NoDupCounts(t);
    forall x | x in t ensures multiset(t)[x] == 1 { assert x in multiset(s); }
  }

  /** A part of a duplicate-free sequence, by count, is duplicate-free. */
  lemma NoDupSubMultiset<T(!new)>(s: seq<T>, t: seq<T>)
    requires NoDup(s) && multiset(t) <= multiset(s)
    ensures NoDup(t)
  {
    NoDupCounts(s);
    NoDupCounts(t);
    forall x | x in t ensures multiset(t)[x] == 1 { assert x in multiset(t); assert x in multiset(s); }
  }

  /** The elements of `s` outside `dead`, in order. */
  function Drop<T(==, !new)>(s: seq<T>, dead: set<T>): (r: seq<T>)
    ensures forall x :: x in r <==> x in s && x !in dead
    ensures multiset(r) <= multiset(s)
  {
    if s == [] then [] else
    assert s == [s[0]] + s[1..];
    if s[0] in dead then Drop(s[1..], dead) else [s[0]] + Drop(s[1..], dead)
  }

  /** The elements of `s` inside `dead`, in order. */
  function Pick<T(==, !new)>(s: seq<T>, dead: set<T>): (r: seq<T>)
    ensures forall x :: x in r <==> x in s && x in dead
  {
    if s == [] then [] else
    if s[0] in dead then [s[0]] + Pick(s[1..], dead) else Pick(s[1..], dead)
  }

  lemma {:induction false} DropPick<T(!new)>(s: seq<T>, dead: set<T>)
    ensures multiset(Drop(s, dead)) + multiset(Pick(s, dead)) == multiset(s)
  {
    if s != [] {
      assert s == [s[0]] + s[1..];
      DropPick(s[1..], dead);
    }
  }

  lemma {:induction false} DropAppend<T(!new)>(s: seq<T>, x: T, dead: set<T>)
    ensures x in dead ==> Drop(s + [x], dead) == Drop(s, dead)
    ensures x !in dead ==> Drop(s + [x], dead) == Drop(s, dead) + [x]
  {
    if s == [] {
      assert s + [x] == [x] && [x][1..] == [];
    } else {
      var t := s[1..];
      assert (s + [x])[1..] == t + [x] && (s + [x])[0] == s[0];
      DropAppend(t, x, dead);
      if s[0] !in dead { assert [s[0]] + (Drop(t, dead) + [x]) == ([s[0]] + Drop(t, dead)) + [x]; }
    }
  }

  lemma {:induction false} PickAppend<T(!new)>(s: seq<T>, x: T, dead: set<T>)
    ensures x !in dead ==> Pick(s + [x], dead) == Pick(s, dead)
    ensures x in dead ==> Pick(s + [x], dead) == Pick(s, dead) + [x]
  {
    if s == [] {
      assert s + [x] == [x] && [x][1..] == [];
    } else {
      var t := s[1..];
      assert (s + [x])[1..] == t + [x] && (s + [x])[0] == s[0];
      PickAppend(t, x, dead);
      if s[0] in dead { assert [s[0]] + (Pick(t, dead) + [x]) == ([s[0]] + Pick(t, dead)) + [x]; }
    }
  }

  lemma {:induction false} DropIrrelevant<T(!new)>(s: seq<T>, dead: set<T>, x: T)
    requires x !in s
    ensures Drop(s, dead + {x}) == Drop(s, dead)
  {
    if s != [] {
      assert x !in s[1..];
      DropIrrelevant(s[1..], dead, x);
    }
  }

  /** Dropping one more value from a duplicate-free sequence is removing it. */
  lemma {:induction false} DropOneMore<T(!new)>(s: seq<T>, dead: set<T>, x: T)
    requires NoDup(s)
    ensures Drop(s, dead + {x}) == Without(Drop(s, dead), x)
  {
    if s != [] {
      assert NoDup(s[1..]);
      DropOneMore(s[1..], dead, x);
      if s[0] == x {
        assert x !in s[1..];
        DropIrrelevant(s[1..], dead, x);
      }
    }
  }

  lemma {:induction false} DropNothing<T(!new)>(s: seq<T>, dead: set<T>)
    requires forall x :: x in s ==> x !in dead
    ensures Drop(s, dead) == s
  {
    if s != [] { DropNothing(s[1..], dead); }
  }

  /** What `f` extracts from each element, one after the other. */
  function Collect<A, B>(s: seq<A>, f: A -> seq<B>): (r: seq<B>) {
    if s == [] then [] else Collect(s[..|s| - 1], f) + f(s[|s| - 1])
  }

  lemma Assoc<T>(a: seq<T>, b: seq<T>, c: seq<T>)
    ensures a + (b + c) == a + b + c
  {}

  lemma {:induction false} CollectConcat<A, B>(s: seq<A>, t: seq<A>, f: A -> seq<B>)
    ensures Collect(s + t, f) == Collect(s, f) + Collect(t, f)
  {
    if t == [] {
      assert s + t == s;
    } else {
      var u := t[..|t| - 1];
      assert s + t == (s + u) + [t[|t| - 1]];
      assert (s + t)[..|s + t| - 1] == s + u;
      CollectConcat(s, u, f);
      assert (s + t)[|s + t| - 1] == t[|t| - 1];
      Assoc(Collect(s, f), Collect(u, f), f(t[|t| - 1]));
    }
  }

  ghost predicate Increasing(s: seq<nat>) {
    forall i, j :: 0 <= i < j < |s| ==> s[i] < s[j]
  }

  ghost predicate Below(s: seq<nat>, x: nat) {
    forall i :: 0 <= i < |s| ==> s[i] < x
  }
}
