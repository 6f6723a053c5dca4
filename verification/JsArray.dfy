/** The mutable array of the room server, with the removal method that the server adds to every array. */
module JsArrays {

  /** The elements that are not among `args`, in order. */
  function FilterOut<T(==)>(s: seq<T>, args: seq<T>): seq<T> {
    if s == [] then []
    else FilterOut(s[..|s| - 1], args) + (if s[|s| - 1] in args then [] else [s[|s| - 1]])
  }

  lemma FilterOutLast<T>(t: seq<T>, y: T, args: seq<T>)
    ensures FilterOut(t + [y], args) == if y in args then FilterOut(t, args) else FilterOut(t, args) + [y]
  {
    assert (t + [y])[..|t|] == t && FilterOut(t, args) + [] == FilterOut(t, args);
  }

  lemma {:induction false} FilterOutTwice<T>(s: seq<T>, a: seq<T>, b: seq<T>)
    ensures FilterOut(FilterOut(s, a), b) == FilterOut(s, b + a)
  {
    if s != [] {
      var n := |s| - 1;
      FilterOutTwice(s[..n], a, b);
      if s[n] !in a {
        var f := FilterOut(s[..n], a);
        assert (f + [s[n]])[..|f|] == f;
      } else {
        assert FilterOut(s[..n], a) + [] == FilterOut(s[..n], a);
      }
    }
  }

  lemma {:induction false} FilterOutNone<T>(s: seq<T>, args: seq<T>)
    requires forall i :: 0 <= i < |s| ==> s[i] !in args
    ensures FilterOut(s, args) == s
  {
    if s != [] { FilterOutNone(s[..|s| - 1], args); }
  }

  /** Taking out one occurrence of an element makes no difference to what is left when all are taken out. */
  lemma {:induction false} FilterOutAfterSplice<T>(s: seq<T>, at: nat, x: T)
    requires at < |s| && s[at] == x
    ensures FilterOut(s[..at] + s[at + 1..], [x]) == FilterOut(s, [x])
  {
    var n, t := |s| - 1, s[..at] + s[at + 1..];
    if at == n {
      assert t == s[..n];
    } else {
      FilterOutAfterSplice(s[..n], at, x);
      assert t[..|t| - 1] == s[..n][..at] + s[..n][at + 1..];
      assert t[|t| - 1] == s[n];
    }
  }

  /** No argument is left, and every other element is left as often as it was there. */
  lemma {:induction false} FilterOutCounts<T>(s: seq<T>, args: seq<T>, x: T)
    ensures multiset(FilterOut(s, args))[x] == if x in args then 0 else multiset(s)[x]
  {
    if s != [] {
      var t, y := s[..|s| - 1], s[|s| - 1];
      assert s == t + [y];
      FilterOutCounts(t, args, x);
      FilterOutLast(t, y, args);
    }
  }

  class JsArray<T(==)> {
    var elems: seq<T>

    constructor ()
      ensures elems == []
    {
      elems := [];
    }

    method Push(x: T)
      modifies this
      ensures elems == old(elems) + [x]
    {
      elems := elems + [x];
    }

    /** The first index of the element, or -1. */
    method IndexOf(x: T) returns (at: int)
      ensures at == -1 ==> x !in elems
      ensures at != -1 ==> 0 <= at < |elems| && elems[at] == x && x !in elems[..at]
    {
      for i := 0 to |elems|
        invariant x !in elems[..i]
      {
        if elems[i] == x { return i; }
      }
      at := -1;
    }

    /** `splice(at, 1)` */
    method SpliceOne(at: nat)
      requires at < |elems|
      modifies this
      ensures elems == old(elems[..at] + elems[at + 1..])
    {
      elems := elems[..at] + elems[at + 1..];
    }

    /** The inner loop: search and splice until the element is gone. */
    method RemoveAll(what: T)
      modifies this
      ensures elems == FilterOut(old(elems), [what])
    {
      var ax := IndexOf(what);
      while ax != -1
        invariant ax != -1 ==> 0 <= ax < |elems| && elems[ax] == what
        invariant ax == -1 ==> what !in elems
        invariant FilterOut(elems, [what]) == FilterOut(old(elems), [what])
        decreases |elems|
      {
        FilterOutAfterSplice(elems, ax, what);
        SpliceOne(ax);
        ax := IndexOf(what);
      }
      FilterOutNone(elems, [what]);
    }

    /** Removes every occurrence of every argument, last argument first, and stops early when nothing is left. */
    method Remove(args: seq<T>)
      modifies this
      ensures elems == FilterOut(old(elems), args)
    {
      hide FilterOut;
      ghost var before := elems;
      var l: nat := |args|;
      FilterOutNone(before, []);
      assert args[l..] == [];
      while l != 0 && |elems| != 0
        invariant l <= |args|
        invariant elems == FilterOut(before, args[l..])
      {
        FilterOutTwice(before, args[l..], [args[l - 1]]);
        assert [args[l - 1]] + args[l..] == args[l - 1..];
        l := l - 1;
        RemoveAll(args[l]);
      }
      if l == 0 {
        assert args[l..] == args;
      } else {
        FilterOutTwice(before, args[l..], args[..l]);
        assert args[..l] + args[l..] == args;
        FilterOutNone(elems, args[..l]);
      }
    }
  }
}
