/** Sequence helpers shared by the parser and the statistics: sums,
    Python's reversed(), and flattening a list of lists. */
module Sequences {

  /** sum() of a list of integers. */
  function Sum(s: seq<int>): int
  {
    if s == [] then 0 else Sum(s[..|s| - 1]) + s[|s| - 1]
  }

  lemma {:induction false} SumConcat(a: seq<int>, b: seq<int>)
    ensures Sum(a + b) == Sum(a) + Sum(b)
  {
    if b == [] {
      assert a + b == a;
    } else {
      assert (a + b)[..|a + b| - 1] == a + b[..|b| - 1];
      SumConcat(a, b[..|b| - 1]);
    }
  }

  /** Adding one to a single entry adds one to the sum. */
  lemma {:induction false} SumIncrement(s: seq<int>, k: nat)
    requires k < |s|
    ensures Sum(s[k := s[k] + 1]) == Sum(s) + 1
  {
    var t := s[k := s[k] + 1];
    if k == |s| - 1 {
      assert t[..|t| - 1] == s[..|s| - 1];
    } else {
      assert t[..|t| - 1] == s[..|s| - 1][k := s[k] + 1];
      SumIncrement(s[..|s| - 1], k);
    }
  }

  /** Every term at least lo: the sum is at least lo * n. */
  lemma {:induction false} SumLower(s: seq<int>, lo: int)
    requires forall i :: 0 <= i < |s| ==> lo <= s[i]
    ensures lo * |s| <= Sum(s)
  {
    if s != [] {
      SumLower(s[..|s| - 1], lo);
    }
  }

  /** Every term at most hi: the sum is at most hi * n. */
  lemma {:induction false} SumUpper(s: seq<int>, hi: int)
    requires forall i :: 0 <= i < |s| ==> s[i] <= hi
    ensures Sum(s) <= hi * |s|
  {
    if s != [] {
      SumUpper(s[..|s| - 1], hi);
    }
  }

  /** list(reversed(s)). */
  function Reverse<T>(s: seq<T>): (r: seq<T>)
    ensures |r| == |s|
    ensures forall i :: 0 <= i < |s| ==> r[i] == s[|s| - 1 - i]
  {
    seq(|s|, i requires 0 <= i < |s| => s[|s| - 1 - i])
  }

  lemma ReverseConcat<T>(a: seq<T>, b: seq<T>)
    ensures Reverse(a + b) == Reverse(b) + Reverse(a)
  {
    assert forall i :: 0 <= i < |a + b| ==> Reverse(a + b)[i] == (Reverse(b) + Reverse(a))[i];
  }

  lemma ReverseReverse<T>(s: seq<T>)
    ensures Reverse(Reverse(s)) == s
  {
  }

  /** Concatenation of a list of lists, in order. */
  function Flatten<T>(ss: seq<seq<T>>): seq<T>
  {
    if ss == [] then [] else ss[0] + Flatten(ss[1..])
  }

  lemma {:induction false} FlattenSnoc<T>(ss: seq<seq<T>>, x: seq<T>)
    ensures Flatten(ss + [x]) == Flatten(ss) + x
  {
    if ss == [] {
      assert ss + [x] == [x];
      assert [x][1..] == [];
    } else {
      assert (ss + [x])[1..] == ss[1..] + [x];
      FlattenSnoc(ss[1..], x);
    }
  }

  /** The reversal of a concatenation of chunks is the concatenation of the
      reversed chunks, taken in reverse order. */
  lemma {:induction false} ReverseFlatten<T>(ss: seq<seq<T>>)
    ensures Reverse(Flatten(ss)) == Flatten(Reverse(MapReverse(ss)))
  {
    if ss != [] {
      var head, tail := Reverse(ss[0]), Reverse(MapReverse(ss[1..]));
      ReverseFlatten(ss[1..]);
      ReverseConcat(ss[0], Flatten(ss[1..]));
      assert MapReverse(ss) == [head] + MapReverse(ss[1..]);
      ReverseConcat([head], MapReverse(ss[1..]));
      assert Reverse([head]) == [head];
      FlattenSnoc(tail, head);
      calc {
        Reverse(Flatten(ss));
        Reverse(Flatten(ss[1..])) + head;
        Flatten(tail) + head;
        Flatten(tail + [head]);
        Flatten(Reverse(MapReverse(ss)));
      }
    }
  }

  /** Each chunk reversed, the chunks kept in place. */
  function MapReverse<T>(ss: seq<seq<T>>): (r: seq<seq<T>>)
    ensures |r| == |ss|
    ensures forall i :: 0 <= i < |ss| ==> r[i] == Reverse(ss[i])
  {
    seq(|ss|, i requires 0 <= i < |ss| => Reverse(ss[i]))
  }
}
