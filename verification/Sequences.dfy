/** Sequences of sequences, laid end to end. */
module Sequences {

  function Flatten<T>(parts: seq<seq<T>>): seq<T> {
    if parts == [] then [] else parts[0] + Flatten(parts[1..])
  }

  lemma Associative<T>(a: seq<T>, b: seq<T>, c: seq<T>)
    ensures a + (b + c) == a + b + c
  {
  }

  lemma {:induction false} FlattenAppend<T>(xs: seq<seq<T>>, ys: seq<seq<T>>)
    ensures Flatten(xs + ys) == Flatten(xs) + Flatten(ys)
  {
    if xs == [] {
      assert xs + ys == ys;
    } else {
      FlattenAppend(xs[1..], ys);
      assert (xs + ys)[0] == xs[0] && (xs + ys)[1..] == xs[1..] + ys;
      Associative(xs[0], Flatten(xs[1..]), Flatten(ys));
    }
  }

  lemma FlattenTake<T>(parts: seq<seq<T>>, i: nat)
    requires i < |parts|
    ensures Flatten(parts[..i + 1]) == Flatten(parts[..i]) + parts[i]
  {
    assert parts[..i + 1] == parts[..i] + [parts[i]];
    FlattenAppend(parts[..i], [parts[i]]);
    assert [parts[i]][1..] == [];
  }

  /** Where element `j` of part `i` ends up. */
  lemma FlattenAt<T>(parts: seq<seq<T>>, i: nat, j: nat)
    requires i < |parts| && j < |parts[i]|
    ensures |Flatten(parts[..i])| + j < |Flatten(parts)|
    ensures Flatten(parts)[|Flatten(parts[..i])| + j] == parts[i][j]
    ensures j + 1 == |parts[i]| ==> |Flatten(parts[..i + 1])| == |Flatten(parts[..i])| + j + 1
  {
    FlattenTake(parts, i);
    assert parts == parts[..i + 1] + parts[i + 1..];
    FlattenAppend(parts[..i + 1], parts[i + 1..]);
  }

  /** Every element comes from a part. */
  lemma {:induction false} FlattenFrom<T>(parts: seq<seq<T>>, p: nat) returns (i: nat, j: nat)
    requires p < |Flatten(parts)|
    ensures i < |parts| && j < |parts[i]| && p == |Flatten(parts[..i])| + j && Flatten(parts)[p] == parts[i][j]
    decreases |parts|
  {
    if p < |parts[0]| {
      i, j := 0, p;
    } else {
      i, j := FlattenFrom(parts[1..], p - |parts[0]|);
      i := i + 1;
      assert parts[..i][1..] == parts[1..][..i - 1];
    }
  }

  lemma {:induction false} FlattenLengths<S, T>(xs: seq<seq<S>>, ys: seq<seq<T>>)
    requires |xs| == |ys| && forall i | 0 <= i < |xs| :: |xs[i]| == |ys[i]|
    ensures |Flatten(xs)| == |Flatten(ys)|
  {
    if xs != [] {
      FlattenLengths(xs[1..], ys[1..]);
    }
  }

  lemma Slices<T>(s: seq<T>, from: nat, n: nat, k: nat)
    requires from + n <= |s| && k <= n
    ensures s[from..from + n][..k] == s[from..from + k] && s[from..from + n][k..] == s[from + k..from + n]
  {
  }
}
