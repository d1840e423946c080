/** Concatenation of a list of lists. */
module Lists {
  ghost function Flat<T>(xs: seq<seq<T>>): seq<T> {
    if xs == [] then [] else Flat(xs[..|xs| - 1]) + xs[|xs| - 1]
  }

  lemma FlatLast<T>(xs: seq<seq<T>>, x: seq<T>)
    ensures Flat(xs + [x]) == Flat(xs) + x
  {
    assert (xs + [x])[..|xs|] == xs;
  }

  lemma {:induction false} FlatConcat<T>(xs: seq<seq<T>>, ys: seq<seq<T>>)
    ensures Flat(xs + ys) == Flat(xs) + Flat(ys)
  {
    if ys == [] {
      assert xs + ys == xs;
    } else {
      hide Flat;
      var n := |ys| - 1;
      var zs, y := ys[..n], ys[n];
      assert ys == zs + [y];
      Assoc(xs, zs, [y]);
      FlatConcat(xs, zs);
      FlatLast(xs + zs, y);
      FlatLast(zs, y);
      Assoc(Flat(xs), Flat(zs), y);
    }
  }

  lemma Assoc<T>(a: seq<T>, b: seq<T>, c: seq<T>)
    ensures a + b + c == a + (b + c)
  {
  }

  lemma SliceLast<T>(b: seq<T>, from: nat, i: nat)
    requires from <= i < |b|
    ensures b[from..i + 1] == b[from..i] + [b[i]]
  {
  }

  lemma SliceSlice<T>(b: seq<T>, from: nat, to: nat, x: nat, y: nat)
    requires from <= to <= |b| && x <= y <= to - from
    ensures b[from..to][x..y] == b[x + from..y + from]
  {
    var l, r := b[from..to][x..y], b[x + from..y + from];
    forall k | 0 <= k < |l|
      ensures l[k] == r[k]
    {
      assert l[k] == b[from..to][x + k] == b[from + (x + k)];
    }
  }

  lemma FlatOne<T>(x: seq<T>)
    ensures Flat([x]) == x
  {
    assert [x][..0] == [];
  }

  /** Where block `j` sits in the concatenation. */
  lemma FlatSplit<T>(xs: seq<seq<T>>, j: nat)
    requires j < |xs|
    ensures Flat(xs) == Flat(xs[..j]) + xs[j] + Flat(xs[j + 1..])
  {
    hide Flat;
    Around(xs, j);
    FlatConcat(xs[..j] + [xs[j]], xs[j + 1..]);
    FlatLast(xs[..j], xs[j]);
  }

  lemma Around<T>(xs: seq<T>, j: nat)
    requires j < |xs|
    ensures xs == xs[..j] + [xs[j]] + xs[j + 1..]
  {
  }

  lemma FlatAt<T>(xs: seq<seq<T>>, j: nat, c: nat)
    requires j < |xs| && c < |xs[j]|
    ensures |Flat(xs[..j])| + c < |Flat(xs)|
    ensures Flat(xs)[|Flat(xs[..j])| + c] == xs[j][c]
  {
    FlatSplit(xs, j);
  }

  /** Every position of the concatenation lies in some block. */
  lemma {:induction false} FlatLocate<T>(xs: seq<seq<T>>, i: nat) returns (j: nat, c: nat)
    requires i < |Flat(xs)|
    ensures j < |xs| && c < |xs[j]|
    ensures i == |Flat(xs[..j])| + c
    ensures Flat(xs)[i] == xs[j][c]
  {
    var n := |xs| - 1;
    if i < |Flat(xs[..n])| {
      j, c := FlatLocate(xs[..n], i);
      assert xs[..n][..j] == xs[..j];
    } else {
      j, c := n, i - |Flat(xs[..n])|;
    }
  }

  /** The block after block `j` starts where block `j` ends. */
  lemma FlatNext<T>(xs: seq<seq<T>>, j: nat)
    requires j < |xs|
    ensures Flat(xs[..j + 1]) == Flat(xs[..j]) + xs[j]
  {
    assert xs[..j + 1][..j] == xs[..j];
  }
}
