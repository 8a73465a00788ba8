/** Tensors, the padding that ranks differ by, and elementwise broadcasting. */
module Tensors {
  import opened Strided

  /** Elements in row-major order; integer tensors hold whole numbers. */
  datatype Tensor = Tensor(dims: seq<nat>, data: seq<real>)

  /** As many elements as the shape says, and at least one. */
  predicate Full(t: Tensor) {
    (forall k :: 0 <= k < |t.dims| ==> t.dims[k] > 0) && |t.data| == Product(t.dims)
  }

  function Ones(n: nat): (r: seq<nat>)
    ensures |r| == n && AllOnes(r)
  {
    seq(n, _ => 1)
  }

  predicate AllOnes(dims: seq<nat>) {
    forall i :: 0 <= i < |dims| ==> dims[i] == 1
  }

  /** A single element, whatever the number of axes. */
  predicate IsUnit(t: Tensor) {
    |t.data| == 1 && AllOnes(t.dims)
  }

  function Unit(rank: nat, v: real): (t: Tensor)
    ensures IsUnit(t) && |t.dims| == rank
  {
    Tensor(Ones(rank), [v])
  }

  // ---- padding -------------------------------------------------------------------------------------

  /** `dims` with axes of length one put in front, up to `rank` axes. */
  function PadTo(dims: seq<nat>, rank: nat): (r: seq<nat>)
    ensures |r| == if rank <= |dims| then |dims| else rank
  {
    if rank <= |dims| then dims else Ones(rank - |dims|) + dims
  }

  /** `b` is `a` with axes of length one put in front. */
  predicate Padded(a: Tensor, b: Tensor) {
    |a.dims| <= |b.dims| && b == Tensor(PadTo(a.dims, |b.dims|), a.data)
  }

  lemma PaddedItself(t: Tensor)
    ensures Padded(t, t)
  {
  }

  lemma PadTwice(dims: seq<nat>, r: nat, s: nat)
    requires |dims| <= r <= s
    ensures PadTo(PadTo(dims, r), s) == PadTo(dims, s)
  {
  }

  // ---- broadcasting --------------------------------------------------------------------------------

  function Rank(a: Tensor, b: Tensor): (r: nat) {
    if |a.dims| < |b.dims| then |b.dims| else |a.dims|
  }

  predicate Compatible(a: seq<nat>, b: seq<nat>)
    requires |a| == |b|
  {
    forall k :: 0 <= k < |a| ==> a[k] == b[k] || a[k] == 1 || b[k] == 1
  }

  function Joint(a: seq<nat>, b: seq<nat>): (r: seq<nat>)
    requires |a| == |b|
    ensures |r| == |a|
  {
    seq(|a|, k requires 0 <= k < |a| => if a[k] == 1 then b[k] else a[k])
  }

  /** The index in a tensor of shape `dims` that an index of the joint shape reads. */
  function Source(dims: seq<nat>, index: seq<nat>): (r: seq<nat>)
    requires |dims| == |index|
    ensures |r| == |dims|
  {
    seq(|dims|, k requires 0 <= k < |dims| => if dims[k] == 1 then 0 else index[k])
  }

  function Element(dims: seq<nat>, data: seq<real>, index: seq<nat>): (v: real)
    requires |dims| == |index|
  {
    var at := RowMajor(dims, index);
    if at < |data| then data[at] else 0.0
  }

  predicate Empty(dims: seq<nat>) {
    exists k :: 0 <= k < |dims| && dims[k] == 0
  }

  function Pairwise(f: (real, real) -> real, s: seq<real>, t: seq<real>): (r: seq<real>)
    requires |s| == |t|
    ensures |r| == |s| && forall i :: 0 <= i < |s| ==> r[i] == f(s[i], t[i])
  {
    seq(|s|, i requires 0 <= i < |s| && |s| == |t| => f(s[i], t[i]))
  }

  function WithLeft(f: (real, real) -> real, x: real, t: seq<real>): (r: seq<real>)
    ensures |r| == |t| && forall i :: 0 <= i < |t| ==> r[i] == f(x, t[i])
  {
    seq(|t|, i requires 0 <= i < |t| => f(x, t[i]))
  }

  function WithRight(f: (real, real) -> real, s: seq<real>, y: real): (r: seq<real>)
    ensures |r| == |s| && forall i :: 0 <= i < |s| ==> r[i] == f(s[i], y)
  {
    seq(|s|, i requires 0 <= i < |s| => f(s[i], y))
  }

  function ElementOf(f: (real, real) -> real, a: seq<nat>, s: seq<real>, b: seq<nat>, t: seq<real>, p: nat): (v: real)
    requires |a| == |b| && !Empty(Joint(a, b))
  {
    var index := Digits(Joint(a, b), p);
    f(Element(a, s, Source(a, index)), Element(b, t, Source(b, index)))
  }

  function Elementwise(f: (real, real) -> real, a: seq<nat>, s: seq<real>, b: seq<nat>, t: seq<real>): (r: seq<real>)
    requires |a| == |b| && !Empty(Joint(a, b))
    ensures |r| == Product(Joint(a, b)) && forall p :: 0 <= p < |r| ==> r[p] == ElementOf(f, a, s, b, t, p)
  {
    seq(Product(Joint(a, b)), p requires 0 <= p && |a| == |b| && !Empty(Joint(a, b)) => ElementOf(f, a, s, b, t, p))
  }

  /** The elements of two tensors whose shapes have been brought to one rank, combined over the joint shape. */
  function Combine(f: (real, real) -> real, a: seq<nat>, s: seq<real>, b: seq<nat>, t: seq<real>): (r: seq<real>)
    requires |a| == |b|
  {
    if a == b && |s| == |t| then Pairwise(f, s, t)
    else if AllOnes(a) && |s| == 1 then WithLeft(f, s[0], t)
    else if AllOnes(b) && |t| == 1 then WithRight(f, s, t[0])
    else if Empty(Joint(a, b)) then []
    else Elementwise(f, a, s, b, t)
  }

  /** Shapes aligned at their last axes agree, or one of them is one, on every axis. */
  predicate Broadcasts(a: Tensor, b: Tensor) {
    Compatible(PadTo(a.dims, Rank(a, b)), PadTo(b.dims, Rank(a, b)))
  }

  function Broadcast(f: (real, real) -> real, a: Tensor, b: Tensor): (t: Tensor)
    requires Broadcasts(a, b)
    ensures |t.dims| == Rank(a, b)
  {
    var x, y := PadTo(a.dims, Rank(a, b)), PadTo(b.dims, Rank(a, b));
    Tensor(Joint(x, y), Combine(f, x, a.data, y, b.data))
  }

  // ---- what broadcasting computes ------------------------------------------------------------------

  lemma SourceOfOwn(dims: seq<nat>, p: nat)
    requires forall k :: 0 <= k < |dims| ==> dims[k] > 0
    ensures Source(dims, Digits(dims, p)) == Digits(dims, p)
  {
  }

  lemma {:induction false} OnesHaveOne(dims: seq<nat>)
    requires AllOnes(dims)
    ensures Product(dims) == 1
  {
    if dims != [] {
      OnesHaveOne(dims[..|dims| - 1]);
    }
  }

  lemma {:induction false} OnesAtZero(dims: seq<nat>, index: seq<nat>)
    requires AllOnes(dims) && |index| == |dims| && forall k :: 0 <= k < |dims| ==> index[k] == 0
    ensures RowMajor(dims, index) == 0
  {
    if dims != [] {
      OnesAtZero(dims[..|dims| - 1], index[..|dims| - 1]);
    }
  }

  lemma OwnElement(dims: seq<nat>, data: seq<real>, p: nat)
    requires Full(Tensor(dims, data)) && p < |data|
    ensures Element(dims, data, Source(dims, Digits(dims, p))) == data[p]
  {
    SourceOfOwn(dims, p);
    DigitsAreRowMajor(dims, p);
  }

  lemma OnlyElement(dims: seq<nat>, data: seq<real>, index: seq<nat>)
    requires AllOnes(dims) && |data| == 1 && |index| == |dims|
    ensures Element(dims, data, Source(dims, index)) == data[0]
  {
    OnesAtZero(dims, Source(dims, index));
  }

  lemma JointSides(a: seq<nat>, b: seq<nat>)
    requires |a| == |b|
    ensures a == b ==> Joint(a, b) == a
    ensures AllOnes(a) ==> Joint(a, b) == b
    ensures AllOnes(b) ==> Joint(a, b) == a
  {
  }

  /** In every case the element at an index of the joint shape combines the two elements it is made of. */
  lemma CombineElement(f: (real, real) -> real, a: seq<nat>, s: seq<real>, b: seq<nat>, t: seq<real>, p: nat)
    requires |a| == |b| && Full(Tensor(a, s)) && Full(Tensor(b, t)) && !Empty(Joint(a, b)) && p < Product(Joint(a, b))
    ensures |Combine(f, a, s, b, t)| == Product(Joint(a, b))
    ensures Combine(f, a, s, b, t)[p] == ElementOf(f, a, s, b, t, p)
  {
    JointSides(a, b);
    if a == b {
      OwnElement(a, s, p);
      OwnElement(b, t, p);
    } else if AllOnes(a) && |s| == 1 {
      OwnElement(b, t, p);
      OnlyElement(a, s, Digits(b, p));
    } else if AllOnes(b) && |t| == 1 {
      OwnElement(a, s, p);
      OnlyElement(b, t, Digits(a, p));
    }
  }

  // ---- padding and broadcasting --------------------------------------------------------------------

  /** A tensor padded to no more axes than the other has combines to exactly the same tensor. */
  lemma PaddingAbsorbed(f: (real, real) -> real, a: Tensor, b: Tensor, padded: Tensor)
    requires Broadcasts(a, b) && Padded(b, padded) && |padded.dims| <= |a.dims|
    ensures Broadcasts(a, padded) && Broadcast(f, a, padded) == Broadcast(f, a, b)
  {
    PadTwice(b.dims, |padded.dims|, |a.dims|);
  }

  lemma PaddingAbsorbedLeft(f: (real, real) -> real, a: Tensor, b: Tensor, padded: Tensor)
    requires Broadcasts(a, b) && Padded(a, padded) && |padded.dims| <= |b.dims|
    ensures Broadcasts(padded, b) && Broadcast(f, padded, b) == Broadcast(f, a, b)
  {
    PadTwice(a.dims, |padded.dims|, |b.dims|);
  }

  function Zeros(n: nat): (r: seq<nat>)
    ensures |r| == n
  {
    seq(n, _ => 0)
  }

  lemma {:induction false} ProductPadded(j: nat, dims: seq<nat>)
    ensures Product(Ones(j) + dims) == Product(dims)
  {
    if dims == [] {
      OnesHaveOne(Ones(j));
      assert Ones(j) + dims == Ones(j);
    } else {
      var n := |dims| - 1;
      assert (Ones(j) + dims)[..j + n] == Ones(j) + dims[..n];
      ProductPadded(j, dims[..n]);
    }
  }

  lemma {:induction false} OnesDigits(j: nat, p: nat)
    ensures Digits(Ones(j), p) == Zeros(j)
  {
    if j > 0 {
      assert Ones(j)[..j - 1] == Ones(j - 1);
      OnesDigits(j - 1, p);
    }
  }

  lemma {:induction false} DigitsPadded(j: nat, dims: seq<nat>, p: nat)
    requires forall k :: 0 <= k < |dims| ==> dims[k] > 0
    ensures Digits(Ones(j) + dims, p) == Zeros(j) + Digits(dims, p)
  {
    if dims == [] {
      OnesDigits(j, p);
      assert Ones(j) + dims == Ones(j);
    } else {
      var n := |dims| - 1;
      assert (Ones(j) + dims)[..j + n] == Ones(j) + dims[..n];
      DigitsPadded(j, dims[..n], p / dims[n]);
    }
  }

  lemma {:induction false} RowMajorPadded(j: nat, dims: seq<nat>, index: seq<nat>)
    requires |index| == |dims|
    ensures RowMajor(Ones(j) + dims, Zeros(j) + index) == RowMajor(dims, index)
  {
    if dims == [] {
      OnesAtZero(Ones(j), Zeros(j));
      assert Ones(j) + dims == Ones(j) && Zeros(j) + index == Zeros(j);
    } else {
      var n := |dims| - 1;
      assert (Ones(j) + dims)[..j + n] == Ones(j) + dims[..n];
      assert (Zeros(j) + index)[..j + n] == Zeros(j) + index[..n];
      RowMajorPadded(j, dims[..n], index[..n]);
    }
  }

  lemma ElementPadded(j: nat, dims: seq<nat>, data: seq<real>, index: seq<nat>)
    requires |index| == |dims|
    ensures Element(Ones(j) + dims, data, Source(Ones(j) + dims, Zeros(j) + index))
            == Element(dims, data, Source(dims, index))
  {
    assert Source(Ones(j) + dims, Zeros(j) + index) == Zeros(j) + Source(dims, index);
    RowMajorPadded(j, dims, Source(dims, index));
  }

  lemma PaddedAt(j: nat, a: seq<nat>, k: nat)
    requires k < |a|
    ensures (Ones(j) + a)[j + k] == a[k]
  {
  }

  lemma JointPadded(j: nat, a: seq<nat>, b: seq<nat>)
    requires |a| == |b|
    ensures Joint(Ones(j) + a, Ones(j) + b) == Ones(j) + Joint(a, b)
  {
  }

  lemma EmptyPadded(j: nat, dims: seq<nat>)
    ensures Empty(Ones(j) + dims) <==> Empty(dims)
  {
    if Empty(dims) {
      var k :| 0 <= k < |dims| && dims[k] == 0;
      PaddedAt(j, dims, k);
    }
  }

  lemma CompatiblePadded(j: nat, a: seq<nat>, b: seq<nat>)
    requires |a| == |b|
    ensures Compatible(Ones(j) + a, Ones(j) + b) <==> Compatible(a, b)
  {
    forall k | 0 <= k < |a| ensures (Ones(j) + a)[j + k] == a[k] && (Ones(j) + b)[j + k] == b[k] {
    }
  }

  lemma SamePadded(j: nat, a: seq<nat>, b: seq<nat>)
    ensures Ones(j) + a == Ones(j) + b <==> a == b
  {
    assert (Ones(j) + a)[j..] == a && (Ones(j) + b)[j..] == b;
  }

  lemma OnesPadded(j: nat, dims: seq<nat>)
    ensures AllOnes(Ones(j) + dims) <==> AllOnes(dims)
  {
    forall k | 0 <= k < |dims| ensures (Ones(j) + dims)[j + k] == dims[k] {
    }
  }

  lemma ElementOfPadded(f: (real, real) -> real, j: nat, a: seq<nat>, s: seq<real>, b: seq<nat>, t: seq<real>, p: nat)
    requires |a| == |b| && !Empty(Joint(a, b)) && !Empty(Joint(Ones(j) + a, Ones(j) + b))
    ensures ElementOf(f, Ones(j) + a, s, Ones(j) + b, t, p) == ElementOf(f, a, s, b, t, p)
  {
    JointPadded(j, a, b);
    DigitsPadded(j, Joint(a, b), p);
    ElementPadded(j, a, s, Digits(Joint(a, b), p));
    ElementPadded(j, b, t, Digits(Joint(a, b), p));
  }

  lemma ElementwisePadded(f: (real, real) -> real, j: nat, a: seq<nat>, s: seq<real>, b: seq<nat>, t: seq<real>)
    requires |a| == |b| && !Empty(Joint(a, b)) && !Empty(Joint(Ones(j) + a, Ones(j) + b))
    ensures Elementwise(f, Ones(j) + a, s, Ones(j) + b, t) == Elementwise(f, a, s, b, t)
  {
    JointPadded(j, a, b);
    ProductPadded(j, Joint(a, b));
    forall p | 0 <= p < Product(Joint(a, b))
      ensures ElementOf(f, Ones(j) + a, s, Ones(j) + b, t, p) == ElementOf(f, a, s, b, t, p)
    {
      ElementOfPadded(f, j, a, s, b, t, p);
    }
  }

  lemma CombinePadded(f: (real, real) -> real, j: nat, a: seq<nat>, s: seq<real>, b: seq<nat>, t: seq<real>)
    requires |a| == |b|
    ensures Combine(f, Ones(j) + a, s, Ones(j) + b, t) == Combine(f, a, s, b, t)
  {
    JointPadded(j, a, b);
    EmptyPadded(j, Joint(a, b));
    SamePadded(j, a, b);
    OnesPadded(j, a);
    OnesPadded(j, b);
    if !Empty(Joint(a, b)) {
      ElementwisePadded(f, j, a, s, b, t);
    }
  }

  lemma PadFurther(dims: seq<nat>, r: nat, s: nat)
    requires |dims| <= r <= s
    ensures PadTo(dims, s) == Ones(s - r) + PadTo(dims, r)
  {
    PadTwice(dims, r, s);
  }

  lemma SpreadAt(f: (real, real) -> real, j: nat, x: seq<nat>, s: seq<real>, y: seq<nat>, t: seq<real>)
    requires |x| == |y| && Compatible(x, y)
    ensures Compatible(Ones(j) + x, Ones(j) + y)
    ensures Padded(Tensor(Joint(x, y), Combine(f, x, s, y, t)),
                   Tensor(Joint(Ones(j) + x, Ones(j) + y), Combine(f, Ones(j) + x, s, Ones(j) + y, t)))
  {
    JointPadded(j, x, y);
    CompatiblePadded(j, x, y);
    CombinePadded(f, j, x, s, y, t);
  }

  lemma PaddedDims(a: Tensor, c: Tensor, r: nat, s: nat)
    requires Padded(a, c) && |a.dims| <= r <= s && |c.dims| <= s
    ensures PadTo(c.dims, s) == Ones(s - r) + PadTo(a.dims, r)
  {
    PadTwice(a.dims, |c.dims|, s);
    PadFurther(a.dims, r, s);
  }

  /** Padding on either side only pads the result: the elements do not change. */
  lemma PaddingSpreads(f: (real, real) -> real, a: Tensor, b: Tensor, c: Tensor, d: Tensor)
    requires Broadcasts(a, b) && Padded(a, c) && Padded(b, d)
    ensures Broadcasts(c, d) && Padded(Broadcast(f, a, b), Broadcast(f, c, d))
  {
    var r, s := Rank(a, b), Rank(c, d);
    PaddedDims(a, c, r, s);
    PaddedDims(b, d, r, s);
    SpreadAt(f, s - r, PadTo(a.dims, r), a.data, PadTo(b.dims, r), b.data);
  }
}
