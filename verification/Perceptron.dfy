/** The perceptron of tsoding/neural_network.cpp as arithmetic on weight vectors: what one sample
    does to the weights, what a run of samples does, and how often a run can adjust them. */
module Perceptron {

  const WIDTH := 50
  const HEIGHT := 50
  const CELLS := WIDTH * HEIGHT
  const BIAS := 10

  /** A layer, row after row. */
  type Vec = v: seq<int> | |v| == CELLS witness seq(CELLS, _ => 0)

  function Zero(): Vec {
    seq(CELLS, _ => 0)
  }

  // ---------- Vectors ----------

  function Dot(a: seq<int>, b: seq<int>): int
    requires |a| == |b|
  {
    if a == [] then 0 else
    var n := |a| - 1;
    Dot(a[..n], b[..n]) + a[n] * b[n]
  }

  /** `a + s * x`. */
  function Plus(a: seq<int>, s: int, x: seq<int>): (r: seq<int>)
    requires |a| == |x|
    ensures |r| == |a|
  {
    seq(|a|, i requires 0 <= i < |a| => a[i] + s * x[i])
  }

  lemma {:induction false} DotPlus(x: seq<int>, a: seq<int>, s: int, b: seq<int>)
    requires |x| == |a| == |b|
    ensures Dot(x, Plus(a, s, b)) == Dot(x, a) + s * Dot(x, b)
    decreases |x|
  {
    if x != [] {
      var n := |x| - 1;
      DotPlus(x[..n], a[..n], s, b[..n]);
      assert Plus(a, s, b)[..n] == Plus(a[..n], s, b[..n]);
      Distribute(x[n], a[n], s, b[n], Dot(x[..n], b[..n]));
    }
  }

  lemma Distribute(x: int, a: int, s: int, b: int, d: int)
    ensures x * (a + s * b) + s * d == x * a + s * (d + x * b)
  {
  }

  /** The square of a distance after a step. */
  lemma {:induction false} NormPlus(d: seq<int>, s: int, x: seq<int>)
    requires |d| == |x|
    ensures Dot(Plus(d, s, x), Plus(d, s, x)) == Dot(d, d) + 2 * s * Dot(x, d) + s * s * Dot(x, x)
    decreases |d|
  {
    if d != [] {
      var n := |d| - 1;
      NormPlus(d[..n], s, x[..n]);
      assert Plus(d, s, x)[..n] == Plus(d[..n], s, x[..n]);
      Square(d[n], s, x[n], Dot(x[..n], d[..n]), Dot(x[..n], x[..n]));
    }
  }

  lemma Square(d: int, s: int, x: int, p: int, q: int)
    ensures 2 * s * p + s * s * q + (d + s * x) * (d + s * x)
            == d * d + 2 * s * (p + x * d) + s * s * (q + x * x)
  {
  }

  lemma {:induction false} NormIsNatural(d: seq<int>)
    ensures Dot(d, d) >= 0
    decreases |d|
  {
    if d != [] {
      var n := |d| - 1;
      NormIsNatural(d[..n]);
      assert d[n] * d[n] >= 0;
    }
  }

  ghost predicate Binary(x: seq<int>) {
    forall i | 0 <= i < |x| :: x[i] == 0 || x[i] == 1
  }

  /** The number of set cells. */
  function SetCells(x: seq<int>): nat {
    if x == [] then 0 else SetCells(x[..|x| - 1]) + if x[|x| - 1] == 1 then 1 else 0
  }

  lemma {:induction false} BinaryNorm(x: seq<int>)
    requires Binary(x)
    ensures Dot(x, x) == SetCells(x) <= |x|
    decreases |x|
  {
    if x != [] {
      BinaryNorm(x[..|x| - 1]);
    }
  }

  // ---------- Training ----------

  datatype Sample = Sample(image: Vec, circle: bool)

  /** The two tests in `train_pass`. */
  predicate Misjudged(w: Vec, s: Sample) {
    if s.circle then Dot(s.image, w) < BIAS else Dot(s.image, w) > BIAS
  }

  function Adjusted(w: Vec, s: Sample): Vec {
    if Misjudged(w, s) then Plus(w, if s.circle then 1 else -1, s.image) else w
  }

  /** The weights after a run of samples, and how many of them were adjusted for. */
  function Weights(w: Vec, samples: seq<Sample>): Vec {
    if samples == [] then w else
    var n := |samples| - 1;
    Adjusted(Weights(w, samples[..n]), samples[n])
  }

  function Adjustments(w: Vec, samples: seq<Sample>): nat {
    if samples == [] then 0 else
    var n := |samples| - 1;
    Adjustments(w, samples[..n]) + if Misjudged(Weights(w, samples[..n]), samples[n]) then 1 else 0
  }

  lemma ShownOneMore(w: Vec, samples: seq<Sample>, s: Sample)
    ensures Weights(w, samples + [s]) == Adjusted(Weights(w, samples), s)
    ensures Adjustments(w, samples + [s])
            == Adjustments(w, samples) + if Misjudged(Weights(w, samples), s) then 1 else 0
  {
    assert (samples + [s])[..|samples|] == samples;
  }

  ghost predicate Images(samples: seq<Sample>) {
    forall s | s in samples :: Binary(s.image)
  }

  /** A run makes no adjustment exactly when the weights it starts from score every sample rightly. */
  lemma {:induction false} NoAdjustmentIff(w: Vec, samples: seq<Sample>)
    ensures Adjustments(w, samples) == 0
            <==> forall s | s in samples :: if s.circle then Dot(s.image, w) >= 10 else Dot(s.image, w) <= 10
    decreases |samples|
  {
    hide Dot, Plus;
    if samples != [] {
      var n := |samples| - 1;
      NoAdjustmentIff(w, samples[..n]);
      assert samples == samples[..n] + [samples[n]];
      if Adjustments(w, samples[..n]) == 0 {
        NoAdjustmentNoChange(w, samples[..n]);
      }
    }
  }

  /** What one adjustment does to a score, its own included: it moves by the overlap of the images,
      up for a circle and down for a rectangle. */
  lemma ScoreAfter(w: Vec, s: Sample, x: Vec)
    ensures var right := if s.circle then Dot(s.image, w) >= 10 else Dot(s.image, w) <= 10;
            Dot(x, Adjusted(w, s))
            == if right then Dot(x, w)
               else if s.circle then Dot(x, w) + Dot(x, s.image) else Dot(x, w) - Dot(x, s.image)
  {
    DotPlus(x, w, if s.circle then 1 else -1, s.image);
    hide Dot, Plus;
  }

  // ---------- How often the weights are adjusted ----------

  /** How far `u` is from judging `s` with margin `m`. */
  function Shortfall(u: Vec, m: int, s: Sample): (h: nat) {
    var h := if s.circle then BIAS + m - Dot(s.image, u) else Dot(s.image, u) - (BIAS - m);
    if h < 0 then 0 else h
  }

  /** The shortfalls of `u` on the samples that the run adjusts for. */
  function Shortfalls(w: Vec, samples: seq<Sample>, u: Vec, m: int): nat {
    if samples == [] then 0 else
    var n := |samples| - 1;
    Shortfalls(w, samples[..n], u, m)
    + if Misjudged(Weights(w, samples[..n]), samples[n]) then Shortfall(u, m, samples[n]) else 0
  }

  function Distance(w: Vec, u: Vec): int {
    Dot(Plus(w, -1, u), Plus(w, -1, u))
  }

  /** An adjustment brings the weights closer to `u`, up to twice its shortfall. */
  lemma AdjustmentApproaches(w: Vec, s: Sample, u: Vec, m: int)
    requires Binary(s.image) && SetCells(s.image) <= 2 * m + 1 && Misjudged(w, s)
    ensures Distance(Adjusted(w, s), u) + 1 <= Distance(w, u) + 2 * Shortfall(u, m, s)
  {
    var sign, x, d := if s.circle then 1 else -1, s.image, Plus(w, -1, u);
    assert Plus(Adjusted(w, s), -1, u) == Plus(d, sign, x);
    NormPlus(d, sign, x);
    DotPlus(x, w, -1, u);
    BinaryNorm(x);
  }

  /** The mistake bound, for every run and every `u`: no assumption that `u` judges anything
      rightly, its shortfalls are what it costs. */
  lemma {:induction false} MistakeBound(w: Vec, samples: seq<Sample>, u: Vec, m: int)
    requires Images(samples) && forall s | s in samples :: SetCells(s.image) <= 2 * m + 1
    ensures Adjustments(w, samples) + Distance(Weights(w, samples), u)
            <= Distance(w, u) + 2 * Shortfalls(w, samples, u, m)
    decreases |samples|
  {
    if samples != [] {
      var n := |samples| - 1;
      var before, s := samples[..n], samples[n];
      assert s in samples;
      MistakeBound(w, before, u, m);
      if Misjudged(Weights(w, before), s) {
        AdjustmentApproaches(Weights(w, before), s, u, m);
      }
    }
  }

  /** `u` scores at most BIAS - m on every rectangle shown and at least BIAS + m on every circle. */
  ghost predicate Separates(u: Vec, m: int, samples: seq<Sample>) {
    forall s | s in samples :: Shortfall(u, m, s) == 0
  }

  lemma {:induction false} SeparatedCostsNothing(w: Vec, samples: seq<Sample>, u: Vec, m: int)
    requires Separates(u, m, samples)
    ensures Shortfalls(w, samples, u, m) == 0
    decreases |samples|
  {
    if samples != [] {
      SeparatedCostsNothing(w, samples[..|samples| - 1], u, m);
      assert samples[|samples| - 1] in samples;
    }
  }

  lemma DistanceFromZero(u: Vec)
    ensures Distance(Zero(), u) == Dot(u, u)
  {
    NormPlus(Zero(), -1, u);
    DotZero(u, Zero());
    DotZero(Zero(), Zero());
  }

  lemma {:induction false} DotZero(a: seq<int>, z: seq<int>)
    requires |a| == |z| && forall i | 0 <= i < |z| :: z[i] == 0
    ensures Dot(a, z) == 0
    decreases |a|
  {
    if a != [] {
      DotZero(a[..|a| - 1], z[..|a| - 1]);
    }
  }

  /** From zero weights, the samples shown being separable: at most |u|^2 adjustments. */
  lemma SeparableMistakeBound(samples: seq<Sample>, u: Vec, m: int)
    requires Images(samples) && (forall s | s in samples :: SetCells(s.image) <= 2 * m + 1)
    requires Separates(u, m, samples)
    ensures Adjustments(Zero(), samples) <= Dot(u, u)
  {
    MistakeBound(Zero(), samples, u, m);
    SeparatedCostsNothing(Zero(), samples, u, m);
    DistanceFromZero(u);
    NormIsNatural(Plus(Weights(Zero(), samples), -1, u));
  }

  /** No weight grows beyond the number of adjustments. */
  lemma {:induction false} WeightsAreBounded(samples: seq<Sample>, i: nat)
    requires Images(samples) && i < CELLS
    ensures 0 <= Weights(Zero(), samples)[i] + Adjustments(Zero(), samples)
    ensures Weights(Zero(), samples)[i] <= Adjustments(Zero(), samples)
    decreases |samples|
  {
    if samples != [] {
      WeightsAreBounded(samples[..|samples| - 1], i);
      assert samples[|samples| - 1] in samples;
    }
  }

  lemma {:induction false} DotIsBounded(x: seq<int>, w: seq<int>, a: int)
    requires |x| == |w| && Binary(x) && forall i | 0 <= i < |w| :: -a <= w[i] <= a
    ensures -(|x| * a) <= Dot(x, w) <= |x| * a
    decreases |x|
  {
    if x != [] {
      var n := |x| - 1;
      DotIsBounded(x[..n], w[..n], a);
      assert |x| * a == n * a + a;
    }
  }

  /** A `float` holds every integer up to here. */
  const EXACT := 0x100_0000

  /** Up to 6710 adjustments no weight leaves the integers that a `float` holds, and no sum on the
      way to the score of any image does. */
  lemma FloatsAreExact(samples: seq<Sample>, x: Vec, i: nat)
    requires Images(samples) && Binary(x) && i <= CELLS && Adjustments(Zero(), samples) <= 6710
    ensures -EXACT <= Dot(x[..i], Weights(Zero(), samples)[..i]) <= EXACT
    ensures i < CELLS ==> -EXACT <= Weights(Zero(), samples)[i] <= EXACT
  {
    hide Weights, Adjustments, Dot, Binary, Images;
    var w, a := Weights(Zero(), samples), Adjustments(Zero(), samples);
    forall k: nat | k < CELLS ensures -a <= w[k] <= a {
      WeightsAreBounded(samples, k);
    }
    PartIsBinary(x, i);
    DotIsBounded(x[..i], w[..i], a);
    Products(i, a);
  }

  lemma PartIsBinary(x: seq<int>, i: nat)
    requires Binary(x) && i <= |x|
    ensures Binary(x[..i])
  {
  }

  lemma Products(i: nat, a: nat)
    requires i <= CELLS && a <= 6710
    ensures i * a <= EXACT
  {
    var d := CELLS - i;
    assert CELLS == 2500 && EXACT == 16777216 && d * a >= 0;
    assert (i + d) * a == i * a + d * a;
  }

  // ---------- The same samples, pass after pass ----------

  lemma {:induction false} RunAppend(w: Vec, xs: seq<Sample>, ys: seq<Sample>)
    ensures Weights(w, xs + ys) == Weights(Weights(w, xs), ys)
    ensures Adjustments(w, xs + ys) == Adjustments(w, xs) + Adjustments(Weights(w, xs), ys)
    decreases |ys|
  {
    if ys == [] {
      assert xs + ys == xs;
    } else {
      var n := |ys| - 1;
      RunAppend(w, xs, ys[..n]);
      assert (xs + ys)[..|xs + ys| - 1] == xs + ys[..n];
    }
  }

  lemma {:induction false} NoAdjustmentNoChange(w: Vec, samples: seq<Sample>)
    requires Adjustments(w, samples) == 0
    ensures Weights(w, samples) == w
    decreases |samples|
  {
    if samples != [] {
      NoAdjustmentNoChange(w, samples[..|samples| - 1]);
    }
  }

  function Repeat(samples: seq<Sample>, passes: nat): seq<Sample> {
    if passes == 0 then [] else Repeat(samples, passes - 1) + samples
  }

  lemma {:induction false} RepeatHas(samples: seq<Sample>, passes: nat)
    ensures forall s | s in Repeat(samples, passes) :: s in samples
  {
    if passes > 0 {
      RepeatHas(samples, passes - 1);
    }
  }

  /** `main` seeds the generator anew before every pass, so every pass shows the same samples:
      if they are separable, training reaches a pass without adjustments within |u|^2 passes, and
      nothing changes from then on. */
  lemma {:induction false} TrainingConverges(samples: seq<Sample>, u: Vec, m: int, passes: nat)
    requires Images(samples) && (forall s | s in samples :: SetCells(s.image) <= 2 * m + 1)
    requires Separates(u, m, samples) && passes >= Dot(u, u)
    ensures var w := Weights(Zero(), Repeat(samples, passes));
            && Adjustments(w, samples) == 0 && Weights(w, samples) == w
            && forall s | s in samples :: if s.circle then Dot(s.image, w) >= 10 else Dot(s.image, w) <= 10
  {
    var w := Weights(Zero(), Repeat(samples, passes));
    if Adjustments(w, samples) > 0 {
      EveryPassAdjusts(samples, passes + 1);
      RepeatHas(samples, passes + 1);
      SeparableMistakeBound(Repeat(samples, passes + 1), u, m);
      assert false;
    }
    NoAdjustmentIff(w, samples);
    NoAdjustmentNoChange(w, samples);
  }

  /** If the last of `passes` passes adjusts, then so did all before it. */
  lemma {:induction false} EveryPassAdjusts(samples: seq<Sample>, passes: nat)
    requires passes > 0
    requires Adjustments(Weights(Zero(), Repeat(samples, passes - 1)), samples) > 0
    ensures Adjustments(Zero(), Repeat(samples, passes)) >= passes
  {
    RunAppend(Zero(), Repeat(samples, passes - 1), samples);
    if passes > 1 {
      var w := Weights(Zero(), Repeat(samples, passes - 2));
      RunAppend(Zero(), Repeat(samples, passes - 2), samples);
      if Adjustments(w, samples) == 0 {
        NoAdjustmentNoChange(w, samples);
      }
      EveryPassAdjusts(samples, passes - 1);
    }
  }
}
