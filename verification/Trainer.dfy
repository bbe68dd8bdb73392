/** The loops of tsoding/neural_network.cpp over layers: drawing, scoring, adjusting, training. */
module Trainer {
  import opened Perceptron

  const SAMPLE_SIZE := 500

  /** `typedef float Layer[HEIGHT][WIDTH]`, with integer cells. */
  type Layer = array2<int>

  ghost predicate IsLayer(layer: Layer) {
    layer.Length0 == HEIGHT && layer.Length1 == WIDTH
  }

  ghost function Flat(layer: Layer): Vec
    requires IsLayer(layer)
    reads layer
  {
    seq(CELLS, k requires 0 <= k < CELLS reads layer requires IsLayer(layer) => layer[k / WIDTH, k % WIDTH])
  }

  function Clampi(x: int, low: int, high: int): (r: int)
    requires low <= high
    ensures low <= r <= high && (low <= x <= high ==> r == x)
    ensures x < low ==> r == low
    ensures x > high ==> r == high
  {
    var y := if x < low then low else x;
    if y > high then high else y
  }

  // ---------- Drawing ----------

  /** The cells of the rectangle, with its corner moved into the layer and clipped there. */
  method FillRect(layer: Layer, x: int, y: int, w: int, h: int, value: int)
    requires IsLayer(layer) && w > 0 && h > 0
    modifies layer
    ensures var x0, y0 := Clampi(x, 0, 49), Clampi(y, 0, 49);
            forall i, j | 0 <= i < 50 && 0 <= j < 50 ::
              layer[i, j] == if x0 <= j < x0 + w && y0 <= i < y0 + h then value else old(layer[i, j])
  {
    var x0 := Clampi(x, 0, WIDTH - 1);
    var y0 := Clampi(y, 0, HEIGHT - 1);
    var x1 := Clampi(x0 + w - 1, 0, WIDTH - 1);
    var y1 := Clampi(y0 + h - 1, 0, HEIGHT - 1);
    for row := y0 to y1 + 1
      invariant forall i, j | 0 <= i < HEIGHT && 0 <= j < WIDTH ::
                  layer[i, j] == if y0 <= i < row && x0 <= j <= x1 then value else old(layer[i, j])
    {
      for col := x0 to x1 + 1
        invariant forall i, j | 0 <= i < HEIGHT && 0 <= j < WIDTH ::
                    layer[i, j] == if (y0 <= i < row && x0 <= j <= x1) || (i == row && x0 <= j < col)
                                   then value else old(layer[i, j])
      {
        layer[row, col] := value;
      }
    }
  }

  predicate InDisc(cx: int, cy: int, r: int, x: int, y: int) {
    var dx, dy := x - cx, y - cy;
    dx * dx + dy * dy <= r * r
  }

  lemma DiscIsInItsBox(cx: int, cy: int, r: int, x: int, y: int)
    requires r > 0 && InDisc(cx, cy, r, x, y)
    ensures cx - r <= x <= cx + r && cy - r <= y <= cy + r
  {
    var dx, dy := x - cx, y - cy;
    assert dx * dx >= 0 && dy * dy >= 0;
    SquareBound(dx, r);
    SquareBound(dy, r);
  }

  lemma SquareBound(d: int, r: int)
    requires r > 0 && d * d <= r * r
    ensures -r <= d <= r
  {
    if d > r {
      SquareGrows(d, r);
    } else if d < -r {
      SquareGrows(-d, r);
    }
  }

  lemma SquareGrows(d: int, r: int)
    requires d > r > 0
    ensures d * d > r * r && -d * -d == d * d
  {
    assert d * d > r * d > r * r;
  }

  method FillCircle(layer: Layer, cx: int, cy: int, r: int, value: int)
    requires IsLayer(layer) && r > 0
    modifies layer
    ensures forall i, j | 0 <= i < HEIGHT && 0 <= j < WIDTH ::
              layer[i, j] == if InDisc(cx, cy, r, j, i) then value else old(layer[i, j])
  {
    var x0 := Clampi(cx - r, 0, WIDTH - 1);
    var y0 := Clampi(cy - r, 0, HEIGHT - 1);
    var x1 := Clampi(cx + r, 0, WIDTH - 1);
    var y1 := Clampi(cy + r, 0, HEIGHT - 1);
    for row := y0 to y1 + 1
      invariant forall i, j | 0 <= i < HEIGHT && 0 <= j < WIDTH ::
                  layer[i, j] == if y0 <= i < row && x0 <= j <= x1 && InDisc(cx, cy, r, j, i)
                                 then value else old(layer[i, j])
    {
      for col := x0 to x1 + 1
        invariant forall i, j | 0 <= i < HEIGHT && 0 <= j < WIDTH ::
                    layer[i, j] == if ((y0 <= i < row && x0 <= j <= x1) || (i == row && x0 <= j < col))
                                      && InDisc(cx, cy, r, j, i)
                                   then value else old(layer[i, j])
      {
        var dx, dy := col - cx, row - cy;
        if dx * dx + dy * dy <= r * r {
          layer[row, col] := value;
        }
      }
    }
    forall i, j | 0 <= i < HEIGHT && 0 <= j < WIDTH && InDisc(cx, cy, r, j, i)
      ensures x0 <= j <= x1 && y0 <= i <= y1
    {
      DiscIsInItsBox(cx, cy, r, j, i);
    }
  }

  /** `rand_range`, for any value that `rand()` may return. */
  method RandRange(low: int, high: int) returns (v: int)
    requires low < high
    ensures low <= v < high
  {
    var rand: nat := *;
    v := rand % (high - low) + low;
  }

  ghost predicate DrawsRect(image: Vec, before: Vec, x: int, y: int, w: int, h: int) {
    forall k | 0 <= k < CELLS ::
      image[k] == if x <= k % WIDTH < x + w && y <= k / WIDTH < y + h then 1 else before[k]
  }

  ghost predicate DrawsDisc(image: Vec, before: Vec, cx: int, cy: int, r: int) {
    forall k | 0 <= k < CELLS ::
      var dx, dy := k % WIDTH - cx, k / WIDTH - cy;
      image[k] == if dx * dx + dy * dy <= r * r then 1 else before[k]
  }

  /** A rectangle inside the layer, as `layer_random_rect` draws them, over what was there. */
  ghost predicate IsRectangle(image: Vec, before: Vec) {
    exists x, y, w, h | 0 <= x && 0 <= y && 0 < w && 0 < h && x + w <= WIDTH && y + h <= HEIGHT ::
      DrawsRect(image, before, x, y, w, h)
  }

  /** A disc around a cell: of radius 1, perhaps over the edge, or wholly inside the layer. */
  ghost predicate IsDisc(image: Vec, before: Vec) {
    exists cx, cy, r | 0 <= cx < WIDTH && 0 <= cy < HEIGHT && GoodRadius(cx, cy, r) ::
      DrawsDisc(image, before, cx, cy, r)
  }

  predicate GoodRadius(cx: int, cy: int, r: int) {
    r == 1 || (0 < r <= cx && cx + r < WIDTH && r <= cy && cy + r < HEIGHT)
  }

  /** `layer_fill_rect` over the whole of a layer. */
  method Clear(layer: Layer)
    requires IsLayer(layer)
    modifies layer
    ensures Flat(layer) == Zero()
  {
    FillRect(layer, 0, 0, WIDTH, HEIGHT, 0);
  }

  /** `layer_random_rect`: it clears its argument and draws into the global `inputs`. */
  method RandomRect(layer: Layer, inputs: Layer)
    requires IsLayer(layer) && IsLayer(inputs)
    modifies layer, inputs
    ensures layer == inputs ==> IsRectangle(Flat(inputs), Zero())
    ensures layer != inputs ==> Flat(layer) == Zero() && IsRectangle(Flat(inputs), old(Flat(inputs)))
  {
    Clear(layer);
    ghost var before := Flat(inputs);
    var x := RandRange(0, WIDTH);
    var y := RandRange(0, HEIGHT);
    var w := WIDTH - x;
    if w < 2 {
      w := 2;
    }
    w := RandRange(1, w);
    var h := HEIGHT - y;
    if h < 2 {
      h := 2;
    }
    h := RandRange(1, h);
    FillRect(inputs, x, y, w, h, 1);
    assert DrawsRect(Flat(inputs), before, x, y, w, h);
  }

  /** `layer_random_circle`, with the same two layers. */
  method RandomCircle(layer: Layer, inputs: Layer)
    requires IsLayer(layer) && IsLayer(inputs)
    modifies layer, inputs
    ensures layer == inputs ==> IsDisc(Flat(inputs), Zero())
    ensures layer != inputs ==> Flat(layer) == Zero() && IsDisc(Flat(inputs), old(Flat(inputs)))
  {
    Clear(layer);
    ghost var before := Flat(inputs);
    var cx := RandRange(0, WIDTH);
    var cy := RandRange(0, HEIGHT);
    var r := RandomRadius(cx, cy);
    FillCircle(inputs, cx, cy, r, 1);
    assert DrawsDisc(Flat(inputs), before, cx, cy, r);
  }

  lemma DrawnIsBinary(image: Vec)
    requires IsRectangle(image, Zero()) || IsDisc(image, Zero())
    ensures Binary(image)
  {
  }

  method RandomRadius(cx: int, cy: int) returns (r: int)
    ensures GoodRadius(cx, cy, r)
  {
    r := 0x7FFF_FFFF;
    if r > cx {
      r := cx;
    }
    if r > cy {
      r := cy;
    }
    if r > WIDTH - cx {
      r := WIDTH - cx;
    }
    if r > HEIGHT - cy {
      r := HEIGHT - cy;
    }
    if r < 2 {
      r := 2;
    }
    r := RandRange(1, r);
  }

  // ---------- Scoring and adjusting ----------

  lemma FlatAt(layer: Layer, i: nat, j: nat)
    requires IsLayer(layer) && i < HEIGHT && j < WIDTH
    ensures i * WIDTH + j < CELLS && Flat(layer)[i * WIDTH + j] == layer[i, j]
  {
    var k := i * WIDTH + j;
    assert k / WIDTH == i && k % WIDTH == j;
  }

  lemma DotTake(x: Vec, w: Vec, k: nat)
    requires k < CELLS
    ensures Dot(x[..0], w[..0]) == 0 && Dot(x[..k + 1], w[..k + 1]) == Dot(x[..k], w[..k]) + x[k] * w[k]
  {
    assert x[..k + 1][..k] == x[..k] && w[..k + 1][..k] == w[..k];
  }

  method FeedForward(inputs: Layer, weights: Layer) returns (output: int)
    requires IsLayer(inputs) && IsLayer(weights)
    ensures output == Dot(Flat(inputs), Flat(weights))
  {
    hide Flat, Dot;
    ghost var x, w := Flat(inputs), Flat(weights);
    output := 0;
    DotTake(x, w, 0);
    for i := 0 to HEIGHT
      invariant output == Dot(x[..i * WIDTH], w[..i * WIDTH])
    {
      for j := 0 to WIDTH
        invariant output == Dot(x[..i * WIDTH + j], w[..i * WIDTH + j])
      {
        FlatAt(inputs, i, j);
        FlatAt(weights, i, j);
        DotTake(x, w, i * WIDTH + j);
        output := output + inputs[i, j] * weights[i, j];
      }
    }
    assert x[..CELLS] == x && w[..CELLS] == w;
  }

  method AddInputsToWeights(inputs: Layer, weights: Layer)
    requires IsLayer(inputs) && IsLayer(weights) && inputs != weights
    modifies weights
    ensures Flat(weights) == Plus(old(Flat(weights)), 1, Flat(inputs))
  {
    for i := 0 to HEIGHT
      invariant forall a, b | 0 <= a < HEIGHT && 0 <= b < WIDTH ::
                  weights[a, b] == old(weights[a, b]) + if a < i then inputs[a, b] else 0
    {
      for j := 0 to WIDTH
        invariant forall a, b | 0 <= a < HEIGHT && 0 <= b < WIDTH ::
                    weights[a, b] == old(weights[a, b]) + if a < i || (a == i && b < j) then inputs[a, b] else 0
      {
        weights[i, j] := weights[i, j] + inputs[i, j];
      }
    }
  }

  method SubInputsFromWeights(inputs: Layer, weights: Layer)
    requires IsLayer(inputs) && IsLayer(weights) && inputs != weights
    modifies weights
    ensures Flat(weights) == Plus(old(Flat(weights)), -1, Flat(inputs))
  {
    for i := 0 to HEIGHT
      invariant forall a, b | 0 <= a < HEIGHT && 0 <= b < WIDTH ::
                  weights[a, b] == old(weights[a, b]) - if a < i then inputs[a, b] else 0
    {
      for j := 0 to WIDTH
        invariant forall a, b | 0 <= a < HEIGHT && 0 <= b < WIDTH ::
                    weights[a, b] == old(weights[a, b]) - if a < i || (a == i && b < j) then inputs[a, b] else 0
      {
        weights[i, j] := weights[i, j] - inputs[i, j];
      }
    }
  }

  // ---------- Training ----------

  /** Rectangles and discs by turns, as `train_pass` shows them. */
  ghost predicate Shows(samples: seq<Sample>) {
    forall i | 0 <= i < |samples| ::
      && samples[i].circle == (i % 2 == 1) && Binary(samples[i].image)
      && if i % 2 == 1 then IsDisc(samples[i].image, Zero()) else IsRectangle(samples[i].image, Zero())
  }

  method ShowRect(inputs: Layer, weights: Layer) returns (adjusted: bool, ghost s: Sample)
    requires IsLayer(inputs) && IsLayer(weights) && inputs != weights
    modifies inputs, weights
    ensures !s.circle && Binary(s.image) && IsRectangle(s.image, Zero())
    ensures adjusted == Misjudged(old(Flat(weights)), s) && Flat(weights) == Adjusted(old(Flat(weights)), s)
  {
    ghost var w := Flat(weights);
    RandomRect(inputs, inputs);
    DrawnIsBinary(Flat(inputs));
    s := Sample(Flat(inputs), false);
    assert Flat(weights) == w;
    var score := FeedForward(inputs, weights);
    adjusted := score > BIAS;
    if adjusted {
      SubInputsFromWeights(inputs, weights);
    }
  }

  method ShowCircle(inputs: Layer, weights: Layer) returns (adjusted: bool, ghost s: Sample)
    requires IsLayer(inputs) && IsLayer(weights) && inputs != weights
    modifies inputs, weights
    ensures s.circle && Binary(s.image) && IsDisc(s.image, Zero())
    ensures adjusted == Misjudged(old(Flat(weights)), s) && Flat(weights) == Adjusted(old(Flat(weights)), s)
  {
    ghost var w := Flat(weights);
    RandomCircle(inputs, inputs);
    DrawnIsBinary(Flat(inputs));
    s := Sample(Flat(inputs), true);
    assert Flat(weights) == w;
    var score := FeedForward(inputs, weights);
    adjusted := score < BIAS;
    if adjusted {
      AddInputsToWeights(inputs, weights);
    }
  }

  lemma NothingShown(w: Vec)
    ensures Weights(w, []) == w && Adjustments(w, []) == 0
  {
  }

  method TrainPass(inputs: Layer, weights: Layer) returns (adjust: nat, ghost shown: seq<Sample>)
    requires IsLayer(inputs) && IsLayer(weights) && inputs != weights
    modifies inputs, weights
    ensures |shown| == 1000 && Shows(shown)
    ensures adjust == Adjustments(old(Flat(weights)), shown)
    ensures Flat(weights) == Weights(old(Flat(weights)), shown)
  {
    hide Flat, IsDisc, IsRectangle, Binary, Adjusted, Misjudged, Weights, Adjustments;
    adjust, shown := 0, [];
    NothingShown(Flat(weights));
    ghost var w := Flat(weights);
    for i := 0 to SAMPLE_SIZE
      invariant |shown| == 2 * i && Shows(shown)
      invariant adjust == Adjustments(w, shown) && Flat(weights) == Weights(w, shown)
    {
      var missed, rect := ShowRect(inputs, weights);
      ShownOneMore(w, shown, rect);
      shown := shown + [rect];
      if missed {
        adjust := adjust + 1;
      }
      ghost var disc;
      missed, disc := ShowCircle(inputs, weights);
      ShownOneMore(w, shown, disc);
      shown := shown + [disc];
      if missed {
        adjust := adjust + 1;
      }
    }
  }
}
