/** NeuralNetwork: the fixed 1220-512-256-128-64 architecture, its initialisation, forward pass,
    gradient step, and the element-wise crossover and mutation the evolutionary trainer uses.
    Random draws are functions of the element they are drawn for; `exp` and `sqrt` are
    parameters. */
module Network {
  import opened Wrappers

  /** Layer widths, input first. */
  const Widths: seq<nat> := [1220, 512, 256, 128, 64]
  /** Number of weight layers. */
  const Layers: nat := 4
  const InputWidth: nat := 1220
  const OutputWidth: nat := 64
  const LearningRate: real := 0.001

  /** weights[l][i][j] connects input j of layer l to its output i; biases[l][i] is output i's. */
  datatype Net = Net(weights: seq<seq<seq<real>>>, biases: seq<seq<real>>)

  /** A network element: a weight or a bias. */
  datatype Pos = Weight(l: nat, i: nat, j: nat) | Bias(l: nat, i: nat)

  /** The tensor shapes the architecture fixes. */
  predicate Shaped(n: Net) {
    && |n.weights| == Layers && |n.biases| == Layers
    && forall l :: 0 <= l < Layers ==>
         && |n.weights[l]| == Widths[l + 1] && |n.biases[l]| == Widths[l + 1]
         && forall i :: 0 <= i < |n.weights[l]| ==> |n.weights[l][i]| == Widths[l]
  }

  /** The shape facts of one layer. */
  lemma ShapeAt(n: Net, l: nat)
    requires Shaped(n) && l < Layers
    ensures |n.weights[l]| == |n.biases[l]| == Widths[l + 1]
    ensures forall i :: 0 <= i < Widths[l + 1] ==> |n.weights[l][i]| == Widths[l]
  {
  }

  /** Two shaped networks are equal when they agree on every element. */
  lemma SameElements(a: Net, b: Net)
    requires Shaped(a) && Shaped(b)
    requires forall l, i, j :: 0 <= l < Layers && 0 <= i < Widths[l + 1] && 0 <= j < Widths[l] ==>
               a.weights[l][i][j] == b.weights[l][i][j]
    requires forall l, i :: 0 <= l < Layers && 0 <= i < Widths[l + 1] ==> a.biases[l][i] == b.biases[l][i]
    ensures a == b
  {
    forall l | 0 <= l < Layers ensures a.weights[l] == b.weights[l] && a.biases[l] == b.biases[l] {
      assert |a.weights[l]| == |b.weights[l]| == Widths[l + 1];
      forall i | 0 <= i < Widths[l + 1] ensures a.weights[l][i] == b.weights[l][i] {
        assert |a.weights[l][i]| == |b.weights[l][i]| == Widths[l];
        assert forall j :: 0 <= j < Widths[l] ==> a.weights[l][i][j] == b.weights[l][i][j];
      }
      assert |a.biases[l]| == |b.biases[l]| == Widths[l + 1];
      assert forall i :: 0 <= i < Widths[l + 1] ==> a.biases[l][i] == b.biases[l][i];
    }
    assert a.weights == b.weights;
    assert a.biases == b.biases;
  }

  // ---------------------------------------------------------------- activations

  function Relu(x: real): (y: real)
    ensures y >= 0.0 && y >= x
    ensures x > 0.0 ==> y == x
    ensures x <= 0.0 ==> y == 0.0
  {
    if x > 0.0 then x else 0.0
  }

  function ReluDerivative(x: real): (d: real)
    ensures d == 0.0 || d == 1.0
    ensures d == 1.0 <==> x > 0.0
  {
    if x > 0.0 then 1.0 else 0.0
  }

  /** The exponential is only known to be positive. */
  type Positive = x: real | x > 0.0 witness 1.0

  function Sigmoid(x: real, exp: real -> Positive): (y: real)
    ensures 0.0 < y < 1.0
  {
    var d: real := 1.0 + exp(-x);
    assert 1.0 / d < 1.0;
    1.0 / d
  }

  // ---------------------------------------------------------------- initialisation

  /** `initializeWeights`: each weight is a Gaussian draw scaled by sqrt(2 / fan-in), each bias 0.
      The source seeds its generator with 42, so `gauss` is one fixed stream. */
  function Initial(gauss: Pos -> real, sqrt: real -> real): (n: Net)
    ensures Shaped(n)
    ensures forall l, i :: 0 <= l < Layers && 0 <= i < Widths[l + 1] ==> n.biases[l][i] == 0.0
    ensures forall l, i, j :: 0 <= l < Layers && 0 <= i < Widths[l + 1] && 0 <= j < Widths[l] ==>
              n.weights[l][i][j] == gauss(Weight(l, i, j)) * sqrt(2.0 / (Widths[l] as real))
  {
    Build((l: nat, i: nat, j: nat) =>
            if l < Layers then gauss(Weight(l, i, j)) * sqrt(2.0 / (Widths[l] as real)) else 0.0,
          (l: nat, i: nat) => 0.0)
  }

  function Vector(k: nat, f: nat -> real): (v: seq<real>)
    ensures |v| == k && forall i :: 0 <= i < k ==> v[i] == f(i)
  {
    seq(k, i requires 0 <= i < k => f(i))
  }

  function Matrix(rows: nat, cols: nat, f: (nat, nat) -> real): (m: seq<seq<real>>)
    ensures |m| == rows
    ensures forall i :: 0 <= i < rows ==> |m[i]| == cols
    ensures forall i, j :: 0 <= i < rows && 0 <= j < cols ==> m[i][j] == f(i, j)
  {
    seq(rows, i requires 0 <= i < rows => Vector(cols, (j: nat) => f(i, j)))
  }

  /** The shaped network whose weight (l, i, j) is `w(l, i, j)` and whose bias (l, i) is `b(l, i)`. */
  function Build(w: (nat, nat, nat) -> real, b: (nat, nat) -> real): (n: Net)
    ensures Shaped(n)
    ensures forall l, i, j :: 0 <= l < Layers && 0 <= i < Widths[l + 1] && 0 <= j < Widths[l] ==>
              n.weights[l][i][j] == w(l, i, j)
    ensures forall l, i :: 0 <= l < Layers && 0 <= i < Widths[l + 1] ==> n.biases[l][i] == b(l, i)
  {
    var n := Net(seq(Layers, l requires 0 <= l < Layers => WeightLayer(w, l)),
                 seq(Layers, l requires 0 <= l < Layers => BiasLayer(b, l)));
    assert forall l :: 0 <= l < Layers ==> n.weights[l] == WeightLayer(w, l) && n.biases[l] == BiasLayer(b, l);
    n
  }

  /** Layer `l` of the weights `w` describes. */
  function WeightLayer(w: (nat, nat, nat) -> real, l: nat): (m: seq<seq<real>>)
    requires l < Layers
    ensures |m| == Widths[l + 1] && forall i :: 0 <= i < Widths[l + 1] ==> |m[i]| == Widths[l]
    ensures forall i, j :: 0 <= i < Widths[l + 1] && 0 <= j < Widths[l] ==> m[i][j] == w(l, i, j)
  {
    Matrix(Widths[l + 1], Widths[l], (i: nat, j: nat) => w(l, i, j))
  }

  /** Layer `l` of the biases `b` describes. */
  function BiasLayer(b: (nat, nat) -> real, l: nat): (v: seq<real>)
    requires l < Layers
    ensures |v| == Widths[l + 1] && forall i :: 0 <= i < Widths[l + 1] ==> v[i] == b(l, i)
  {
    Vector(Widths[l + 1], (i: nat) => b(l, i))
  }

  /** Weight (l, i, j), or 0 outside the tensor. */
  function WeightAt(n: Net, l: nat, i: nat, j: nat): real {
    if l < |n.weights| && i < |n.weights[l]| && j < |n.weights[l][i]| then n.weights[l][i][j] else 0.0
  }

  /** Bias (l, i), or 0 outside the tensor. */
  function BiasAt(n: Net, l: nat, i: nat): real {
    if l < |n.biases| && i < |n.biases[l]| then n.biases[l][i] else 0.0
  }

  lemma ElementsAt(n: Net)
    requires Shaped(n)
    ensures forall l, i, j :: 0 <= l < Layers && 0 <= i < Widths[l + 1] && 0 <= j < Widths[l] ==>
              WeightAt(n, l, i, j) == n.weights[l][i][j]
    ensures forall l, i :: 0 <= l < Layers && 0 <= i < Widths[l + 1] ==> BiasAt(n, l, i) == n.biases[l][i]
  {
  }

  // ---------------------------------------------------------------- forward pass

  /** The weighted sum over the first |a| inputs. */
  function Dot(w: seq<real>, a: seq<real>): real
    requires |a| <= |w|
  {
    if a == [] then 0.0 else Dot(w, a[..|a| - 1]) + w[|a| - 1] * a[|a| - 1]
  }

  /** One layer: ReLU for hidden layers, sigmoid for the last. */
  function LayerOut(w: seq<seq<real>>, b: seq<real>, a: seq<real>, last: bool, exp: real -> Positive)
    : (out: seq<real>)
    requires |w| == |b| && forall i :: 0 <= i < |w| ==> |a| <= |w[i]|
    ensures |out| == |b|
    ensures !last ==> forall i :: 0 <= i < |out| ==> out[i] >= 0.0
    ensures last ==> forall i :: 0 <= i < |out| ==> 0.0 < out[i] < 1.0
  {
    seq(|b|, i requires 0 <= i < |b| =>
      if last then Sigmoid(b[i] + Dot(w[i], a), exp) else Relu(b[i] + Dot(w[i], a)))
  }

  /** Layers `l` to the last, applied to activation `a`. */
  function Run(n: Net, a: seq<real>, l: nat, exp: real -> Positive): (out: seq<real>)
    requires Shaped(n) && l <= Layers
    requires l < Layers ==> |a| <= Widths[l]
    ensures l < Layers ==> |out| == OutputWidth
    ensures l < Layers ==> forall k :: 0 <= k < |out| ==> 0.0 < out[k] < 1.0
    decreases Layers - l
  {
    if l == Layers then a
    else
      ShapeAt(n, l);
      Run(n, LayerOut(n.weights[l], n.biases[l], a, l == Layers - 1, exp), l + 1, exp)
  }

  /** `forward`: the source indexes weights by input position, so an input longer than 1220
      throws (`Err`); a shorter one is summed over its own length. */
  function Forward(n: Net, input: seq<real>, exp: real -> Positive): (r: Result<seq<real>>)
    requires Shaped(n)
    ensures r.Ok? <==> |input| <= InputWidth
    ensures r.Ok? ==> |r.value| == OutputWidth
    ensures r.Ok? ==> forall k :: 0 <= k < |r.value| ==> 0.0 < r.value[k] < 1.0
  {
    if |input| > InputWidth then Err("ArrayIndexOutOfBoundsException")
    else Ok(Run(n, input, 0, exp))
  }

  // ---------------------------------------------------------------- training

  /** The activations of every layer, input first. */
  function Activations(n: Net, input: seq<real>, exp: real -> Positive): (acts: seq<seq<real>>)
    requires Shaped(n) && |input| == InputWidth
    ensures |acts| == Layers + 1 && acts[0] == input
    ensures forall l :: 0 <= l <= Layers ==> |acts[l]| == Widths[l]
  {
    ShapeAt(n, 0);
    var a1 := LayerOut(n.weights[0], n.biases[0], input, false, exp);
    ShapeAt(n, 1);
    var a2 := LayerOut(n.weights[1], n.biases[1], a1, false, exp);
    ShapeAt(n, 2);
    var a3 := LayerOut(n.weights[2], n.biases[2], a2, false, exp);
    ShapeAt(n, 3);
    var a4 := LayerOut(n.weights[3], n.biases[3], a3, true, exp);
    [input, a1, a2, a3, a4]
  }

  /** The back-propagated delta: the source sums over the weights it has just updated. */
  function DeltaSum(w: seq<seq<real>>, delta: seq<real>, j: nat): real
    requires |delta| <= |w| && forall i :: 0 <= i < |w| ==> j < |w[i]|
  {
    if delta == [] then 0.0
    else DeltaSum(w, delta[..|delta| - 1], j) + delta[|delta| - 1] * w[|delta| - 1][j]
  }

  /** One layer of the gradient step. */
  function UpdateLayer(n: Net, l: nat, prev: seq<real>, delta: seq<real>): (n': Net)
    requires Shaped(n) && l < Layers && |prev| == Widths[l] && |delta| == Widths[l + 1]
    ensures Shaped(n')
    ensures forall i, j :: 0 <= i < Widths[l + 1] && 0 <= j < Widths[l] ==>
              n'.weights[l][i][j] == n.weights[l][i][j] - LearningRate * delta[i] * prev[j]
    ensures forall i :: 0 <= i < Widths[l + 1] ==> n'.biases[l][i] == n.biases[l][i] - LearningRate * delta[i]
    ensures forall k :: 0 <= k < Layers && k != l ==> n'.weights[k] == n.weights[k] && n'.biases[k] == n.biases[k]
  {
    var w := seq(Widths[l + 1], i requires 0 <= i < Widths[l + 1] =>
               seq(Widths[l], j requires 0 <= j < Widths[l] =>
                 n.weights[l][i][j] - LearningRate * delta[i] * prev[j]));
    var b := seq(Widths[l + 1], i requires 0 <= i < Widths[l + 1] => n.biases[l][i] - LearningRate * delta[i]);
    n.(weights := n.weights[l := w], biases := n.biases[l := b])
  }

  /** The backward pass from layer `l` down to layer 0. */
  function Backward(n: Net, acts: seq<seq<real>>, delta: seq<real>, l: nat): (n': Net)
    requires Shaped(n) && l < Layers && |acts| == Layers + 1
    requires forall k :: 0 <= k <= Layers ==> |acts[k]| == Widths[k]
    requires |delta| == Widths[l + 1]
    ensures Shaped(n')
    decreases l
  {
    var n1 := UpdateLayer(n, l, acts[l], delta);
    if l == 0 then n1
    else
      var w := n1.weights[l];
      var d := seq(Widths[l], j requires 0 <= j < Widths[l] =>
                 DeltaSum(w, delta, j) * ReluDerivative(acts[l][j]));
      Backward(n1, acts, d, l - 1)
  }

  /** `train`: the forward pass, then the backward pass from the given output gradient (the
      target is not read). The update indexes the input by every weight column and the gradient
      by every output and by every row of the last layer, so anything but a 1220-long input and
      a 64-long gradient throws. */
  function Train(n: Net, input: seq<real>, target: seq<real>, grad: seq<real>, exp: real -> Positive)
    : (r: Result<Net>)
    requires Shaped(n)
    ensures r.Ok? <==> |input| == InputWidth && |grad| == OutputWidth
    ensures r.Ok? ==> Shaped(r.value)
  {
    if |input| != InputWidth || |grad| != OutputWidth then Err("ArrayIndexOutOfBoundsException")
    else Ok(Backward(n, Activations(n, input, exp), grad, Layers - 1))
  }

  predicate AllZero(xs: seq<real>) {
    forall k :: 0 <= k < |xs| ==> xs[k] == 0.0
  }

  lemma {:induction false} DeltaSumZero(w: seq<seq<real>>, delta: seq<real>, j: nat)
    requires |delta| <= |w| && forall i :: 0 <= i < |w| ==> j < |w[i]|
    requires AllZero(delta)
    ensures DeltaSum(w, delta, j) == 0.0
    decreases |delta|
  {
    if delta != [] {
      DeltaSumZero(w, delta[..|delta| - 1], j);
    }
  }

  /** A zero delta leaves the layer as it is. */
  lemma UpdateLayerZero(n: Net, l: nat, prev: seq<real>, delta: seq<real>)
    requires Shaped(n) && l < Layers && |prev| == Widths[l] && |delta| == Widths[l + 1] && AllZero(delta)
    ensures UpdateLayer(n, l, prev, delta) == n
  {
    SameElements(UpdateLayer(n, l, prev, delta), n);
  }

  lemma {:induction false} BackwardZero(n: Net, acts: seq<seq<real>>, delta: seq<real>, l: nat)
    requires Shaped(n) && l < Layers && |acts| == Layers + 1
    requires forall k :: 0 <= k <= Layers ==> |acts[k]| == Widths[k]
    requires |delta| == Widths[l + 1] && AllZero(delta)
    ensures Backward(n, acts, delta, l) == n
    decreases l
  {
    UpdateLayerZero(n, l, acts[l], delta);
    if l > 0 {
      var w := n.weights[l];
      var d := seq(Widths[l], j requires 0 <= j < Widths[l] =>
                 DeltaSum(w, delta, j) * ReluDerivative(acts[l][j]));
      forall j | 0 <= j < Widths[l] ensures d[j] == 0.0 {
        DeltaSumZero(w, delta, j);
      }
      BackwardZero(n, acts, d, l - 1);
    }
  }

  /** A zero output gradient trains nothing: every weight and bias keeps its value. */
  lemma TrainZeroGradient(n: Net, input: seq<real>, target: seq<real>, grad: seq<real>, exp: real -> Positive)
    requires Shaped(n) && |input| == InputWidth && |grad| == OutputWidth && AllZero(grad)
    ensures Train(n, input, target, grad, exp) == Ok(n)
  {
    BackwardZero(n, Activations(n, input, exp), grad, Layers - 1);
  }

  // ---------------------------------------------------------------- evolution operators

  /** `clone`: an independent copy; with values instead of references it is the network itself. */
  function Clone(n: Net): (c: Net)
    ensures c == n
  {
    n
  }

  /** `crossover`: every element comes from this network when its coin is heads, from the other
      one otherwise. */
  function Crossover(a: Net, b: Net, heads: Pos -> bool): (c: Net)
    requires Shaped(a) && Shaped(b)
    ensures Shaped(c)
    ensures forall l, i, j :: 0 <= l < Layers && 0 <= i < Widths[l + 1] && 0 <= j < Widths[l] ==>
              c.weights[l][i][j] == (if heads(Weight(l, i, j)) then a.weights[l][i][j] else b.weights[l][i][j])
    ensures forall l, i :: 0 <= l < Layers && 0 <= i < Widths[l + 1] ==>
              c.biases[l][i] == (if heads(Bias(l, i)) then a.biases[l][i] else b.biases[l][i])
  {
    ElementsAt(a);
    ElementsAt(b);
    Build((l: nat, i: nat, j: nat) =>
            if heads(Weight(l, i, j)) then WeightAt(a, l, i, j) else WeightAt(b, l, i, j),
          (l: nat, i: nat) => if heads(Bias(l, i)) then BiasAt(a, l, i) else BiasAt(b, l, i))
  }

  /** Every element of a child is the same-position element of one of its parents. */
  lemma CrossoverInherits(a: Net, b: Net, heads: Pos -> bool, l: nat, i: nat, j: nat)
    requires Shaped(a) && Shaped(b) && l < Layers && i < Widths[l + 1] && j < Widths[l]
    ensures var c := Crossover(a, b, heads);
            && (c.weights[l][i][j] == a.weights[l][i][j] || c.weights[l][i][j] == b.weights[l][i][j])
            && (c.biases[l][i] == a.biases[l][i] || c.biases[l][i] == b.biases[l][i])
  {
  }

  /** Crossing a network with itself gives it back, whatever the coins. */
  lemma CrossoverSelf(a: Net, heads: Pos -> bool)
    requires Shaped(a)
    ensures Crossover(a, a, heads) == a
  {
    SameElements(Crossover(a, a, heads), a);
  }

  /** One element of `mutate`: it moves by its Gaussian draw times the strength when its
      uniform draw is below the rate, and stays otherwise. */
  function Mutated(x: real, u: real, g: real, rate: real, strength: real): real {
    if u < rate then x + g * strength else x
  }

  /** `mutate`, element by element. */
  function Mutate(n: Net, rate: real, strength: real, uniform: Pos -> real, gauss: Pos -> real): (m: Net)
    requires Shaped(n)
    ensures Shaped(m)
    ensures forall l, i, j :: 0 <= l < Layers && 0 <= i < Widths[l + 1] && 0 <= j < Widths[l] ==>
              m.weights[l][i][j]
                == Mutated(n.weights[l][i][j], uniform(Weight(l, i, j)), gauss(Weight(l, i, j)), rate, strength)
    ensures forall l, i :: 0 <= l < Layers && 0 <= i < Widths[l + 1] ==>
              m.biases[l][i] == Mutated(n.biases[l][i], uniform(Bias(l, i)), gauss(Bias(l, i)), rate, strength)
  {
    ElementsAt(n);
    Build((l: nat, i: nat, j: nat) =>
            Mutated(WeightAt(n, l, i, j), uniform(Weight(l, i, j)), gauss(Weight(l, i, j)), rate, strength),
          (l: nat, i: nat) => Mutated(BiasAt(n, l, i), uniform(Bias(l, i)), gauss(Bias(l, i)), rate, strength))
  }

  /** Uniform draws are never negative, so a mutation rate of 0 (or below) changes nothing. */
  lemma MutateRateZero(n: Net, rate: real, strength: real, uniform: Pos -> real, gauss: Pos -> real)
    requires Shaped(n) && rate <= 0.0
    requires forall p :: uniform(p) >= 0.0
    ensures Mutate(n, rate, strength, uniform, gauss) == n
  {
    SameElements(Mutate(n, rate, strength, uniform, gauss), n);
  }

  /** A mutation of strength 0 changes nothing either, whatever the draws. */
  lemma MutateStrengthZero(n: Net, rate: real, uniform: Pos -> real, gauss: Pos -> real)
    requires Shaped(n)
    ensures Mutate(n, rate, 0.0, uniform, gauss) == n
  {
    SameElements(Mutate(n, rate, 0.0, uniform, gauss), n);
  }
}
