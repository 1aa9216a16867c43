/** SelfPlayTrainer, the training: batches of 64 sampled experiences train the policy network
    towards a TD target and the value network towards the reward. Samples and hash codes are
    parameters. */
module SelfPlayTraining {
  import opened Wrappers
  import opened AIMoves
  import Network
  import opened GameResults
  import opened Ranking
  import opened Experiences
  import opened SelfPlay

  const BatchSize: nat := 64

  /** What a training step needs: a full input before the move, and no more than a full one
      after it. */
  predicate Trainable(e: Experience) {
    |e.before| == Network.InputWidth && |e.after| <= Network.InputWidth
  }

  // ---------------------------------------------------------------- the action index

  /** A Java `int`. */
  type Int32 = x: int | -0x8000_0000 <= x < 0x8000_0000

  /** `Math.abs` on an `int`: the most negative value is its own absolute value. */
  function JavaAbs(x: Int32): Int32 {
    if x == -0x8000_0000 then x else if x < 0 then -x else x
  }

  /** Java's `%`: the remainder takes the sign of the dividend. */
  function JavaRem(a: int, b: int): int
    requires b > 0
  {
    if a >= 0 then a % b else -((-a) % b)
  }

  /** `getMoveIndex`: |hash code| mod 64. The absolute value can stay negative, but only for
      -2^31, a multiple of 64, so the index always lies in [0, 64) and the source's bounds test
      on it never fails. */
  function MoveIndex(hash: Int32): (k: int)
    ensures 0 <= k < Network.OutputWidth
    ensures hash >= 0 ==> k == hash % 64
    ensures -0x8000_0000 < hash < 0 ==> k == (-hash) % 64
  {
    JavaRem(JavaAbs(hash), 64)
  }

  // ---------------------------------------------------------------- one training step

  /** The loop `maxNextQ = max(maxNextQ, q)` from 0. */
  function MaxOrZero(qs: seq<real>): (m: real)
    ensures m >= 0.0 && forall k :: 0 <= k < |qs| ==> qs[k] <= m
    ensures m == 0.0 || exists k :: 0 <= k < |qs| && qs[k] == m
  {
    if qs == [] then 0.0
    else
      var m := MaxOrZero(qs[..|qs| - 1]);
      assert forall k :: 0 <= k < |qs| - 1 ==> qs[..|qs| - 1][k] == qs[k];
      if qs[|qs| - 1] > m then qs[|qs| - 1] else m
  }

  /** The current outputs with the taken action's entry replaced by the TD target. */
  function TargetVector(q: seq<real>, idx: int, target: real): (t: seq<real>)
    ensures |t| == |q|
    ensures forall j :: 0 <= j < |q| && j != idx ==> t[j] == q[j]
    ensures 0 <= idx < |q| ==> t[idx] == target
  {
    if 0 <= idx < |q| then q[idx := target] else q
  }

  function Difference(a: seq<real>, b: seq<real>): (d: seq<real>)
    requires |a| == |b|
    ensures |d| == |a| && forall j :: 0 <= j < |a| ==> d[j] == a[j] - b[j]
  {
    seq(|a|, j requires 0 <= j < |a| => a[j] - b[j])
  }

  /** Only the taken action is pushed towards its target: the policy gradient is zero except at
      the action, where it is the output minus the target. */
  lemma PolicyGradientAtAction(q: seq<real>, idx: int, target: real)
    requires 0 <= idx < |q|
    ensures var g := Difference(q, TargetVector(q, idx, target));
            && g[idx] == q[idx] - target
            && forall j :: 0 <= j < |q| && j != idx ==> g[j] == 0.0
  {
  }

  /** A 64-wide vector holding `x` at output 0 and zero elsewhere. */
  function FirstOutput(x: real): (v: seq<real>)
    ensures |v| == Network.OutputWidth && v[0] == x
    ensures forall j :: 1 <= j < |v| ==> v[j] == 0.0
  {
    [x] + seq(Network.OutputWidth - 1, _ => 0.0)
  }

  /** The policy half of a step: the TD target from the next position's best output (at least
      0), then `train` with the gradient of the taken action. */
  function PolicyStep(policy: Network.Net, e: Experience, hash: Int32, exp: real -> Network.Positive)
    : (r: Result<Network.Net>)
    requires Network.Shaped(policy)
    ensures r.Ok? <==> Trainable(e)
    ensures r.Ok? ==> Network.Shaped(r.value)
  {
    match Network.Forward(policy, e.before, exp)
    case Err(x) => Err(x)
    case Ok(q) =>
      match Network.Forward(policy, e.after, exp)
      case Err(x) => Err(x)
      case Ok(next) =>
        var target := e.reward + Discount * MaxOrZero(next);
        var t := TargetVector(q, MoveIndex(hash), target);
        Network.Train(policy, e.before, t, Difference(q, t), exp)
  }

  /** The value half as written: target and gradient have one element, the value output minus
      the reward. */
  function ValueStepAsWritten(value: Network.Net, e: Experience, exp: real -> Network.Positive)
    : (r: Result<Network.Net>)
    requires Network.Shaped(value)
    ensures r.Err?
  {
    match Network.Forward(value, e.before, exp)
    case Err(x) => Err(x)
    case Ok(v) => Network.Train(value, e.before, [e.reward], [v[0] - e.reward], exp)
  }

  /** `train` needs a gradient for each of the 64 outputs, so the one-element value gradient
      always throws: not one training step can complete. */
  lemma ValueStepAlwaysThrows(value: Network.Net, e: Experience, exp: real -> Network.Positive)
    requires Network.Shaped(value)
    ensures ValueStepAsWritten(value, e, exp).Err?
  {
  }

  /** The value half as intended: the same error on the first output, zero on the other 63
      (only the first output is ever read as the position's value). */
  function ValueStep(value: Network.Net, e: Experience, exp: real -> Network.Positive)
    : (r: Result<Network.Net>)
    requires Network.Shaped(value)
    ensures r.Ok? <==> |e.before| == Network.InputWidth
    ensures r.Ok? ==> Network.Shaped(r.value)
  {
    match Network.Forward(value, e.before, exp)
    case Err(x) => Err(x)
    case Ok(v) => Network.Train(value, e.before, FirstOutput(e.reward), FirstOutput(v[0] - e.reward), exp)
  }

  /** A policy step whose target is already met changes nothing: the policy's output for the
      action equals its TD target. */
  lemma PolicyStepAtTarget(policy: Network.Net, e: Experience, hash: Int32, exp: real -> Network.Positive)
    requires Network.Shaped(policy) && Trainable(e)
    requires var q := Network.Forward(policy, e.before, exp).value;
             q[MoveIndex(hash)] == e.reward + Discount * MaxOrZero(Network.Forward(policy, e.after, exp).value)
    ensures PolicyStep(policy, e, hash, exp) == Ok(policy)
  {
    var q := Network.Forward(policy, e.before, exp).value;
    var target := e.reward + Discount * MaxOrZero(Network.Forward(policy, e.after, exp).value);
    var t := TargetVector(q, MoveIndex(hash), target);
    assert Network.AllZero(Difference(q, t));
    Network.TrainZeroGradient(policy, e.before, t, Difference(q, t), exp);
  }

  /** A value step whose target is already met changes nothing: the value output equals the
      reward. */
  lemma ValueStepAtTarget(value: Network.Net, e: Experience, exp: real -> Network.Positive)
    requires Network.Shaped(value) && |e.before| == Network.InputWidth
    requires Network.Forward(value, e.before, exp).value[0] == e.reward
    ensures ValueStep(value, e, exp) == Ok(value)
  {
    var v := Network.Forward(value, e.before, exp).value;
    var g := FirstOutput(v[0] - e.reward);
    assert Network.AllZero(g);
    Network.TrainZeroGradient(value, e.before, FirstOutput(e.reward), g, exp);
  }

  // ---------------------------------------------------------------- batches and games

  /** Which value step the training loop runs: the one the source writes, whose one-element
      gradient always throws, or the corrected one padded to the 64 outputs. */
  datatype Variant = AsWritten | Corrected

  function ValueHalf(value: Network.Net, e: Experience, exp: real -> Network.Positive, v: Variant)
    : (r: Result<Network.Net>)
    requires Network.Shaped(value)
    ensures r.Ok? <==> v == Corrected && |e.before| == Network.InputWidth
    ensures r.Ok? ==> Network.Shaped(r.value)
  {
    match v
    case AsWritten => ValueStepAsWritten(value, e, exp)
    case Corrected => ValueStep(value, e, exp)
  }

  /** One sample of the batch: the policy step, then the value step. As written the value step
      throws, so no sample completes. */
  function TrainStep(policy: Network.Net, value: Network.Net, e: Experience, hash: Int32,
                     exp: real -> Network.Positive, v: Variant)
    : (r: Result<(Network.Net, Network.Net)>)
    requires Network.Shaped(policy) && Network.Shaped(value)
    ensures r.Ok? <==> v == Corrected && Trainable(e)
    ensures r.Ok? ==> Network.Shaped(r.value.0) && Network.Shaped(r.value.1)
  {
    match PolicyStep(policy, e, hash, exp)
    case Err(x) => Err(x)
    case Ok(p) =>
      match ValueHalf(value, e, exp, v)
      case Err(x) => Err(x)
      case Ok(n) => Ok((p, n))
  }

  /** The training loop of `trainOnBatch`: one step per sample, in order; the first sample that
      throws ends the training. As written that is the first sample. */
  function TrainSamples(policy: Network.Net, value: Network.Net, samples: seq<Experience>,
                        hash: AIMove -> Int32, exp: real -> Network.Positive, v: Variant)
    : (r: Result<(Network.Net, Network.Net)>)
    requires Network.Shaped(policy) && Network.Shaped(value)
    ensures r.Ok? <==> AllTrainable(samples) && (samples == [] || v == Corrected)
    ensures r.Ok? ==> Network.Shaped(r.value.0) && Network.Shaped(r.value.1)
    decreases |samples|
  {
    if samples == [] then Ok((policy, value))
    else
      match TrainStep(policy, value, samples[0], hash(samples[0].move), exp, v)
      case Err(x) => Err(x)
      case Ok(nets) => TrainSamples(nets.0, nets.1, samples[1..], hash, exp, v)
  }

  predicate AllTrainable(samples: seq<Experience>) {
    samples == [] || (Trainable(samples[0]) && AllTrainable(samples[1..]))
  }

  lemma {:induction false} AllTrainableEvery(samples: seq<Experience>)
    ensures AllTrainable(samples) <==> forall k :: 0 <= k < |samples| ==> Trainable(samples[k])
  {
    if samples != [] {
      AllTrainableEvery(samples[1..]);
      assert forall k :: 1 <= k < |samples| ==> samples[k] == samples[1..][k - 1];
    }
  }

  /** The samples a batch draws: `picks` are the sampled buffer positions. */
  function Sample(buffer: seq<Experience>, picks: seq<nat>): (samples: seq<Experience>)
    requires forall k :: 0 <= k < |picks| ==> picks[k] < |buffer|
    ensures |samples| == |picks| && forall k :: 0 <= k < |picks| ==> samples[k] == buffer[picks[k]]
  {
    seq(|picks|, k requires 0 <= k < |picks| => buffer[picks[k]])
  }

  /** `trainOnBatch`: 64 sampled experiences. As written every batch throws; corrected, the batch
      trains both networks when every sample has full encodings, and throws otherwise. */
  function TrainOnBatch(policy: Network.Net, value: Network.Net, buffer: seq<Experience>, picks: seq<nat>,
                        hash: AIMove -> Int32, exp: real -> Network.Positive, v: Variant)
    : (r: Result<(Network.Net, Network.Net)>)
    requires Network.Shaped(policy) && Network.Shaped(value)
    requires |picks| == BatchSize && forall k :: 0 <= k < |picks| ==> picks[k] < |buffer|
    ensures r.Ok? <==> v == Corrected && forall k :: 0 <= k < |picks| ==> Trainable(buffer[picks[k]])
    ensures r.Ok? ==> Network.Shaped(r.value.0) && Network.Shaped(r.value.1)
  {
    AllTrainableEvery(Sample(buffer, picks));
    TrainSamples(policy, value, Sample(buffer, picks), hash, exp, v)
  }

  /** What the trainer keeps between games. */
  datatype Trainer = Trainer(policy: Network.Net, value: Network.Net, buffer: seq<Experience>,
                             whiteWins: nat, blackWins: nat, draws: nat)

  predicate Ready(t: Trainer) {
    Network.Shaped(t.policy) && Network.Shaped(t.value) && |t.buffer| <= MaxBufferSize
  }

  /** The draws of one iteration of `train`: the game played, and the batch's samples. */
  datatype GameDraws = GameDraws(history: Result<seq<Experience>>, picks: seq<nat>)

  /** The samples are positions in the buffer as it will be after the game is added. */
  predicate DrawsFit(t: Trainer, d: GameDraws) {
    d.history.Ok? ==>
      && |d.picks| == BatchSize
      && forall k :: 0 <= k < |d.picks| ==> d.picks[k] < Min(|t.buffer| + |d.history.value|, MaxBufferSize)
  }

  /** The game's experiences, rewarded from its result, appended to the buffer. */
  method Store(buffer: seq<Experience>, history: seq<Experience>, result: GameResult)
    returns (buffer': seq<Experience>)
    ensures |buffer'| == Min(|buffer| + |history|, MaxBufferSize)
  {
    var rewarded := AssignRewards(history, result);
    buffer' := AddToBuffer(buffer, rewarded);
  }

  /** `trainOnBatch` on the batch drawn from the buffer, as far as the loop of `train` needs it. */
  method Learn(policy: Network.Net, value: Network.Net, buffer: seq<Experience>, picks: seq<nat>,
               hash: AIMove -> Int32, exp: real -> Network.Positive, v: Variant)
    returns (r: Result<(Network.Net, Network.Net)>)
    requires Network.Shaped(policy) && Network.Shaped(value)
    requires |picks| == BatchSize && forall k :: 0 <= k < |picks| ==> picks[k] < |buffer|
    ensures r.Ok? <==> v == Corrected && forall k :: 0 <= k < |picks| ==> Trainable(buffer[picks[k]])
    ensures r.Ok? ==> Network.Shaped(r.value.0) && Network.Shaped(r.value.1)
  {
    r := TrainOnBatch(policy, value, buffer, picks, hash, exp, v);
  }

  /** One iteration of `train`'s loop. The result is read from the last experience (an empty
      game throws); a batch is trained once the buffer holds 64 experiences. The buffer never
      exceeds 10000 experiences, and the three counters count the games. As written, the game
      that brings the buffer to 64 experiences ends the run with the batch's exception. */
  method AfterGame(t: Trainer, d: GameDraws, hash: AIMove -> Int32, exp: real -> Network.Positive, v: Variant)
    returns (r: Result<Trainer>)
    requires Ready(t) && DrawsFit(t, d)
    ensures r.Ok? ==> Ready(r.value) && d.history.Ok? && d.history.value != []
    ensures r.Ok? ==> r.value.whiteWins + r.value.blackWins + r.value.draws == t.whiteWins + t.blackWins + t.draws + 1
    ensures r.Ok? ==> |r.value.buffer| == Min(|t.buffer| + |d.history.value|, MaxBufferSize)
    ensures r.Ok? && |r.value.buffer| < BatchSize ==> r.value.policy == t.policy && r.value.value == t.value
    ensures d.history.Ok? && d.history.value != [] && |t.buffer| + |d.history.value| < BatchSize ==> r.Ok?
    ensures v == AsWritten && d.history.Ok? && |t.buffer| + |d.history.value| >= BatchSize ==> r.Err?
  {
    if d.history.Err? {
      return Err(d.history.error);
    }
    var history := d.history.value;
    if history == [] {
      return Err("IndexOutOfBoundsException");
    }
    var result := history[|history| - 1].result;
    var buffer := Store(t.buffer, history, result);
    var policy, value := t.policy, t.value;
    if |buffer| >= BatchSize {
      var trained := Learn(policy, value, buffer, d.picks, hash, exp, v);
      if trained.Err? {
        return Err(trained.error);
      }
      policy, value := trained.value.0, trained.value.1;
    }
    var w := if result == WhiteWin then t.whiteWins + 1 else t.whiteWins;
    var b := if result == BlackWin then t.blackWins + 1 else t.blackWins;
    var dr := if result != WhiteWin && result != BlackWin then t.draws + 1 else t.draws;
    r := Ok(Trainer(policy, value, buffer, w, b, dr));
  }
}
