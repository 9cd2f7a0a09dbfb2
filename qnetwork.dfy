/** The three treatment-aware Q-networks of `algorithms_step/model.py`, for
    one batch row.

    The learned layers (`encoder`, `logits_t`, `fc`, `fc_t0`, `fc_t1`) are
    opaque functions carried by the network value; `Net.Valid` demands of them
    only the output widths their `nn.Linear` declarations fix. Around them the
    model is exact: the window of the last `step` latents, left-padded to
    `fc2_units * step`; the one-hot treatment block, left-padded to
    `num_treatment * step`; the arg-max of the treatment logits; the override
    by the one-hot of `prev_action` (`SimpleQNetwork`); the concatenated input
    (`CEQNetwork_1`); and the two-head blend (`CEQNetwork_2`).

    The module flag `self.training` is the explicit `Mode` parameter.
 */
module QNetwork {
  import opened Wrappers
  import opened Tensors

  /** A learned layer: a function from a row to a row. */
  type Layer = Vec -> Vec

  /** The constructor arguments that shape the computation. `fc1_units` is
      the encoder's hidden width and is internal to the opaque encoder. */
  datatype Config = Config(
    stateSize: nat,
    actionSize: nat,
    fc2Units: nat,
    step: nat,
    numTreatment: nat)
  {
    /** A window of at least one timestep and at least one treatment class
        (`topk(1)` needs a non-empty row). */
    predicate Valid() {
      step >= 1 && numTreatment >= 1
    }
  }

  datatype Mode = Training | Evaluation

  /** The index `topk(1)` picks from a row. Torch returns the position of a
      largest entry but leaves open which one when several are equal. */
  type Selector = Vec -> nat

  /** One constructor per class; each carries the layers that class builds
      and the arg-max choice of its `topk(1)` calls. */
  datatype Net =
    | SimpleQNetwork(cfg: Config, encoder: Layer, logitsT: Layer, fc: Layer, topk: Selector)
    | CEQNetwork1(cfg: Config, encoder: Layer, logitsT: Layer, fc: Layer, topk: Selector)
    | CEQNetwork2(cfg: Config, encoder: Layer, logitsT: Layer, fcT0: Layer, fcT1: Layer, topk: Selector)
  {
    /** The output widths of the layers, as their last `nn.Linear` fixes
        them. */
    ghost predicate Valid() {
      && cfg.Valid()
      && (forall x :: |encoder(x)| == cfg.fc2Units)
      && (forall x :: |logitsT(x)| == cfg.numTreatment)
      && (!CEQNetwork2? ==> forall x :: |fc(x)| == cfg.actionSize)
      && (CEQNetwork2? ==> forall x :: |fcT0(x)| == cfg.actionSize)
      && (CEQNetwork2? ==> forall x :: |fcT1(x)| == cfg.actionSize)
    }

    /** `topk(1)` picks some largest entry of every non-empty row. */
    ghost predicate SelectsMax() {
      forall v :: |v| > 0 ==> IsMaxIndex(v, topk(v))
    }
  }

  /** One row of the batch dictionary: `data['state']`, `data['prev_action']`
      and `data['t']`, the ground-truth treatment labels, which may be absent. */
  datatype Row = Row(state: seq<Vec>, prevAction: int, t: Option<seq<int>>)

  /** The `out` dictionary: `out['t']`, `out['y']`, `out['z']`. */
  datatype Output = Output(t: Vec, y: Vec, z: Vec)

  // ---------------------------------------------------------------------
  // The shared encoding and window path
  // ---------------------------------------------------------------------

  /** `[self.encoder(s) for s in data['state']]`: the encoder on every state
      in turn. A state whose width is not `state_size` makes the first linear
      layer raise. */
  function Encode(net: Net, states: seq<Vec>): (r: Result<seq<Vec>>)
    ensures r.Ok? <==> forall i :: 0 <= i < |states| ==> |states[i]| == net.cfg.stateSize
    ensures r.Ok? ==> |r.value| == |states|
    ensures r.Ok? ==> forall i :: 0 <= i < |states| ==> r.value[i] == net.encoder(states[i])
  {
    if forall i :: 0 <= i < |states| ==> |states[i]| == net.cfg.stateSize then
      Ok(seq(|states|, i requires 0 <= i < |states| => net.encoder(states[i])))
    else
      Err(ShapeMismatch)
  }

  /** `F.pad(torch.cat(rows, dim=-1), pad=(width - ..., 0))`. */
  function Assemble(rows: seq<Vec>, width: nat): Vec
  {
    LeftPad(Cat(rows), width)
  }

  /** The latents the window keeps: `data['z'][-self.step:]`. */
  function Kept(net: Net, z: seq<Vec>): seq<Vec>
  {
    Last(z, net.cfg.step)
  }

  /** The window block `out['z']`: the kept latents side by side, padded on
      the left to `fc2_units * step`. */
  function Window(net: Net, z: seq<Vec>): Vec
  {
    Assemble(Kept(net, z), net.cfg.fc2Units * net.cfg.step)
  }

  /** `[self.logits_t(_z) for _z in z]` over the kept latents. */
  function Logits(net: Net, z: seq<Vec>): (r: seq<Vec>)
    requires net.Valid()
    ensures |r| == |Kept(net, z)| && Uniform(r, net.cfg.numTreatment)
  {
    var kept := Kept(net, z);
    seq(|kept|, i requires 0 <= i < |kept| => net.logitsT(kept[i]))
  }

  // ---------------------------------------------------------------------
  // The treatment block
  // ---------------------------------------------------------------------

  /** Evaluation mode: a one-hot row at the top-1 class of each timestep's
      logits (`t_stack.topk(1, 2)` scattered into zeros), the class being
      the one the network's selector picks. `PredictedAtMax` states that
      each row marks a largest logit. */
  function PredictedSlots(net: Net, logits: seq<Vec>): (r: seq<Vec>)
    ensures |r| == |logits|
    ensures forall i :: 0 <= i < |r| ==> |r[i]| == |logits[i]|
  {
    var r := seq(|logits|, i requires 0 <= i < |logits| =>
      OneHot(|logits[i]|, net.topk(logits[i])));
    assert forall i :: 0 <= i < |r| ==> r[i] == OneHot(|logits[i]|, net.topk(logits[i]));
    r
  }

  /** Every label is a class index below `n`. */
  predicate InRange(labels: seq<int>, n: nat) {
    forall i :: 0 <= i < |labels| ==> 0 <= labels[i] < n
  }

  /** Training mode: `torch.stack(data['t'][-self.step:])` scattered into a
      zero tensor of `k` rows of width `num_treatment`. Stacking an empty list
      raises; scatter raises when the index tensor has more rows than the
      target or holds a label outside `[0, num_treatment)`; when it has fewer
      rows, only the first rows receive a 1 and the rest stay zero. */
  function LabelSlots(cfg: Config, k: nat, labels: seq<int>): (r: Result<seq<Vec>>)
    requires cfg.Valid()
    ensures r.Ok? ==> |r.value| == k && Uniform(r.value, cfg.numTreatment)
  {
    var lw := Last(labels, cfg.step);
    if |lw| == 0 then Err(EmptyHistory)
    else if |lw| > k then Err(ShapeMismatch)
    else if !InRange(lw, cfg.numTreatment) then Err(IndexOutOfRange)
    else
      var slots := seq(k, i requires 0 <= i < k =>
        if i < |lw| then OneHot(cfg.numTreatment, lw[i]) else Zeros(cfg.numTreatment));
      assert forall i :: 0 <= i < k ==>
        slots[i] == if i < |lw| then OneHot(cfg.numTreatment, lw[i]) else Zeros(cfg.numTreatment);
      assert forall i :: 0 <= i < k ==> |slots[i]| == cfg.numTreatment;
      Ok(slots)
  }

  /** The one-hot rows of the kept timesteps, from the labels or from the
      predictions as the mode says. */
  function TreatmentSlots(net: Net, mode: Mode, row: Row, logits: seq<Vec>): (r: Result<seq<Vec>>)
    requires net.Valid() && Uniform(logits, net.cfg.numTreatment)
    ensures r.Ok? ==> |r.value| == |logits| && Uniform(r.value, net.cfg.numTreatment)
  {
    match mode
    case Training =>
      (match row.t
       case None => Err(MissingField)
       case Some(labels) => LabelSlots(net.cfg, |logits|, labels))
    case Evaluation => Ok(PredictedSlots(net, logits))
  }

  /** The input of the value heads of `CEQNetwork_1` and `CEQNetwork_2`:
      the window block followed by the treatment block, padded on the left to
      `num_treatment * step`. */
  function JointInput(net: Net, mode: Mode, row: Row, z: seq<Vec>): Result<Vec>
    requires net.Valid()
  {
    var slots :- TreatmentSlots(net, mode, row, Logits(net, z));
    Ok(Window(net, z) + Assemble(slots, net.cfg.numTreatment * net.cfg.step))
  }

  /** The treatment signal of the latest timestep: the last ground-truth
      label `data['t'][-1]` in training, the top-1 index of the latest logits
      in evaluation. */
  function LatestTreatment(net: Net, mode: Mode, row: Row, latest: Vec): Result<int>
    requires |latest| > 0
  {
    match mode
    case Training =>
      (match row.t
       case None => Err(MissingField)
       case Some(labels) => if |labels| == 0 then Err(EmptyHistory) else Ok(labels[|labels| - 1]))
    case Evaluation => Ok(net.topk(latest))
  }

  // ---------------------------------------------------------------------
  // The forward passes
  // ---------------------------------------------------------------------

  /** `SimpleQNetwork._forward`: the head `fc` reads the window block alone;
      when the latest treatment is 1 the row's values are replaced by the
      one-hot of `prev_action`. */
  function SimpleForward(net: Net, mode: Mode, row: Row, z: seq<Vec>): Result<Output>
    requires net.SimpleQNetwork? && net.Valid()
  {
    var logits := Logits(net, z);
    if |logits| == 0 then Err(EmptyHistory)
    else
      var latest := logits[|logits| - 1];
      var window := Window(net, z);
      var y := net.fc(window);
      var onehot :- Scatter(|y|, row.prevAction);
      var t :- LatestTreatment(net, mode, row, latest);
      Ok(Output(latest, if t == 1 then onehot else y, window))
  }

  /** `CEQNetwork_1._forward`: one head over the window block and the
      treatment block together. */
  function CEQ1Forward(net: Net, mode: Mode, row: Row, z: seq<Vec>): Result<Output>
    requires net.CEQNetwork1? && net.Valid()
  {
    var logits := Logits(net, z);
    if |logits| == 0 then Err(EmptyHistory)
    else
      var x :- JointInput(net, mode, row, z);
      Ok(Output(logits[|logits| - 1], net.fc(x), Window(net, z)))
  }

  /** `CEQNetwork_2._forward`: two heads over the joint input, blended by the
      latest treatment signal `t` as `t * y_t1 + (1 - t) * y_t0`. */
  function CEQ2Forward(net: Net, mode: Mode, row: Row, z: seq<Vec>): Result<Output>
    requires net.CEQNetwork2? && net.Valid()
  {
    var logits := Logits(net, z);
    if |logits| == 0 then Err(EmptyHistory)
    else
      var latest := logits[|logits| - 1];
      var x :- JointInput(net, mode, row, z);
      var t :- LatestTreatment(net, mode, row, latest);
      Ok(Output(latest, Blend(t as real, net.fcT1(x), net.fcT0(x)), Window(net, z)))
  }

  /** `self._forward(data)`: the forward pass of the network's own class. */
  function VariantForward(net: Net, mode: Mode, row: Row, z: seq<Vec>): Result<Output>
    requires net.Valid()
  {
    match net
    case SimpleQNetwork(_, _, _, _, _) => SimpleForward(net, mode, row, z)
    case CEQNetwork1(_, _, _, _, _) => CEQ1Forward(net, mode, row, z)
    case CEQNetwork2(_, _, _, _, _, _) => CEQ2Forward(net, mode, row, z)
  }

  /** `AbstractDQN.forward`: encode every state, then the variant's own
      forward pass. */
  function Forward(net: Net, mode: Mode, row: Row): Result<Output>
    requires net.Valid()
  {
    var z :- Encode(net, row.state);
    VariantForward(net, mode, row, z)
  }
}
