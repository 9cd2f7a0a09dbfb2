/** What the forward passes of `algorithms_step/model.py` promise, proved of
    the model in `QNetwork`: when a call succeeds, the widths of its outputs,
    the layout of the window and treatment blocks, the override of
    `SimpleQNetwork` and the head selection of `CEQNetwork_2`; and exactly
    when a call succeeds.
 */
module QNetworkLaws {
  import opened Wrappers
  import opened Tensors
  import opened QNetwork

  // ---------------------------------------------------------------------
  // Assembling padded blocks
  // ---------------------------------------------------------------------

  /** Padding on the left counts as whole zero rows in front of the rows. */
  lemma AssembleAsRows(rows: seq<Vec>, w: nat, step: nat)
    requires Uniform(rows, w) && |rows| <= step
    ensures Assemble(rows, w * step) == Cat(BlankRows(step - |rows|, w) + rows)
  {
    var pad := step - |rows|;
    CatUniform(rows, w);
    CatZeros(pad, w);
    PadWidth(|rows|, step, w);
    assert LeftPad(Cat(rows), w * step) == Zeros(pad * w) + Cat(rows);
    CatAppend(BlankRows(pad, w), rows);
  }

  /** Block `j` of a padded assembly of `|rows| <= step` rows of width `w`
      is zero for the first `step - |rows|` blocks and then `rows` in order. */
  lemma AssembleSlots(rows: seq<Vec>, w: nat, step: nat)
    requires Uniform(rows, w) && |rows| <= step
    ensures |Assemble(rows, w * step)| == w * step
    ensures forall j :: 0 <= j < step ==>
      Slot(Assemble(rows, w * step), w, j) ==
        if j < step - |rows| then Zeros(w) else rows[j - (step - |rows|)]
  {
    var pad := step - |rows|;
    var all := BlankRows(pad, w) + rows;
    AssembleAsRows(rows, w, step);
    assert Uniform(all, w);
    CatUniform(all, w);
    assert |all| * w == w * step;
    forall j | 0 <= j < step
      ensures Slot(Assemble(rows, w * step), w, j) ==
        if j < pad then Zeros(w) else rows[j - pad]
    {
      assert Slot(Assemble(rows, w * step), w, j) == all[j];
    }
  }

  // ---------------------------------------------------------------------
  // The window block
  // ---------------------------------------------------------------------

  /** The left-padding law of the window block: always `fc2_units * step`
      wide; for a history of `L < step` latents, `step - L` zero rows of
      width `fc2_units` and then the `L` latents in their original order;
      otherwise the last `step` latents only, the most recent last. */
  lemma WindowLayout(net: Net, z: seq<Vec>)
    requires net.cfg.Valid() && Uniform(z, net.cfg.fc2Units)
    ensures |Window(net, z)| == net.cfg.fc2Units * net.cfg.step
    ensures |z| < net.cfg.step ==>
      Window(net, z) == ZeroRows(net.cfg.step - |z|, net.cfg.fc2Units) + Cat(z)
    ensures |z| >= net.cfg.step ==>
      Window(net, z) == Cat(z[|z| - net.cfg.step..])
  {
    if |z| < net.cfg.step {
      ShortWindow(net, z);
    } else {
      LongWindow(net, z);
    }
  }

  lemma ShortWindow(net: Net, z: seq<Vec>)
    requires net.cfg.Valid() && Uniform(z, net.cfg.fc2Units) && |z| < net.cfg.step
    ensures Window(net, z) == ZeroRows(net.cfg.step - |z|, net.cfg.fc2Units) + Cat(z)
  {
    var w, step := net.cfg.fc2Units, net.cfg.step;
    assert Kept(net, z) == z;
    AssembleAsRows(z, w, step);
    CatAppend(BlankRows(step - |z|, w), z);
  }

  lemma LongWindow(net: Net, z: seq<Vec>)
    requires net.cfg.Valid() && Uniform(z, net.cfg.fc2Units) && |z| >= net.cfg.step
    ensures Window(net, z) == Cat(z[|z| - net.cfg.step..])
  {
    var w, step := net.cfg.fc2Units, net.cfg.step;
    var kept := Kept(net, z);
    assert kept == z[|z| - step..];
    assert Uniform(kept, w);
    AssembleAsRows(kept, w, step);
    assert BlankRows(0, w) + kept == kept;
  }

  /** Block `j` of the window holds latent `|z| - step + j`, or zeros when
      the history does not reach that far back. */
  lemma WindowSlots(net: Net, z: seq<Vec>)
    requires net.cfg.Valid() && Uniform(z, net.cfg.fc2Units)
    ensures forall j :: 0 <= j < net.cfg.step ==>
      Slot(Window(net, z), net.cfg.fc2Units, j) ==
        if j < net.cfg.step - |z| then Zeros(net.cfg.fc2Units) else z[|z| - net.cfg.step + j]
  {
    var kept := Kept(net, z);
    assert Uniform(kept, net.cfg.fc2Units);
    AssembleSlots(kept, net.cfg.fc2Units, net.cfg.step);
  }

  // ---------------------------------------------------------------------
  // The treatment block
  // ---------------------------------------------------------------------

  /** Of the `step` blocks of `block`, each `t` wide, the `k` last stand for
      the kept timesteps: the first `|lw|` of those hold the one-hot rows of
      `lw` in order and every other block is zero. */
  ghost predicate OneHotRows(block: Vec, t: nat, step: nat, k: nat, lw: seq<int>) {
    forall j :: 0 <= j < step ==> OneHotRowAt(block, t, step, k, lw, j)
  }

  /** Block `j` of such a block. */
  ghost predicate OneHotRowAt(block: Vec, t: nat, step: nat, k: nat, lw: seq<int>, j: nat) {
    Slot(block, t, j) ==
      if step - k <= j < step - k + |lw| then OneHot(t, lw[j - (step - k)]) else Zeros(t)
  }

  /** `k <= step` rows of width `t`, the one-hot rows of `lw` followed by
      zero rows, assemble into such a block. */
  lemma OneHotRowsBlock(slots: seq<Vec>, lw: seq<int>, t: nat, step: nat)
    requires |lw| <= |slots| <= step
    requires forall i :: 0 <= i < |slots| ==> slots[i] == if i < |lw| then OneHot(t, lw[i]) else Zeros(t)
    ensures |Assemble(slots, t * step)| == t * step
    ensures OneHotRows(Assemble(slots, t * step), t, step, |slots|, lw)
  {
    var pad := step - |slots|;
    assert Uniform(slots, t);
    AssembleSlots(slots, t, step);
    forall j | 0 <= j < step
      ensures OneHotRowAt(Assemble(slots, t * step), t, step, |slots|, lw, j)
    {
      if j >= pad {
        assert slots[j - pad] == if j - pad < |lw| then OneHot(t, lw[j - pad]) else Zeros(t);
      }
    }
    assert OneHotRows(Assemble(slots, t * step), t, step, |slots|, lw);
  }

  /** The rows `LabelSlots` scatters: the one-hot rows of the last `step`
      labels, which pass the range check, followed by zero rows. */
  lemma LabelRows(cfg: Config, k: nat, labels: seq<int>)
    requires cfg.Valid() && LabelSlots(cfg, k, labels).Ok?
    ensures var lw := Last(labels, cfg.step);
      1 <= |lw| <= k && forall i :: 0 <= i < |lw| ==> 0 <= lw[i] < cfg.numTreatment
    ensures var lw := Last(labels, cfg.step);
      var slots := LabelSlots(cfg, k, labels).value;
      |slots| == k &&
      forall i :: 0 <= i < k ==>
        slots[i] == if i < |lw| then OneHot(cfg.numTreatment, lw[i]) else Zeros(cfg.numTreatment)
  {
  }

  /** Training mode: the last `step` labels pass the range check, and the
      treatment block over `k <= step` kept timesteps holds their one-hot
      rows, zero where the padding or a missing label leaves a block empty. */
  lemma LabelBlock(cfg: Config, k: nat, labels: seq<int>)
    requires cfg.Valid() && k <= cfg.step && LabelSlots(cfg, k, labels).Ok?
    ensures var lw := Last(labels, cfg.step);
      1 <= |lw| <= k && forall i :: 0 <= i < |lw| ==> 0 <= lw[i] < cfg.numTreatment
    ensures var block := Assemble(LabelSlots(cfg, k, labels).value, cfg.numTreatment * cfg.step);
      |block| == cfg.numTreatment * cfg.step &&
      OneHotRows(block, cfg.numTreatment, cfg.step, k, Last(labels, cfg.step))
  {
    LabelRows(cfg, k, labels);
    OneHotRowsBlock(LabelSlots(cfg, k, labels).value, Last(labels, cfg.step), cfg.numTreatment, cfg.step);
  }

  /** Block `j` of `block` (rows `t` wide, `step` of them) is zero padding
      in front of the labels, then the one-hot row of label
      `|labels| - step + j`, which lies in `[0, t)`. */
  ghost predicate LabelsScattered(block: Vec, t: nat, step: nat, labels: seq<int>) {
    forall j :: 0 <= j < step ==> LabelAt(block, t, step, labels, j)
  }

  /** Block `j < step` of such a block. */
  ghost predicate LabelAt(block: Vec, t: nat, step: nat, labels: seq<int>, j: nat) {
    if j < step - |labels| then Slot(block, t, j) == Zeros(t)
    else
      && j < step
      && 0 <= labels[|labels| - step + j] < t
      && Slot(block, t, j) == OneHot(t, labels[|labels| - step + j])
  }

  /** `LabelBlock` when there is one label per timestep of a history of
      which `k` timesteps are kept. */
  lemma AlignedLabels(cfg: Config, k: nat, labels: seq<int>)
    requires cfg.Valid() && LabelSlots(cfg, k, labels).Ok?
    requires k == if 1 <= cfg.step < |labels| then cfg.step else |labels|
    ensures LabelsScattered(Assemble(LabelSlots(cfg, k, labels).value, cfg.numTreatment * cfg.step),
      cfg.numTreatment, cfg.step, labels)
  {
    LabelBlock(cfg, k, labels);
    AlignedScatter(Assemble(LabelSlots(cfg, k, labels).value, cfg.numTreatment * cfg.step),
      cfg.numTreatment, cfg.step, k, Last(labels, cfg.step), labels);
  }

  /** A block holding the one-hot rows of the last `step` labels, padded on
      the left to `step` rows, scatters the labels. */
  lemma AlignedScatter(block: Vec, t: nat, step: nat, k: nat, lw: seq<int>, labels: seq<int>)
    requires step >= 1 && lw == Last(labels, step) && |lw| == k
    requires forall i :: 0 <= i < |lw| ==> 0 <= lw[i] < t
    requires OneHotRows(block, t, step, k, lw)
    ensures LabelsScattered(block, t, step, labels)
  {
    forall j | 0 <= j < step
      ensures LabelAt(block, t, step, labels, j)
    {
      AlignedScatterAt(block, t, step, k, lw, labels, j);
    }
  }

  /** Block `j` of `AlignedScatter`. */
  lemma AlignedScatterAt(block: Vec, t: nat, step: nat, k: nat, lw: seq<int>, labels: seq<int>, j: nat)
    requires step >= 1 && lw == Last(labels, step) && |lw| == k && j < step
    requires forall i :: 0 <= i < |lw| ==> 0 <= lw[i] < t
    requires OneHotRowAt(block, t, step, k, lw, j)
    ensures LabelAt(block, t, step, labels, j)
  {
    var L := |labels|;
    var pad := step - k;
    if j >= step - L {
      assert lw[j - pad] == labels[L - step + j];
    }
  }

  /** Of the `step` blocks of `block`, each `t` wide, the last `|logits|`
      stand for the timesteps of `logits`: each holds the one-hot row of a
      largest logit of its timestep, and the blocks in front are zero. */
  ghost predicate PredictedRows(block: Vec, t: nat, step: nat, logits: seq<Vec>) {
    forall j :: 0 <= j < step ==> PredictedRowAt(block, t, step, logits, j)
  }

  /** Block `j` of such a block. */
  ghost predicate PredictedRowAt(block: Vec, t: nat, step: nat, logits: seq<Vec>, j: nat) {
    if j < step - |logits| then Slot(block, t, j) == Zeros(t)
    else j < step && OneHotAtMax(logits[j - (step - |logits|)], Slot(block, t, j))
  }

  /** Evaluation mode: with a `topk(1)` that picks a largest entry, each
      predicted row is the one-hot row of a largest logit of its timestep. */
  lemma PredictedAtMax(net: Net, logits: seq<Vec>)
    requires net.SelectsMax()
    ensures forall i :: 0 <= i < |logits| && |logits[i]| > 0 ==>
      OneHotAtMax(logits[i], PredictedSlots(net, logits)[i])
  {
    var r := PredictedSlots(net, logits);
    forall i | 0 <= i < |logits| && |logits[i]| > 0
      ensures OneHotAtMax(logits[i], r[i])
    {
      var m := net.topk(logits[i]);
      assert IsMaxIndex(logits[i], m) && r[i] == OneHot(|logits[i]|, m);
    }
  }

  /** Evaluation mode: block `j` of the treatment block is zero padding or
      the one-hot row of a largest logit of the timestep it stands for. */
  lemma PredictedBlock(net: Net, logits: seq<Vec>, w: nat, step: nat, width: nat)
    requires net.SelectsMax() && w >= 1 && Uniform(logits, w) && |logits| <= step
    requires width == w * step
    ensures var block := Assemble(PredictedSlots(net, logits), width);
      |block| == width && PredictedRows(block, w, step, logits)
  {
    var slots := PredictedSlots(net, logits);
    assert Uniform(slots, w);
    PredictedAtMax(net, logits);
    AssembleSlots(slots, w, step);
    var pad := step - |logits|;
    var block := Assemble(slots, width);
    forall j | 0 <= j < step
      ensures PredictedRowAt(block, w, step, logits, j)
    {
      if j >= pad {
        assert Slot(block, w, j) == slots[j - pad];
      }
    }
  }

  /** Picking the first largest entry is a `topk(1)` the model admits. */
  lemma FirstMaxSelector(net: Net)
    ensures net.(topk := ArgMax).SelectsMax()
  {
  }

  // ---------------------------------------------------------------------
  // The variant forward passes over a latent history
  // ---------------------------------------------------------------------

  /** The last `step` labels pass the range check and reach no further back
      than a history of `L` states does. */
  ghost predicate LabelsFit(cfg: Config, L: nat, labels: seq<int>) {
    && |labels| >= 1
    && (|labels| <= L || cfg.step <= L)
    && forall i :: 0 <= i < |labels| && |labels| - cfg.step <= i ==> 0 <= labels[i] < cfg.numTreatment
  }

  /** Scattering the labels into the `k = min(step, L)` kept rows succeeds
      exactly when the labels fit a history of `L` states. */
  lemma LabelSlotsOk(cfg: Config, L: nat, labels: seq<int>)
    requires cfg.Valid()
    ensures LabelSlots(cfg, if cfg.step < L then cfg.step else L, labels).Ok? <==> LabelsFit(cfg, L, labels)
  {
    var step := cfg.step;
    var lw := Last(labels, step);
    assert InRange(lw, cfg.numTreatment) <==>
           (forall i :: 0 <= i < |labels| && |labels| - step <= i ==> 0 <= labels[i] < cfg.numTreatment)
    by {
      forall i | 0 <= i < |labels| && |labels| - step <= i
        ensures lw[i - (|labels| - |lw|)] == labels[i]
      {
      }
      forall i | 0 <= i < |lw|
        ensures lw[i] == labels[i + (|labels| - |lw|)]
      {
      }
    }
  }

  /** The latest of the kept latents is the latest latent. */
  lemma LatestKept(net: Net, z: seq<Vec>)
    requires net.Valid() && |z| >= 1
    ensures |Logits(net, z)| >= 1
    ensures Logits(net, z)[|Logits(net, z)| - 1] == net.logitsT(z[|z| - 1])
  {
    var kept := Kept(net, z);
    assert kept[|kept| - 1] == z[|z| - 1];
  }

  /** When a variant's forward pass succeeds, the history is non-empty, the
      window block is `out.z`, `out.t` is the logits of the latest latent
      only, and the widths are those of the configuration. */
  lemma VariantBasics(net: Net, mode: Mode, row: Row, z: seq<Vec>)
    requires net.Valid() && Uniform(z, net.cfg.fc2Units) && VariantForward(net, mode, row, z).Ok?
    ensures var out := VariantForward(net, mode, row, z).value;
      && |z| >= 1
      && out.z == Window(net, z)
      && out.t == net.logitsT(z[|z| - 1])
      && |out.t| == net.cfg.numTreatment
      && |out.y| == net.cfg.actionSize
    ensures |VariantForward(net, mode, row, z).value.z| == net.cfg.fc2Units * net.cfg.step
    ensures !net.SimpleQNetwork? ==> JointInput(net, mode, row, z).Ok?
  {
    WindowLayout(net, z);
    match net
    case SimpleQNetwork(_, _, _, _, _) =>
      SimpleBasics(net, mode, row, z);
    case CEQNetwork1(_, _, _, _, _) =>
      CEQ1Basics(net, mode, row, z);
    case CEQNetwork2(_, _, _, _, _, _) =>
      CEQ2Basics(net, mode, row, z);
  }

  lemma SimpleBasics(net: Net, mode: Mode, row: Row, z: seq<Vec>)
    requires net.SimpleQNetwork? && net.Valid() && SimpleForward(net, mode, row, z).Ok?
    ensures var out := SimpleForward(net, mode, row, z).value;
      && |z| >= 1
      && out.z == Window(net, z)
      && out.t == net.logitsT(z[|z| - 1])
      && |out.t| == net.cfg.numTreatment
      && |out.y| == net.cfg.actionSize
  {
    LatestKept(net, z);
  }

  lemma CEQ1Basics(net: Net, mode: Mode, row: Row, z: seq<Vec>)
    requires net.CEQNetwork1? && net.Valid() && CEQ1Forward(net, mode, row, z).Ok?
    ensures var out := CEQ1Forward(net, mode, row, z).value;
      && |z| >= 1
      && out.z == Window(net, z)
      && out.t == net.logitsT(z[|z| - 1])
      && |out.t| == net.cfg.numTreatment
      && |out.y| == net.cfg.actionSize
    ensures JointInput(net, mode, row, z).Ok?
  {
    LatestKept(net, z);
  }

  lemma CEQ2Basics(net: Net, mode: Mode, row: Row, z: seq<Vec>)
    requires net.CEQNetwork2? && net.Valid() && CEQ2Forward(net, mode, row, z).Ok?
    ensures var out := CEQ2Forward(net, mode, row, z).value;
      && |z| >= 1
      && out.z == Window(net, z)
      && out.t == net.logitsT(z[|z| - 1])
      && |out.t| == net.cfg.numTreatment
      && |out.y| == net.cfg.actionSize
    ensures JointInput(net, mode, row, z).Ok?
  {
    LatestKept(net, z);
  }

  /** A variant's forward pass succeeds exactly when the history is
      non-empty, `prev_action` indexes the action row (`SimpleQNetwork`
      only), and in training the labels are present, non-empty and, for the
      two networks that one-hot encode them, fit the history. */
  lemma VariantOk(net: Net, mode: Mode, row: Row, z: seq<Vec>)
    requires net.Valid() && Uniform(z, net.cfg.fc2Units)
    ensures VariantForward(net, mode, row, z).Ok? <==>
      && |z| >= 1
      && (net.SimpleQNetwork? ==> 0 <= row.prevAction < net.cfg.actionSize)
      && (mode == Training ==> row.t.Some? && |row.t.value| >= 1)
      && (mode == Training && !net.SimpleQNetwork? ==> LabelsFit(net.cfg, |z|, row.t.value))
  {
    if net.SimpleQNetwork? {
      SimpleOk(net, mode, row, z);
    } else {
      JointInputOk(net, mode, row, z);
    }
  }

  /** `SimpleQNetwork` reads no label window: it fails only on an empty
      history, an out-of-range `prev_action` or a missing latest label. */
  lemma SimpleOk(net: Net, mode: Mode, row: Row, z: seq<Vec>)
    requires net.SimpleQNetwork? && net.Valid()
    ensures SimpleForward(net, mode, row, z).Ok? <==>
      && |z| >= 1
      && 0 <= row.prevAction < net.cfg.actionSize
      && (mode == Training ==> row.t.Some? && |row.t.value| >= 1)
  {
  }

  /** The joint input is built exactly when, in training, the labels are
      present and fit the history. */
  lemma JointInputOk(net: Net, mode: Mode, row: Row, z: seq<Vec>)
    requires net.Valid() && Uniform(z, net.cfg.fc2Units)
    ensures |z| >= 1 ==>
      (JointInput(net, mode, row, z).Ok? <==>
        (mode == Training ==> row.t.Some? && LabelsFit(net.cfg, |z|, row.t.value)))
  {
    if mode == Training && row.t.Some? {
      TrainingInputOk(net, row, z, row.t.value);
      LabelSlotsOk(net.cfg, |z|, row.t.value);
    }
  }

  /** In training the joint input is built exactly when the labels scatter
      into the kept rows. */
  lemma TrainingInputOk(net: Net, row: Row, z: seq<Vec>, labels: seq<int>)
    requires net.Valid() && row.t == Some(labels)
    ensures JointInput(net, Training, row, z).Ok? <==>
      LabelSlots(net.cfg, if net.cfg.step < |z| then net.cfg.step else |z|, labels).Ok?
  {
    assert |Logits(net, z)| == if net.cfg.step < |z| then net.cfg.step else |z|;
  }

  /** The joint input of the `CEQNetwork_1` and `CEQNetwork_2` heads over a
      latent history `z` is `(fc2_units + num_treatment) * step` wide, as the
      heads' first `nn.Linear` expects, and begins with the window block. */
  lemma JointInputLayout(net: Net, mode: Mode, row: Row, z: seq<Vec>)
    requires net.Valid() && Uniform(z, net.cfg.fc2Units)
    requires JointInput(net, mode, row, z).Ok?
    ensures var x := JointInput(net, mode, row, z).value;
      var w, t, step := net.cfg.fc2Units, net.cfg.numTreatment, net.cfg.step;
      |x| == (w + t) * step && x[..w * step] == Window(net, z)
    ensures mode == Training ==> row.t.Some?
    ensures var x := JointInput(net, mode, row, z).value;
      x[net.cfg.fc2Units * net.cfg.step..] ==
        Assemble(TreatmentSlots(net, mode, row, Logits(net, z)).value, net.cfg.numTreatment * net.cfg.step)
  {
    var w, t, step := net.cfg.fc2Units, net.cfg.numTreatment, net.cfg.step;
    JointInputParts(net, mode, row, z);
    JoinBlocks(Window(net, z), Assemble(TreatmentSlots(net, mode, row, Logits(net, z)).value, t * step), w, t, step);
  }

  /** A built joint input is the window block followed by the padded
      treatment block. */
  lemma JointInputParts(net: Net, mode: Mode, row: Row, z: seq<Vec>)
    requires net.Valid() && JointInput(net, mode, row, z).Ok?
    ensures TreatmentSlots(net, mode, row, Logits(net, z)).Ok?
    ensures mode == Training ==> row.t.Some?
    ensures |Window(net, z)| == net.cfg.fc2Units * net.cfg.step
    ensures JointInput(net, mode, row, z).value ==
      Window(net, z) + Assemble(TreatmentSlots(net, mode, row, Logits(net, z)).value, net.cfg.numTreatment * net.cfg.step)
  {
  }

  /** A block of `step` rows `w` wide followed by one of `step` rows `t`
      wide is `(w + t) * step` wide and splits back into the two. */
  lemma JoinBlocks(a: Vec, b: Vec, w: nat, t: nat, step: nat)
    requires |a| == w * step && |b| == t * step
    ensures |a + b| == (w + t) * step
    ensures (a + b)[..w * step] == a && (a + b)[w * step..] == b
  {
    MulAddRight(w, t, step);
  }

  /** Block `j < step` of an evaluation treatment block over the latent
      history `z`: zeros before the first latent, otherwise the one-hot row
      of a largest logit of latent `|z| - step + j`. */
  ghost predicate LatentPredictionAt(block: Vec, net: Net, z: seq<Vec>, j: nat) {
    var t, step := net.cfg.numTreatment, net.cfg.step;
    if j < step - |z| then Slot(block, t, j) == Zeros(t)
    else j < step && OneHotAtMax(net.logitsT(z[|z| - step + j]), Slot(block, t, j))
  }

  /** Evaluation mode: block `j` of the treatment block of the joint input is
      zero padding or the one-hot row of a largest logit of latent
      `|z| - step + j`. */
  lemma PredictedInput(net: Net, row: Row, z: seq<Vec>)
    requires net.Valid() && net.SelectsMax() && Uniform(z, net.cfg.fc2Units)
    requires JointInput(net, Evaluation, row, z).Ok?
    ensures var x := JointInput(net, Evaluation, row, z).value;
      forall j :: 0 <= j < net.cfg.step ==>
        LatentPredictionAt(x[net.cfg.fc2Units * net.cfg.step..], net, z, j)
  {
    var t, step := net.cfg.numTreatment, net.cfg.step;
    JointInputLayout(net, Evaluation, row, z);
    var x := JointInput(net, Evaluation, row, z).value;
    var logits := Logits(net, z);
    var block := x[net.cfg.fc2Units * step..];
    assert block == Assemble(PredictedSlots(net, logits), t * step);
    PredictedBlock(net, logits, t, step, t * step);
    PredictedLatents(net, z, block);
  }

  /** `PredictedBlock` over the logits of the kept latents of `z`. */
  lemma PredictedLatents(net: Net, z: seq<Vec>, block: Vec)
    requires net.Valid()
    requires PredictedRows(block, net.cfg.numTreatment, net.cfg.step, Logits(net, z))
    ensures forall j :: 0 <= j < net.cfg.step ==> LatentPredictionAt(block, net, z, j)
  {
    forall j | 0 <= j < net.cfg.step
      ensures LatentPredictionAt(block, net, z, j)
    {
      PredictedLatentAt(net, z, block, j);
    }
  }

  /** Block `j` of `PredictedLatents`. */
  lemma PredictedLatentAt(net: Net, z: seq<Vec>, block: Vec, j: nat)
    requires net.Valid() && j < net.cfg.step
    requires PredictedRowAt(block, net.cfg.numTreatment, net.cfg.step, Logits(net, z), j)
    ensures LatentPredictionAt(block, net, z, j)
  {
    var step := net.cfg.step;
    if j >= step - |z| {
      var logits := Logits(net, z);
      var kept := Kept(net, z);
      var i := j - (step - |logits|);
      assert logits[i] == net.logitsT(kept[i]);
      assert kept[i] == z[|z| - step + j];
    }
  }

  /** Training mode, with one label per latent: the treatment block of the
      joint input scatters the labels of the kept latents. */
  lemma LabelInput(net: Net, row: Row, z: seq<Vec>)
    requires net.Valid() && Uniform(z, net.cfg.fc2Units)
    requires JointInput(net, Training, row, z).Ok?
    ensures row.t.Some?
    ensures var x := JointInput(net, Training, row, z).value;
      var w, t, step := net.cfg.fc2Units, net.cfg.numTreatment, net.cfg.step;
      |row.t.value| == |z| ==> LabelsScattered(x[w * step..], t, step, row.t.value)
  {
    JointInputLayout(net, Training, row, z);
    if |row.t.value| == |z| {
      AlignedLabels(net.cfg, |Logits(net, z)|, row.t.value);
    }
  }

  // ---------------------------------------------------------------------
  // From latents back to states
  // ---------------------------------------------------------------------

  /** `z` holds the encoder's image of each state in turn. */
  predicate EncodedAs(net: Net, states: seq<Vec>, z: seq<Vec>) {
    |z| == |states| && forall i :: 0 <= i < |z| ==> z[i] == net.encoder(states[i])
  }

  /** Block `j` of `v` is the encoding of state `L - step + j`, or
      `fc2_units` zeros before the first of the `L` states. */
  ghost predicate WindowOfStates(v: Vec, net: Net, states: seq<Vec>) {
    var L, step, w := |states|, net.cfg.step, net.cfg.fc2Units;
    forall j :: 0 <= j < step ==>
      Slot(v, w, j) == if j < step - L then Zeros(w) else net.encoder(states[L - step + j])
  }

  /** Block `j` of `block` is `num_treatment` zeros before the first of the
      `L` states, and otherwise the one-hot row of a largest logit of state
      `L - step + j`. */
  ghost predicate PredictionsOfStates(block: Vec, net: Net, states: seq<Vec>) {
    forall j :: 0 <= j < net.cfg.step ==> PredictionAt(block, net, states, j)
  }

  /** Block `j < step` of such a block. */
  ghost predicate PredictionAt(block: Vec, net: Net, states: seq<Vec>, j: nat) {
    var L, step, t := |states|, net.cfg.step, net.cfg.numTreatment;
    if j < step - L then Slot(block, t, j) == Zeros(t)
    else j < step && OneHotAtMax(net.logitsT(net.encoder(states[L - step + j])), Slot(block, t, j))
  }

  /** `WindowSlots` and `WindowLayout` for the encodings of `states`. */
  lemma EncodedWindow(net: Net, states: seq<Vec>, z: seq<Vec>)
    requires net.Valid() && EncodedAs(net, states, z)
    ensures WindowOfStates(Window(net, z), net, states)
    ensures var L, step, w := |states|, net.cfg.step, net.cfg.fc2Units;
      L < step ==> Window(net, z) == ZeroRows(step - L, w) + Cat(z)
  {
    var L, step, w := |states|, net.cfg.step, net.cfg.fc2Units;
    assert Uniform(z, w) && |z| == L;
    forall j | 0 <= j < step
      ensures Slot(Window(net, z), w, j) == if j < step - L then Zeros(w) else net.encoder(states[L - step + j])
    {
      EncodedSlot(net, states, z, j);
    }
    assert WindowOfStates(Window(net, z), net, states);
    if L < step {
      ShortWindow(net, z);
    }
  }

  /** Block `j` of `EncodedWindow`. */
  lemma EncodedSlot(net: Net, states: seq<Vec>, z: seq<Vec>, j: nat)
    requires net.Valid() && EncodedAs(net, states, z) && j < net.cfg.step
    ensures var L, step, w := |states|, net.cfg.step, net.cfg.fc2Units;
      Slot(Window(net, z), w, j) == if j < step - L then Zeros(w) else net.encoder(states[L - step + j])
  {
    assert Uniform(z, net.cfg.fc2Units);
    WindowSlots(net, z);
  }

  /** `PredictedInput` for the encodings of the states. */
  lemma EncodedPredictions(net: Net, states: seq<Vec>, z: seq<Vec>, block: Vec)
    requires net.Valid() && EncodedAs(net, states, z)
    requires forall j :: 0 <= j < net.cfg.step ==> LatentPredictionAt(block, net, z, j)
    ensures PredictionsOfStates(block, net, states)
  {
    var step := net.cfg.step;
    forall j | 0 <= j < step
      ensures PredictionAt(block, net, states, j)
    {
      assert LatentPredictionAt(block, net, z, j);
      if j >= step - |z| {
        assert z[|z| - step + j] == net.encoder(states[|z| - step + j]);
      }
    }
  }

  // ---------------------------------------------------------------------
  // The forward passes
  // ---------------------------------------------------------------------

  /** A successful encoding has one latent per state, `fc2_units` wide. */
  lemma EncodeUniform(net: Net, states: seq<Vec>)
    requires net.Valid() && Encode(net, states).Ok?
    ensures |Encode(net, states).value| == |states|
    ensures Uniform(Encode(net, states).value, net.cfg.fc2Units)
  {
  }

  /** A successful forward call encodes every state and runs the variant's
      own pass on the latents. */
  lemma ForwardUnfold(net: Net, mode: Mode, row: Row)
    requires net.Valid() && Forward(net, mode, row).Ok?
    ensures Encode(net, row.state).Ok?
    ensures EncodedAs(net, row.state, Encode(net, row.state).value)
    ensures Uniform(Encode(net, row.state).value, net.cfg.fc2Units)
    ensures Forward(net, mode, row) == VariantForward(net, mode, row, Encode(net, row.state).value)
  {
    EncodeUniform(net, row.state);
  }

  /** A forward call succeeds exactly when the history is non-empty, every
      state is `state_size` wide, `prev_action` indexes the action row
      (`SimpleQNetwork` only), and in training the labels are present,
      non-empty and, for the two networks that one-hot encode them, in range
      over the last `step` and no longer than the kept window. */
  lemma ForwardOk(net: Net, mode: Mode, row: Row)
    requires net.Valid()
    ensures Forward(net, mode, row).Ok? <==>
      && |row.state| >= 1
      && (forall i :: 0 <= i < |row.state| ==> |row.state[i]| == net.cfg.stateSize)
      && (net.SimpleQNetwork? ==> 0 <= row.prevAction < net.cfg.actionSize)
      && (mode == Training ==> row.t.Some? && |row.t.value| >= 1)
      && (mode == Training && !net.SimpleQNetwork? ==> LabelsFit(net.cfg, |row.state|, row.t.value))
  {
    var enc := Encode(net, row.state);
    if enc.Ok? {
      EncodeUniform(net, row.state);
      VariantOk(net, mode, row, enc.value);
      assert Forward(net, mode, row) == VariantForward(net, mode, row, enc.value);
    }
  }

  /** Which error a failing call returns, in the order the source raises:
      a state of the wrong width fails the encoder, an empty history fails
      `torch.cat`, an out-of-range `prev_action` fails the scatter of
      `SimpleQNetwork`, and in training a missing `data['t']` is a missing
      field and an empty one an empty history. */
  lemma ForwardErrors(net: Net, mode: Mode, row: Row)
    requires net.Valid()
    ensures !(forall i :: 0 <= i < |row.state| ==> |row.state[i]| == net.cfg.stateSize) ==>
      Forward(net, mode, row) == Err(ShapeMismatch)
    ensures |row.state| == 0 ==> Forward(net, mode, row) == Err(EmptyHistory)
    ensures (WellFormedHistory(net, row) && net.SimpleQNetwork? &&
             !(0 <= row.prevAction < net.cfg.actionSize)) ==>
      Forward(net, mode, row) == Err(IndexOutOfRange)
    ensures (WellFormedHistory(net, row) && mode == Training &&
             (net.SimpleQNetwork? ==> 0 <= row.prevAction < net.cfg.actionSize)) ==>
      && (row.t == None ==> Forward(net, mode, row) == Err(MissingField))
      && (row.t == Some([]) ==> Forward(net, mode, row) == Err(EmptyHistory))
  {
    var enc := Encode(net, row.state);
    if enc.Ok? {
      assert Forward(net, mode, row) == VariantForward(net, mode, row, enc.value);
      EncodeUniform(net, row.state);
      if |row.state| > 0 {
        assert |Logits(net, enc.value)| > 0;
      }
    }
  }

  /** A non-empty history of states the encoder accepts. */
  ghost predicate WellFormedHistory(net: Net, row: Row) {
    |row.state| >= 1 && forall i :: 0 <= i < |row.state| ==> |row.state[i]| == net.cfg.stateSize
  }

  /** A successful call returns treatment logits `num_treatment` wide, which
      are those of the most recent state only, values `action_size` wide, and
      a window block `fc2_units * step` wide. */
  lemma ForwardShape(net: Net, mode: Mode, row: Row)
    requires net.Valid() && Forward(net, mode, row).Ok?
    ensures var out := Forward(net, mode, row).value;
      && |out.t| == net.cfg.numTreatment
      && |out.y| == net.cfg.actionSize
      && |out.z| == net.cfg.fc2Units * net.cfg.step
      && out.t == net.logitsT(net.encoder(row.state[|row.state| - 1]))
  {
    ForwardUnfold(net, mode, row);
    var z := Encode(net, row.state).value;
    VariantBasics(net, mode, row, z);
    assert z[|z| - 1] == net.encoder(row.state[|row.state| - 1]);
    assert Forward(net, mode, row).value == VariantForward(net, mode, row, z).value;
  }

  /** The window block of a successful call, in terms of the raw states:
      block `j` is the encoding of state `L - step + j`, zeros before the
      first state; so for `L < step` the block is `step - L` zero rows
      followed by the encodings of all states in order. */
  lemma ForwardWindow(net: Net, mode: Mode, row: Row)
    requires net.Valid() && Forward(net, mode, row).Ok?
    ensures Encode(net, row.state).Ok?
    ensures WindowOfStates(Forward(net, mode, row).value.z, net, row.state)
    ensures var out := Forward(net, mode, row).value;
      var L, step, w := |row.state|, net.cfg.step, net.cfg.fc2Units;
      L < step ==> out.z == ZeroRows(step - L, w) + Cat(Encode(net, row.state).value)
  {
    ForwardUnfold(net, mode, row);
    var z := Encode(net, row.state).value;
    VariantBasics(net, mode, row, z);
    EncodedWindow(net, row.state, z);
    assert Forward(net, mode, row).value.z == Window(net, z);
    assert WindowOfStates(Forward(net, mode, row).value.z, net, row.state);
  }

  /** `SimpleQNetwork`: the values are the one-hot of `prev_action` exactly
      when the latest treatment is 1 (the last label in training, the top-1
      index of `out.t` in evaluation), and the head's output otherwise. */
  lemma SimpleOverride(net: Net, mode: Mode, row: Row)
    requires net.SimpleQNetwork? && net.Valid() && Forward(net, mode, row).Ok?
    ensures var out := Forward(net, mode, row).value;
      var onehot := OneHot(net.cfg.actionSize, row.prevAction);
      && 0 <= row.prevAction < net.cfg.actionSize
      && (mode == Training ==>
            out.y == if row.t.value[|row.t.value| - 1] == 1 then onehot else net.fc(out.z))
      && (mode == Evaluation ==>
            out.y == if net.topk(out.t) == 1 then onehot else net.fc(out.z))
  {
    ForwardUnfold(net, mode, row);
  }

  /** The head input of a whole forward call of `CEQNetwork_1` or
      `CEQNetwork_2` is `(fc2_units + num_treatment) * step` wide, as the
      heads' first `nn.Linear` expects, and begins with `out.z`. */
  lemma ForwardJointInput(net: Net, mode: Mode, row: Row)
    requires !net.SimpleQNetwork? && net.Valid() && Forward(net, mode, row).Ok?
    ensures Encode(net, row.state).Ok?
    ensures JointInput(net, mode, row, Encode(net, row.state).value).Ok?
    ensures var out := Forward(net, mode, row).value;
      var x := JointInput(net, mode, row, Encode(net, row.state).value).value;
      var w, t, step := net.cfg.fc2Units, net.cfg.numTreatment, net.cfg.step;
      |x| == (w + t) * step && x[..w * step] == out.z
  {
    ForwardUnfold(net, mode, row);
    var z := Encode(net, row.state).value;
    VariantBasics(net, mode, row, z);
    JointInputLayout(net, mode, row, z);
  }

  /** Evaluation mode, in terms of the raw states: block `j` of the
      treatment block of the head input is zero padding or the one-hot row
      of a largest logit of state `L - step + j`. */
  lemma ForwardPredictedBlock(net: Net, row: Row)
    requires !net.SimpleQNetwork? && net.Valid() && net.SelectsMax() && Forward(net, Evaluation, row).Ok?
    ensures Encode(net, row.state).Ok?
    ensures JointInput(net, Evaluation, row, Encode(net, row.state).value).Ok?
    ensures var x := JointInput(net, Evaluation, row, Encode(net, row.state).value).value;
      PredictionsOfStates(x[net.cfg.fc2Units * net.cfg.step..], net, row.state)
  {
    ForwardUnfold(net, Evaluation, row);
    var z := Encode(net, row.state).value;
    VariantBasics(net, Evaluation, row, z);
    PredictedInput(net, row, z);
    var x := JointInput(net, Evaluation, row, z).value;
    EncodedPredictions(net, row.state, z, x[net.cfg.fc2Units * net.cfg.step..]);
  }

  /** Training mode, with one label per state: the treatment block of the
      head input scatters the labels, so block `j` is zero padding or the
      one-hot row of label `L - step + j`, which lies in `[0, num_treatment)`. */
  lemma ForwardLabelBlock(net: Net, row: Row)
    requires !net.SimpleQNetwork? && net.Valid() && Forward(net, Training, row).Ok?
    ensures Encode(net, row.state).Ok?
    ensures JointInput(net, Training, row, Encode(net, row.state).value).Ok?
    ensures row.t.Some?
    ensures var x := JointInput(net, Training, row, Encode(net, row.state).value).value;
      var w, t, step := net.cfg.fc2Units, net.cfg.numTreatment, net.cfg.step;
      |row.t.value| == |row.state| ==> LabelsScattered(x[w * step..], t, step, row.t.value)
  {
    ForwardUnfold(net, Training, row);
    var z := Encode(net, row.state).value;
    VariantBasics(net, Training, row, z);
    assert |z| == |row.state|;
    LabelInput(net, row, z);
  }

  /** `CEQNetwork_1`: the values are the head `fc` applied to the joint
      input. */
  lemma CEQ1Head(net: Net, mode: Mode, row: Row)
    requires net.CEQNetwork1? && net.Valid() && Forward(net, mode, row).Ok?
    ensures Encode(net, row.state).Ok?
    ensures JointInput(net, mode, row, Encode(net, row.state).value).Ok?
    ensures net.fc(JointInput(net, mode, row, Encode(net, row.state).value).value) ==
      Forward(net, mode, row).value.y
  {
    ForwardUnfold(net, mode, row);
  }

  /** `CEQNetwork_2`: the values blend the two heads by the latest treatment
      `t` (the last label in training, the top-1 index of `out.t` in
      evaluation, with no sampling), and with two treatment classes `t` is 0
      or 1, so the values are exactly one head's output. */
  lemma CEQ2Blend(net: Net, mode: Mode, row: Row)
    requires net.CEQNetwork2? && net.Valid() && net.SelectsMax() && Forward(net, mode, row).Ok?
    ensures Encode(net, row.state).Ok?
    ensures JointInput(net, mode, row, Encode(net, row.state).value).Ok?
    ensures mode == Training ==> row.t.Some? && |row.t.value| >= 1
    ensures var out := Forward(net, mode, row).value;
      var x := JointInput(net, mode, row, Encode(net, row.state).value).value;
      var t := if mode == Training then row.t.value[|row.t.value| - 1] else net.topk(out.t);
      && out.y == Blend(t as real, net.fcT1(x), net.fcT0(x))
      && (net.cfg.numTreatment == 2 ==> out.y == if t == 1 then net.fcT1(x) else net.fcT0(x))
  {
    ForwardUnfold(net, mode, row);
    var z := Encode(net, row.state).value;
    assert VariantForward(net, mode, row, z) == CEQ2Forward(net, mode, row, z);
    CEQ2Values(net, mode, row, z);
  }

  /** `CEQ2Blend` over a latent history: the blend weight is a class index
      in `[0, num_treatment)`. */
  lemma CEQ2Values(net: Net, mode: Mode, row: Row, z: seq<Vec>)
    requires net.CEQNetwork2? && net.Valid() && net.SelectsMax() && CEQ2Forward(net, mode, row, z).Ok?
    ensures JointInput(net, mode, row, z).Ok?
    ensures mode == Training ==> row.t.Some? && |row.t.value| >= 1
    ensures var out := CEQ2Forward(net, mode, row, z).value;
      var x := JointInput(net, mode, row, z).value;
      var t := if mode == Training then row.t.value[|row.t.value| - 1] else net.topk(out.t);
      && 0 <= t < net.cfg.numTreatment
      && out.y == Blend(t as real, net.fcT1(x), net.fcT0(x))
  {
    if mode == Training {
      LatestLabel(net.cfg, |Logits(net, z)|, row.t.value);
    }
  }

  /** Labels that scatter have a latest label, and it is a class index. */
  lemma LatestLabel(cfg: Config, k: nat, labels: seq<int>)
    requires cfg.Valid() && LabelSlots(cfg, k, labels).Ok?
    ensures |labels| >= 1 && 0 <= labels[|labels| - 1] < cfg.numTreatment
  {
    LabelRows(cfg, k, labels);
    var lw := Last(labels, cfg.step);
    assert lw[|lw| - 1] == labels[|labels| - 1];
  }

  // ---------------------------------------------------------------------
  // Scenarios
  // ---------------------------------------------------------------------

  /** With `state_size = 4`, `step = 4` and a history of two states, the
      window block starts with `2 * fc2_units` zeros. */
  lemma ShortHistoryScenario(net: Net, mode: Mode, row: Row)
    requires net.Valid() && net.cfg.stateSize == 4 && net.cfg.step == 4
    requires Forward(net, mode, row).Ok? && |row.state| == 2
    ensures var out := Forward(net, mode, row).value;
      |out.z| == 4 * net.cfg.fc2Units && AllZero(out.z[..2 * net.cfg.fc2Units])
  {
    ForwardShape(net, mode, row);
    ForwardWindow(net, mode, row);
  }

  /** `SimpleQNetwork` in training, two actions, four well-formed states,
      latest label 1 and `prev_action = 0`: the values are `[1, 0]` whatever
      the head computes. */
  lemma OverrideScenario(net: Net, row: Row)
    requires net.SimpleQNetwork? && net.Valid()
    requires net.cfg.stateSize == 4 && net.cfg.actionSize == 2
    requires |row.state| == 4 && forall i :: 0 <= i < 4 ==> |row.state[i]| == 4
    requires row.prevAction == 0 && row.t.Some? && |row.t.value| >= 1
    requires row.t.value[|row.t.value| - 1] == 1
    ensures Forward(net, Training, row).Ok?
    ensures Forward(net, Training, row).value.y == [1.0, 0.0]
  {
    ForwardOk(net, Training, row);
    SimpleOverride(net, Training, row);
    assert OneHot(2, 0) == [1.0, 0.0];
  }
}
