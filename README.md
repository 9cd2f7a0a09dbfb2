# Causal Q-networks: the forward passes

This project models the forward passes of the three treatment-aware
Q-networks in `algorithms_step/model.py`: `SimpleQNetwork`, `CEQNetwork_1`
and `CEQNetwork_2`, together with the shared `AbstractDQN.forward`. Every
call encodes each state of a history with a learned encoder. It keeps the
last `step` latents and lays them side by side, left-padded with zeros to
`fc2_units * step`. That is the window block `out['z']`. A treatment head
gives logits for the latest latent (`out['t']`), and a value head gives the
action values `out['y']`:

- `SimpleQNetwork` reads the window block. When the latest treatment is 1,
  it replaces the values by the one-hot of `prev_action`.
- `CEQNetwork_1` reads the window block followed by a one-hot treatment
  block, left-padded to `num_treatment * step`. The treatment block holds
  the ground-truth labels in training and the arg-max of the treatment
  logits in evaluation.
- `CEQNetwork_2` reads the same joint input with two heads. It blends them
  as `t * y_t1 + (1 - t) * y_t0`, where `t` is the latest treatment.

The model works on one batch row. The learned layers are opaque functions
carried by the `Net` value. It fixes only their output widths, as their
`nn.Linear` declarations do. Everything around the layers is exact:

- slicing, concatenation and padding;
- the scatters and the blend;
- the branch on `self.training`, which is the explicit `Mode` parameter;
- every way a call can raise on the entries a `Row` carries, as an `Error`
  value.

`topk(1)` is a selector carried by the `Net` value too. `Net.Valid` is only
about layer widths. `Net.SelectsMax` demands only that the selector return
the position of some largest entry of each non-empty row. The lemmas about
the predicted classes require it, and no contract settles which of several
equal logits wins.

The batch dictionary is a `Batch` object. Its `Forward` method writes
`data['z']` and `data['onehot_prev_action']` in place, as the source does.

Files:

- `wrappers.dfy`: `Option`, `Result` and the `Error` kinds.
- `tensors.dfy`: the tensor primitives (`s[-k:]`, `torch.cat`, `F.pad`, a
  one-hot `scatter`, a first-maximum `ArgMax`, the blend) and their laws.
- `qnetwork.dfy`: configuration, networks and the forward passes as
  functions.
- `laws.dfy`: what a forward call promises, and exactly when it succeeds.
- `batch.dfy`: the dictionary the forward call updates.

Where the behaviour one would expect and the code differ, the model follows
the code:

- **Tie-break.** A lowest-index tie-break among equal logits would be
  natural. The code calls `topk(1)`, which leaves that choice to torch, so
  the model leaves it to the network's selector. `ArgMax`, the first
  largest entry, is one selector the model admits (`FirstMaxSelector`).
- **Label window.** The labels are meant to align one-to-one with the
  states. The code slices `data['t'][-step:]` on its own, separately from
  the `L` states. With a history shorter than `step`, more labels than
  states fail the scatter (`ShapeMismatch`). With fewer than
  `min(step, L)` labels, only the first kept rows get a 1 and the rest stay
  zero. Otherwise the last `step` labels fill the kept rows. `LabelsFit`
  and `LabelSlotsOk` state exactly when the scatter succeeds. The layout
  lemmas for the training block state the aligned case.
- **Variant A in training.** It reads only the last label and never checks
  its range.

## Model

| member | source | states |
|---|---|---|
| QNetwork.Encode | algorithms_step/model.py:19 | succeeds exactly when every state is `state_size` wide; then one latent per state, latent `i` being the encoder's output on state `i` |
| QNetworkLaws.EncodeUniform | algorithms_step/model.py:10-19 | a successful encoding has one `fc2_units`-wide latent per state |
| Tensors.Last | algorithms_step/model.py:44 | `s[-k:]` keeps `k` elements, or all of `s` when it is shorter or `k` is 0 |
| QNetwork.Kept | algorithms_step/model.py:44 | no contract of its own: `data['z'][-step:]`, through `Last`; `ShortWindow`, `LongWindow` and `LatestKept` say which latents it keeps |
| QNetwork.Logits | algorithms_step/model.py:45 | one logit row per kept latent, each `num_treatment` wide |
| QNetworkLaws.LatestKept | algorithms_step/model.py:44-45 | the latest logits row is the treatment head's output on the latest latent |
| Tensors.Cat | algorithms_step/model.py:47 | no contract of its own: `torch.cat(rows, dim=-1)`, the rows side by side in order; `CatUniform`, `CatAppend` and `CatZeros` carry its laws |
| Tensors.CatUniform | algorithms_step/model.py:47 | rows of width `w` concatenated are `|rows| * w` wide, and block `j` is row `j` |
| Tensors.CatAppend | algorithms_step/model.py:47 | concatenating two lists of rows is concatenating their concatenations |
| Tensors.CatZeros | algorithms_step/model.py:48 | `m` zero rows of width `w` side by side are `m * w` zeros |
| Tensors.LeftPad | algorithms_step/model.py:48 | always `n` wide; a short row gets zeros in front of it, unchanged after them; a long row loses its front and keeps its last `n` entries |
| QNetwork.Assemble | algorithms_step/model.py:47-48 | no contract of its own: the concatenation padded on the left to a given width, as at lines 47-48 and 103; `AssembleAsRows` and `AssembleSlots` carry its laws |
| QNetworkLaws.AssembleAsRows | algorithms_step/model.py:47-48 | padding `|rows| <= step` rows on the left to `w * step` is concatenating `step - |rows|` zero rows in front of them |
| QNetworkLaws.AssembleSlots | algorithms_step/model.py:47-48 | block `j` of such a padded assembly is zero for `j < step - |rows|` and then the rows in order |
| QNetwork.Window | algorithms_step/model.py:44-48 | no contract of its own: the window block `out['z']` of all three variants (also lines 86-90 and 135-139); `WindowLayout`, `ShortWindow`, `LongWindow` and `WindowSlots` carry its laws |
| QNetworkLaws.WindowLayout | algorithms_step/model.py:44-48 | the window is `fc2_units * step` wide; for `L < step` latents it is `step - L` zero rows and then all latents in order; otherwise the last `step` latents |
| QNetworkLaws.ShortWindow | algorithms_step/model.py:44-48 | the short-history case of the window law |
| QNetworkLaws.LongWindow | algorithms_step/model.py:44-48 | a history of at least `step` latents keeps only the last `step`, most recent last |
| QNetworkLaws.WindowSlots | algorithms_step/model.py:44-48 | block `j` of the window is latent `L - step + j`, or zeros before the first latent |
| Tensors.Zeros | algorithms_step/model.py:51 | `torch.zeros`: `n` entries, all zero (also lines 95 and 99) |
| Tensors.OneHot | algorithms_step/model.py:51-52 | `n` wide, 1 at position `k`, 0 everywhere else |
| Tensors.Scatter | algorithms_step/model.py:51-52 | succeeds exactly when `prev_action` lies in `[0, n)`, giving a row with a 1 there and zeros elsewhere |
| Tensors.OneHotExactlyOne | algorithms_step/model.py:95-96 | a one-hot row has exactly one non-zero entry and sums to 1 |
| QNetwork.LatestTreatment | algorithms_step/model.py:54-58 | no contract of its own: `data['t'][-1]` in training, the selector's top-1 index of `t[-1]` in evaluation (also lines 148 and 153); `SimpleOverride`, `LatestLabel` and `CEQ2Values` carry its laws |
| QNetwork.SimpleForward | algorithms_step/model.py:42-63 | no contract of its own: `SimpleQNetwork._forward` over the latents; `SimpleOk`, `SimpleBasics` and `SimpleOverride` carry its laws |
| QNetworkLaws.SimpleOverride | algorithms_step/model.py:51-58 | `SimpleQNetwork`: `prev_action` is in range; the values are its one-hot when the last label (training) or the selector's top-1 index of `out.t` (evaluation) is 1, and the head's output on `out.z` otherwise |
| QNetworkLaws.SimpleOk | algorithms_step/model.py:42-63 | `SimpleQNetwork` succeeds exactly when the history is non-empty, `prev_action` is in range and, in training, labels exist and are non-empty |
| Tensors.ArgMax | algorithms_step/model.py:57 | one choice of `topk(1)`: the index of a largest entry, with every earlier entry strictly smaller |
| QNetworkLaws.FirstMaxSelector | algorithms_step/model.py:57 | with `ArgMax` as its `topk(1)` selector, a network satisfies `SelectsMax`, so the first-maximum choice is admitted |
| QNetwork.LabelSlots | algorithms_step/model.py:94-97 | a successful scatter of the labels gives `k` rows, each `num_treatment` wide |
| QNetworkLaws.LabelRows | algorithms_step/model.py:94-96 | after a successful scatter, the last `step` labels are non-empty, no more than `k`, and class indices; the rows are their one-hots, then zero rows |
| QNetworkLaws.LabelSlotsOk | algorithms_step/model.py:94-96 | scattering into `min(step, L)` rows succeeds exactly when the labels are non-empty, reach no further back than the history, and the last `step` of them are class indices |
| QNetworkLaws.LatestLabel | algorithms_step/model.py:148 | labels that scatter have a latest label, and it is a class index |
| QNetworkLaws.OneHotRowsBlock | algorithms_step/model.py:103 | one-hot rows followed by zero rows, padded to `num_treatment * step`, leave block `j` as the matching one-hot or zeros |
| QNetworkLaws.LabelBlock | algorithms_step/model.py:93-103 | training: the treatment block is `num_treatment * step` wide and holds the one-hots of the last `step` labels after the padding, zeros elsewhere |
| QNetworkLaws.AlignedLabels | algorithms_step/model.py:93-103 | with one label per kept timestep, block `j` is zero padding or the one-hot of label `L - step + j`, which is a class index |
| QNetworkLaws.AlignedScatter | algorithms_step/model.py:94-103 | the one-hots of the last `step` labels, stacked and padded, have one-hot block `j` for label `L - step + j` |
| QNetwork.PredictedSlots | algorithms_step/model.py:99-101 | evaluation: one row per timestep, as wide as that timestep's logits |
| QNetworkLaws.PredictedAtMax | algorithms_step/model.py:99-101 | evaluation: with a selector that picks a largest entry, each predicted row is the one-hot of a largest logit of its timestep |
| QNetworkLaws.PredictedBlock | algorithms_step/model.py:99-103 | evaluation: the treatment block is `num_treatment * step` wide; block `j` is zeros in the padding, otherwise the one-hot of a largest logit of its timestep |
| QNetworkLaws.PredictedLatents | algorithms_step/model.py:99-103 | evaluation: block `j` of the treatment block is zeros or the one-hot of a largest logit of latent `L - step + j` |
| QNetwork.TreatmentSlots | algorithms_step/model.py:93-101 | the treatment rows: one per kept timestep, each `num_treatment` wide |
| QNetwork.JointInput | algorithms_step/model.py:93-104 | no contract of its own: `torch.cat([z, onehot_t], dim=-1)` over the window and the padded treatment block; `JointInputLayout`, `JointInputOk`, `TrainingInputOk` and `PredictedInput` carry its laws |
| QNetworkLaws.JointInputLayout | algorithms_step/model.py:104 | the head input is `(fc2_units + num_treatment) * step` wide: the window block and then the padded treatment block |
| QNetworkLaws.JointInputOk | algorithms_step/model.py:93-103 | for a non-empty history, the joint input is built exactly when, in training, labels exist and fit the history |
| QNetworkLaws.TrainingInputOk | algorithms_step/model.py:93-97 | in training, the joint input is built exactly when the labels scatter into the kept rows |
| QNetworkLaws.PredictedInput | algorithms_step/model.py:98-104 | evaluation: the treatment part of the head input has block `j` zero or the one-hot of a largest logit of latent `L - step + j` |
| QNetworkLaws.LabelInput | algorithms_step/model.py:93-104 | training, one label per latent: the treatment part of the head input scatters the labels |
| QNetworkLaws.SimpleBasics | algorithms_step/model.py:60-62 | `SimpleQNetwork`: a non-empty history; `out.z` is the window; `out.t` is the logits of the latest latent; widths from the configuration |
| QNetworkLaws.CEQ1Basics | algorithms_step/model.py:106-108 | the same for `CEQNetwork_1`, and the joint input is built |
| QNetworkLaws.CEQ2Basics | algorithms_step/model.py:163-165 | the same for `CEQNetwork_2`, and the joint input is built |
| QNetwork.VariantForward | algorithms_step/model.py:20 | no contract of its own: `self._forward(data)`, dispatched on the network's class; `VariantBasics` and `VariantOk` carry its laws |
| QNetworkLaws.VariantBasics | algorithms_step/model.py:42-165 | the same facts for whichever variant runs |
| QNetworkLaws.VariantOk | algorithms_step/model.py:42-165 | a variant's pass over latents succeeds exactly when the history is non-empty, `prev_action` is in range (`SimpleQNetwork`), and in training labels exist, are non-empty and fit the history (the CEQ networks) |
| QNetworkLaws.EncodedWindow | algorithms_step/model.py:19-48 | block `j` of the window over the encoded states is the encoding of state `L - step + j`, or zeros before the first state |
| QNetworkLaws.EncodedSlot | algorithms_step/model.py:19-48 | block `j` of that law |
| QNetworkLaws.EncodedPredictions | algorithms_step/model.py:98-104 | evaluation: treatment block `j` is zeros or the one-hot of a largest treatment logit of state `L - step + j` |
| QNetwork.Forward | algorithms_step/model.py:18-21 | no contract of its own: `AbstractDQN.forward`, the encoder on every state and then the variant's pass; `ForwardUnfold`, `ForwardOk`, `ForwardErrors` and the other `Forward…` lemmas carry its laws |
| QNetworkLaws.ForwardUnfold | algorithms_step/model.py:18-21 | a successful call encodes every state and runs the variant's pass on the latents |
| QNetworkLaws.ForwardOk | algorithms_step/model.py:18-165 | a call succeeds exactly when the history is non-empty, every state is `state_size` wide, `prev_action` is in range (`SimpleQNetwork`), and in training labels exist, are non-empty and, for the CEQ networks, fit the history |
| QNetworkLaws.ForwardErrors | algorithms_step/model.py:18-165 | which error a failing call returns: a mis-sized state gives `ShapeMismatch` (line 19); an empty history gives `EmptyHistory`; an out-of-range `prev_action` in `SimpleQNetwork` gives `IndexOutOfRange` (line 52); in training, otherwise, a missing `data['t']` gives `MissingField` and an empty one `EmptyHistory` |
| QNetworkLaws.ForwardShape | algorithms_step/model.py:60-62 | `out.t` is `num_treatment` wide and is the logits of the most recent state; `out.y` is `action_size` wide; `out.z` is `fc2_units * step` wide |
| QNetworkLaws.ForwardWindow | algorithms_step/model.py:44-48 | `out.z` block `j` is the encoding of state `L - step + j`, or zeros; for `L < step`, `step - L` zero rows and then all encodings in order |
| QNetworkLaws.ForwardJointInput | algorithms_step/model.py:104 | CEQ networks: the head input is `(fc2_units + num_treatment) * step` wide and begins with `out.z` |
| QNetworkLaws.ForwardPredictedBlock | algorithms_step/model.py:150-157 | evaluation: treatment block `j` of the head input is zeros or the one-hot of a largest treatment logit of state `L - step + j` |
| QNetworkLaws.ForwardLabelBlock | algorithms_step/model.py:142-157 | training, one label per state: treatment block `j` is zeros or the one-hot of label `L - step + j`, a class index |
| QNetwork.CEQ1Forward | algorithms_step/model.py:84-109 | no contract of its own: `CEQNetwork_1._forward` over the latents; `CEQ1Basics`, `CEQ1Head` and `VariantOk` carry its laws |
| QNetworkLaws.CEQ1Head | algorithms_step/model.py:104 | `CEQNetwork_1`: the values are the head `fc` on the joint input |
| Tensors.Blend | algorithms_step/model.py:161 | `t * y1 + (1 - t) * y0` entry by entry: `y0` when `t = 0`, `y1` when `t = 1` |
| QNetwork.CEQ2Forward | algorithms_step/model.py:133-166 | no contract of its own: `CEQNetwork_2._forward` over the latents; `CEQ2Basics`, `CEQ2Values` and `CEQ2Blend` carry its laws |
| QNetworkLaws.CEQ2Values | algorithms_step/model.py:142-161 | `CEQNetwork_2` over latents: the blend weight is a class index, and the values are the blend of the two heads by it |
| QNetworkLaws.CEQ2Blend | algorithms_step/model.py:148-161 | `CEQNetwork_2`: the values blend the two heads by the last label (training) or the selector's top-1 index of `out.t` (evaluation); with two classes they are exactly one head's output |
| QNetworkLaws.ShortHistoryScenario | algorithms_step/model.py:47-48 | `step = 4` and two states: `out.z` is `4 * fc2_units` wide and its first `2 * fc2_units` entries are zero |
| QNetworkLaws.OverrideScenario | algorithms_step/model.py:54-55 | `SimpleQNetwork` in training, two actions, latest label 1, `prev_action = 0`: the call succeeds and the values are `[1, 0]` |
| Batches.Batch.Forward | algorithms_step/model.py:18-52 | returns the forward call's output on the row; writes `data['z']` once every state is encoded and `data['onehot_prev_action']` once its scatter succeeds (`SimpleQNetwork`); keeps the inputs; on success `z` holds the encoded states |

## Left out

- The learned layers are opaque. Their weights, the ReLUs and all
  arithmetic inside them are not modelled; only their output widths are.
- `fc1_units`, the encoder's hidden width, is internal to the opaque
  encoder.
- Floating point: values are exact reals.
- Batches, dtypes and devices: the model is one batch row. A state or
  logits row is a `seq<real>`, and a label or `prev_action` is an `int`.
- `self.training` is the explicit `Mode` argument. Nothing toggles it.
- The commented-out Bernoulli sampling in `CEQNetwork_2` (lines 154-155) is
  not modelled, because the code does not run it.
- Configurations with `step = 0` or `num_treatment = 0` are excluded by
  `Config.Valid`. With `step = 0`, `s[-0:]` keeps the whole history and the
  pad crops it. With no treatment class, `topk(1)` has nothing to pick.
- `CEQNetwork_2` with more than two treatment classes: the blend is modelled
  literally. A weight `t >= 2` weights the heads by `t` and `1 - t`.
  `CEQ2Blend` proves exactly-one-head only for two classes.
- Which of several equal logits `topk(1)` returns is torch's choice, so it
  is not modelled. Every contract holds for any selector that picks a
  largest entry.
- `data['state']` and `data['prev_action']` are taken as present. A `Row`
  always carries them, so the `KeyError` a missing one raises (lines 19 and
  52) is not modelled. A missing `data['t']` is modelled, as `MissingField`.
- Tensors.Last: its contract gives only the length. `WindowLayout`,
  `WindowSlots` and `LabelSlotsOk` state which elements are kept.
- QNetworkLaws.ForwardLabelBlock: states the label layout only when there
  is one label per state. The general case is `LabelBlock`.
- QNetworkLaws.LabelInput: also states the label layout only for one label
  per latent.
- Training, the loss, the optimizer and the replay buffer are not part of
  this model. They are outside the forward passes.
