/** The batch dictionary `data` that `AbstractDQN.forward` and
    `SimpleQNetwork._forward` read and write in place (one row of it).

    A forward call stores the encoded history in `data['z']` before the
    variant's own pass runs, and `SimpleQNetwork` stores the one-hot of
    `prev_action` in `data['onehot_prev_action']` before it looks at the
    treatment. Both writes survive a later failure of the same call, and a
    write that is not reached leaves the entry as it was.
 */
module Batches {
  import opened Wrappers
  import opened Tensors
  import opened QNetwork
  import QNetworkLaws

  class Batch {
    var state: seq<Vec>          // data['state']
    var prevAction: int          // data['prev_action']
    var t: Option<seq<int>>      // data['t'], absent when no labels are given
    var z: Option<seq<Vec>>      // data['z'], absent until a forward call writes it
    var onehotPrevAction: Option<Vec>  // data['onehot_prev_action']

    /** A fresh dictionary holding only the inputs. */
    constructor (state: seq<Vec>, prevAction: int, t: Option<seq<int>>)
      ensures this.state == state && this.prevAction == prevAction && this.t == t
      ensures z == None && onehotPrevAction == None
    {
      this.state := state;
      this.prevAction := prevAction;
      this.t := t;
      z := None;
      onehotPrevAction := None;
    }

    /** The entries the forward passes read. */
    function Inputs(): Row
      reads this
    {
      Row(state, prevAction, t)
    }

    /** `net(data)`: the output of the network's forward pass on this row,
        which also writes `data['z']` once every state is encoded and, for
        `SimpleQNetwork`, `data['onehot_prev_action']` once the scatter of
        `prev_action` succeeds. The inputs are left as they were. */
    method Forward(net: Net, mode: Mode) returns (out: Result<Output>)
      requires net.Valid()
      modifies this
      ensures out == QNetwork.Forward(net, mode, old(Inputs()))
      ensures state == old(state) && prevAction == old(prevAction) && t == old(t)
      ensures z == if Encode(net, state).Ok? then Some(Encode(net, state).value) else old(z)
      ensures onehotPrevAction ==
        if net.SimpleQNetwork? && Encode(net, state).Ok? && |state| >= 1 && 0 <= prevAction < net.cfg.actionSize
        then Some(OneHot(net.cfg.actionSize, prevAction))
        else old(onehotPrevAction)
      ensures out.Ok? ==> z.Some? && QNetworkLaws.EncodedAs(net, state, z.value)
      ensures out.Ok? && net.SimpleQNetwork? ==>
        onehotPrevAction == Some(OneHot(net.cfg.actionSize, prevAction))
    {
      var encoded := Encode(net, state);
      if encoded.Err? {
        return Err(encoded.error);
      }
      var latents := encoded.value;
      z := Some(latents);
      if net.SimpleQNetwork? && |Logits(net, latents)| > 0 {
        var y := net.fc(Window(net, latents));
        var onehot := Scatter(|y|, prevAction);
        if onehot.Ok? {
          onehotPrevAction := Some(onehot.value);
        }
      }
      out := VariantForward(net, mode, Inputs(), latents);
      QNetworkLaws.ForwardOk(net, mode, Inputs());
    }
  }
}
