/** `GoalConditioned`: scores every available lane node as a goal for the
    target agent, picks `num_samples` goals per example (the ground-truth
    goal when pre-training, otherwise sampled), and appends each goal's node
    encoding to the example's aggregated context. The scoring head, the
    log-softmax, the sampler and the base attention aggregator are
    parameters. */
module GoalConditioned {
  import opened Wrappers
  import opened Tensors
  import Ragged
  import PgpEncoder

  /** The goal prediction head (`goal_h1`, LeakyReLU, `goal_h2`, LeakyReLU,
      `goal_op`): one score for a row of the input width its first layer
      was built for. */
  type GoalHead = Vec --> real

  /** `head` scores every row of width `width`. */
  ghost predicate Scores(head: GoalHead, width: nat)
  {
    forall v: Vec :: |v| == width ==> head.requires(v)
  }

  /** A target-agent encoding per example, a `[B][N]` grid of node encodings
      and a `[B][N]` node mask, with every concatenated row of width `width`. */
  predicate GoalInputsFit(target: seq<Vec>, nodes: seq<seq<Vec>>, masks: seq<seq<real>>, width: nat)
  {
    && |target| == |nodes| == |masks|
    && (forall b :: 0 <= b < |nodes| ==> |nodes[b]| == |masks[b]|)
    && (forall b, n :: 0 <= b < |nodes| && 0 <= n < |nodes[b]| ==> |target[b]| + |nodes[b][n]| == width)
  }

  /** Lines 120-123: the row scored for node `n` of example `b`, the target
      encoding followed by the node encoding. */
  function GoalRows(target: seq<Vec>, nodes: seq<seq<Vec>>): (r: seq<seq<Vec>>)
    requires |target| == |nodes|
    ensures |r| == |nodes| && forall b :: 0 <= b < |nodes| ==> |r[b]| == |nodes[b]|
    ensures forall b, n :: 0 <= b < |nodes| && 0 <= n < |nodes[b]| ==>
              |r[b][n]| == |target[b]| + |nodes[b][n]| &&
              r[b][n][..|target[b]|] == target[b] && r[b][n][|target[b]|..] == nodes[b][n]
  {
    seq(|nodes|, b requires 0 <= b < |nodes| =>
      seq(|nodes[b]|, n requires 0 <= n < |nodes[b]| => target[b] + nodes[b][n]))
  }

  /** `~node_masks.bool()`: the nodes that can be goals. */
  function AvailableNodes(masks: seq<seq<real>>): (r: seq<seq<bool>>)
    ensures |r| == |masks| && forall b :: 0 <= b < |masks| ==> |r[b]| == |masks[b]|
    ensures forall b, n :: 0 <= b < |masks| && 0 <= n < |masks[b]| ==> (r[b][n] <==> masks[b][n] == 0.0)
  {
    seq(|masks|, b requires 0 <= b < |masks| => ValidWhereZero(masks[b]))
  }

  /** Reference definition of `goal_ops`, the scores before the log-mask and
      the log-softmax: the head's score of node `n`'s row when the node is
      available, exactly 0 otherwise. */
  ghost function GoalScoresSpec(head: GoalHead, width: nat, target: seq<Vec>, nodes: seq<seq<Vec>>,
                                masks: seq<seq<real>>): (r: seq<seq<real>>)
    requires GoalInputsFit(target, nodes, masks, width) && Scores(head, width)
    ensures |r| == |masks| && forall b :: 0 <= b < |masks| ==> |r[b]| == |masks[b]|
    ensures forall b, n :: 0 <= b < |masks| && 0 <= n < |masks[b]| ==>
              r[b][n] == (if masks[b][n] == 0.0 then head(target[b] + nodes[b][n]) else 0.0)
  {
    seq(|masks|, b requires 0 <= b < |masks| =>
      seq(|masks[b]|, n requires 0 <= n < |masks[b]| =>
        if masks[b][n] == 0.0 then head(target[b] + nodes[b][n]) else 0.0))
  }

  /** Every row of the compacted batch has the head's input width. */
  lemma BatchedRowsFit(target: seq<Vec>, nodes: seq<seq<Vec>>, masks: seq<seq<real>>, width: nat,
                       available: seq<seq<bool>>, batched: seq<Vec>)
    requires GoalInputsFit(target, nodes, masks, width)
    requires available == AvailableNodes(masks) && batched == Ragged.Compact(available, GoalRows(target, nodes))
    ensures forall k :: 0 <= k < |batched| ==> |batched[k]| == width
  {
    forall k | 0 <= k < |batched|
      ensures |batched[k]| == width
    {
      var b, n := Ragged.RankOnto(available, k);
      Ragged.CompactAt(available, GoalRows(target, nodes), b, n);
    }
  }

  /** Scattering the batch's scores back gives the reference scores. */
  lemma ScatteredScoresAreSpec(head: GoalHead, width: nat, target: seq<Vec>, nodes: seq<seq<Vec>>,
                               masks: seq<seq<real>>, available: seq<seq<bool>>, batched: seq<Vec>,
                               batchedScores: seq<real>, scores: seq<seq<real>>)
    requires GoalInputsFit(target, nodes, masks, width) && Scores(head, width)
    requires available == AvailableNodes(masks) && batched == Ragged.Compact(available, GoalRows(target, nodes))
    requires |batchedScores| == |batched|
    requires forall k :: 0 <= k < |batched| ==> |batched[k]| == width && batchedScores[k] == head(batched[k])
    requires Ragged.Fits(available, scores)
    requires forall b, n :: 0 <= b < |available| && 0 <= n < |available[b]| && !available[b][n] ==> scores[b][n] == 0.0
    requires forall b, n :: 0 <= b < |available| && 0 <= n < |available[b]| && available[b][n] ==>
               Ragged.Rank(available, b, n) < |batchedScores| &&
               scores[b][n] == batchedScores[Ragged.Rank(available, b, n)]
    ensures scores == GoalScoresSpec(head, width, target, nodes, masks)
  {
    var spec := GoalScoresSpec(head, width, target, nodes, masks);
    forall b | 0 <= b < |masks|
      ensures scores[b] == spec[b]
    {
      forall n | 0 <= n < |masks[b]|
        ensures scores[b][n] == spec[b][n]
      {
        if available[b][n] {
          Ragged.CompactAt(available, GoalRows(target, nodes), b, n);
          assert scores[b][n] == batchedScores[Ragged.Rank(available, b, n)];
        }
      }
    }
  }

  /** Lines 114-136: the available nodes' rows are gathered in row-major
      order, scored in one batch, and the scores scattered back over zeros. */
  method GoalScores(head: GoalHead, width: nat, target: seq<Vec>, nodes: seq<seq<Vec>>, masks: seq<seq<real>>)
    returns (scores: seq<seq<real>>)
    requires GoalInputsFit(target, nodes, masks, width) && Scores(head, width)
    ensures scores == GoalScoresSpec(head, width, target, nodes, masks)
  {
    var available := AvailableNodes(masks);
    var batched := Ragged.Compact(available, GoalRows(target, nodes));
    BatchedRowsFit(target, nodes, masks, width, available, batched);
    var batchedScores := seq(|batched|, k requires 0 <= k < |batched| => head(batched[k]));
    scores := Ragged.Scatter(available, batchedScores, 0.0);
    ScatteredScoresAreSpec(head, width, target, nodes, masks, available, batched, batchedScores, scores);
  }

  /** `LogSoftmax(dim=1)` applied to `goal_ops + log(1 - node_masks)`. */
  type Normaliser = (seq<seq<real>>, seq<seq<real>>) -> seq<seq<real>>

  /** The log-softmax returns one row per example. */
  ghost predicate KeepsRows(normalise: Normaliser)
  {
    forall scores, masks :: |normalise(scores, masks)| == |scores|
  }

  /** `compute_goal_probs`. */
  method ComputeGoalProbs(head: GoalHead, width: nat, normalise: Normaliser, target: seq<Vec>,
                          nodes: seq<seq<Vec>>, masks: seq<seq<real>>) returns (goalLogProbs: seq<seq<real>>)
    requires GoalInputsFit(target, nodes, masks, width) && Scores(head, width)
    ensures goalLogProbs == normalise(GoalScoresSpec(head, width, target, nodes, masks), masks)
  {
    var scores := GoalScores(head, width, target, nodes, masks);
    goalLogProbs := normalise(scores, masks);
  }

  /** `Tensor.long()` on a float: truncation toward zero. */
  function Truncate(x: real): (r: int)
    ensures 0.0 <= x ==> r as real <= x < r as real + 1.0
    ensures x < 0.0 ==> r as real - 1.0 < x <= r as real
  {
    if 0.0 <= x then x.Floor else -((-x).Floor)
  }

  /** Lines 76-83: every one of the `numSamples` goals of example `b` is the
      last node of its ground-truth sequence, truncated, minus `maxNodes`. */
  function PretrainGoals(nodeSeqGt: seq<seq<real>>, maxNodes: nat, numSamples: nat): (goals: seq<seq<int>>)
    requires forall b :: 0 <= b < |nodeSeqGt| ==> |nodeSeqGt[b]| > 0
    ensures |goals| == |nodeSeqGt| && forall b :: 0 <= b < |goals| ==> |goals[b]| == numSamples
  {
    seq(|nodeSeqGt|, b requires 0 <= b < |nodeSeqGt| =>
      seq(numSamples, _ => Truncate(nodeSeqGt[b][|nodeSeqGt[b]| - 1]) - maxNodes))
  }

  /** The ground-truth sequences end on a node shifted by `maxNodes`. */
  predicate GroundTruthEndsOnNode(nodeSeqGt: seq<seq<real>>, maxNodes: nat)
  {
    forall b :: 0 <= b < |nodeSeqGt| ==>
      |nodeSeqGt[b]| > 0 &&
      maxNodes <= Truncate(nodeSeqGt[b][|nodeSeqGt[b]| - 1]) < 2 * maxNodes
  }

  /** All samples of an example are the same goal, that goal is a node index,
      and it is the one the last ground-truth entry names. */
  lemma PretrainGoalsAreGroundTruth(nodeSeqGt: seq<seq<real>>, maxNodes: nat, numSamples: nat, b: nat, s: nat, s': nat)
    requires GroundTruthEndsOnNode(nodeSeqGt, maxNodes)
    requires b < |nodeSeqGt| && s < numSamples && s' < numSamples
    ensures PretrainGoals(nodeSeqGt, maxNodes, numSamples)[b][s] == PretrainGoals(nodeSeqGt, maxNodes, numSamples)[b][s']
    ensures 0 <= PretrainGoals(nodeSeqGt, maxNodes, numSamples)[b][s] < maxNodes
    ensures (PretrainGoals(nodeSeqGt, maxNodes, numSamples)[b][s] + maxNodes) as real <= nodeSeqGt[b][|nodeSeqGt[b]| - 1]
              < (PretrainGoals(nodeSeqGt, maxNodes, numSamples)[b][s] + maxNodes + 1) as real
  {
  }

  /** `Categorical(exp(goal_log_probs)).sample()` for `numSamples` samples. */
  type Sampler = (seq<seq<real>>, nat) -> seq<seq<int>>

  /** The sampler draws, for each example of `logProbs`, `numSamples`
      indices of nodes. */
  predicate DrawsNodes(sample: Sampler, logProbs: seq<seq<real>>, numSamples: nat, maxNodes: nat)
  {
    && |sample(logProbs, numSamples)| == |logProbs|
    && forall b :: 0 <= b < |logProbs| ==>
         && |sample(logProbs, numSamples)[b]| == numSamples
         && forall s :: 0 <= s < numSamples ==> 0 <= sample(logProbs, numSamples)[b][s] < maxNodes
  }

  /** The ground-truth sequences the pre-training branch reads: absent when
      the encoder was given no graph-traversal inputs. */
  function NodeSeqGt(encodings: PgpEncoder.Encodings): (r: Option<seq<seq<real>>>)
    ensures r.Some? <==> encodings.traversal.Some?
    ensures r.Some? ==> r.value == encodings.traversal.value.nodeSeqGt
  {
    if encodings.traversal.Some? then Some(encodings.traversal.value.nodeSeqGt) else None
  }

  /** Lines 75-88: ground-truth goals exactly when pre-training and in
      training mode, sampled goals otherwise. Reading the ground truth fails
      when it is absent or its sequences are empty. */
  function SelectGoals(preTrain: bool, training: bool, nodeSeqGt: Option<seq<seq<real>>>, maxNodes: nat,
                       numSamples: nat, goalLogProbs: seq<seq<real>>, sample: Sampler): (r: Result<seq<seq<int>>, string>)
    ensures r.Failure? <==> preTrain && training &&
                            (nodeSeqGt.None? || exists b :: 0 <= b < |nodeSeqGt.value| && |nodeSeqGt.value[b]| == 0)
    ensures r.Success? && preTrain && training ==> r.value == PretrainGoals(nodeSeqGt.value, maxNodes, numSamples)
    ensures r.Success? && !(preTrain && training) ==> r.value == sample(goalLogProbs, numSamples)
  {
    if preTrain && training then
      match nodeSeqGt
      case None => Failure("node_seq_gt")
      case Some(gt) =>
        if exists b :: 0 <= b < |gt| && |gt[b]| == 0 then Failure("index -1 is out of bounds")
        else Success(PretrainGoals(gt, maxNodes, numSamples))
    else Success(sample(goalLogProbs, numSamples))
  }

  /** Lines 93-99: each example's context repeated once per goal, followed by
      the encoding of the goal node, so that a row is as wide as the context
      and the node encoding together. */
  function GoalConditionedEncoding(context: seq<Vec>, nodes: seq<seq<Vec>>, goals: seq<seq<int>>): (r: seq<seq<Vec>>)
    requires |context| == |nodes| == |goals|
    requires forall b, s :: 0 <= b < |goals| && 0 <= s < |goals[b]| ==> 0 <= goals[b][s] < |nodes[b]|
    ensures |r| == |goals| && forall b :: 0 <= b < |goals| ==> |r[b]| == |goals[b]|
    ensures forall b, s :: 0 <= b < |goals| && 0 <= s < |goals[b]| ==>
              |r[b][s]| == |context[b]| + |nodes[b][goals[b][s]]| &&
              r[b][s][..|context[b]|] == context[b] &&
              r[b][s][|context[b]|..] == nodes[b][goals[b][s]]
  {
    seq(|goals|, b requires 0 <= b < |goals| =>
      seq(|goals[b]|, s requires 0 <= s < |goals[b]| => context[b] + nodes[b][goals[b][s]]))
  }

  /** The aggregator's configuration and learned parts. */
  datatype Aggregator = Aggregator(
    preTrain: bool,
    training: bool,
    numSamples: nat,
    /** Input width of `goal_h1`: `context_enc_size + target_agent_enc_size`. */
    width: nat,
    head: GoalHead,
    normalise: Normaliser,
    sample: Sampler,
    /** `GlobalAttention.forward`: one context vector per example. */
    aggregate: PgpEncoder.Encodings -> seq<Vec>)

  /** The aggregator's outputs. */
  datatype Outputs = Outputs(aggEncoding: seq<seq<Vec>>, goalLogProbs: seq<seq<real>>)

  /** `max_nodes`, the node axis of the node masks. */
  function MaxNodes(masks: seq<seq<real>>): (n: nat)
    ensures |masks| > 0 ==> n == |masks[0]|
    ensures |masks| == 0 ==> n == 0
  {
    if |masks| == 0 then 0 else |masks[0]|
  }

  /** What `forward` demands: encodings of matching shapes with as many nodes
      in every example, a head for the concatenated width, a base aggregator
      with one context per example, a sampler that draws node indices from
      the log-probabilities when goals are sampled, and ground-truth
      sequences ending on a shifted node index when they are read. An empty
      batch meets all of these. */
  ghost predicate Ready(agg: Aggregator, encodings: PgpEncoder.Encodings)
  {
    var masks := encodings.combinedMasks;
    && GoalInputsFit(encodings.targetAgentEncoding, encodings.combined, masks, agg.width)
    && (forall b :: 0 <= b < |masks| ==> |masks[b]| == MaxNodes(masks))
    && Scores(agg.head, agg.width)
    && |agg.aggregate(encodings)| == |masks|
    && KeepsRows(agg.normalise)
    && (!(agg.preTrain && agg.training) ==>
          DrawsNodes(agg.sample, agg.normalise(GoalScoresSpec(agg.head, agg.width, encodings.targetAgentEncoding,
                                                              encodings.combined, masks), masks),
                     agg.numSamples, MaxNodes(masks)))
    && (agg.preTrain && agg.training && NodeSeqGt(encodings).Some? &&
        (forall b :: 0 <= b < |NodeSeqGt(encodings).value| ==> |NodeSeqGt(encodings).value[b]| > 0) ==>
          |NodeSeqGt(encodings).value| == |masks| &&
          GroundTruthEndsOnNode(NodeSeqGt(encodings).value, MaxNodes(masks)))
  }

  /** The encodings the PGP encoder returns have the shapes the aggregator
      demands, for a goal head built for the target-agent and node widths
      together: one target encoding and one mask row per example, and the
      same number of nodes in every example. */
  lemma EncoderFeedsAggregator(encodings: PgpEncoder.Encodings, targetSize: nat, nodeSize: nat, maxNodes: nat)
    requires PgpEncoder.EncodingsShaped(encodings, targetSize, nodeSize, maxNodes)
    ensures GoalInputsFit(encodings.targetAgentEncoding, encodings.combined, encodings.combinedMasks, targetSize + nodeSize)
    ensures forall b :: 0 <= b < |encodings.combinedMasks| ==>
              |encodings.combinedMasks[b]| == MaxNodes(encodings.combinedMasks) == maxNodes
  {
    if |encodings.combinedMasks| > 0 {
      assert |encodings.combinedMasks[0]| == maxNodes;
    }
  }

  /** An empty batch is accepted in either mode, for every aggregator whose
      head, normaliser, base aggregator and sampler behave as `forward`
      demands, and for any number of samples: `forward` then returns empty
      outputs. */
  lemma EmptyBatchIsReady(agg: Aggregator, traversal: Option<PgpEncoder.Traversal>)
    requires Scores(agg.head, agg.width) && KeepsRows(agg.normalise)
    requires agg.aggregate(PgpEncoder.Encodings([], [], [], traversal)) == []
    requires !(agg.preTrain && agg.training) ==> agg.sample([], agg.numSamples) == []
    requires traversal.Some? ==> traversal.value.nodeSeqGt == []
    ensures Ready(agg, PgpEncoder.Encodings([], [], [], traversal))
  {
    var logProbs := agg.normalise(GoalScoresSpec(agg.head, agg.width, [], [], []), []);
    assert logProbs == [];
  }

  /** `GoalConditioned.forward`. */
  method Forward(agg: Aggregator, encodings: PgpEncoder.Encodings) returns (r: Result<Outputs, string>)
    requires Ready(agg, encodings)
    ensures r.Failure? <==> SelectGoals(agg.preTrain, agg.training, NodeSeqGt(encodings),
                                        MaxNodes(encodings.combinedMasks), agg.numSamples,
                                        agg.normalise(GoalScoresSpec(agg.head, agg.width, encodings.targetAgentEncoding,
                                                                     encodings.combined, encodings.combinedMasks),
                                                      encodings.combinedMasks),
                                        agg.sample).Failure?
    ensures r.Success? ==>
              var goalLogProbs := agg.normalise(GoalScoresSpec(agg.head, agg.width, encodings.targetAgentEncoding,
                                                               encodings.combined, encodings.combinedMasks),
                                                encodings.combinedMasks);
              var goals := SelectGoals(agg.preTrain, agg.training, NodeSeqGt(encodings),
                                       MaxNodes(encodings.combinedMasks), agg.numSamples, goalLogProbs, agg.sample);
              && r.value.goalLogProbs == goalLogProbs
              && goals.Success?
              && |goals.value| == |encodings.combinedMasks|
              && (forall b, s :: 0 <= b < |goals.value| && 0 <= s < |goals.value[b]| ==>
                    0 <= goals.value[b][s] < MaxNodes(encodings.combinedMasks))
              && r.value.aggEncoding == GoalConditionedEncoding(agg.aggregate(encodings), encodings.combined, goals.value)
  {
    var target, nodes, masks := encodings.targetAgentEncoding, encodings.combined, encodings.combinedMasks;
    var goalLogProbs := ComputeGoalProbs(agg.head, agg.width, agg.normalise, target, nodes, masks);
    var maxNodes := MaxNodes(masks);
    var goals := SelectGoals(agg.preTrain, agg.training, NodeSeqGt(encodings), maxNodes, agg.numSamples,
                             goalLogProbs, agg.sample);
    if goals.Failure? {
      return Failure(goals.error);
    }
    if agg.preTrain && agg.training {
      var gt := NodeSeqGt(encodings).value;
      forall b, s | 0 <= b < |goals.value| && 0 <= s < |goals.value[b]|
        ensures 0 <= goals.value[b][s] < maxNodes
      {
        PretrainGoalsAreGroundTruth(gt, maxNodes, agg.numSamples, b, s, s);
      }
    }
    var context := agg.aggregate(encodings);
    r := Success(Outputs(GoalConditionedEncoding(context, nodes, goals.value), goalLogProbs));
  }
}
