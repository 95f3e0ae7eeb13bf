/** `PGPEncoder.forward`: the bookkeeping around the learned layers of the
    PGP encoder. The learned layers (embeddings, GRUs, attention, the 1x1 mix)
    are parameters; what is modelled is which data each of them sees and how
    their outputs are combined. */
module PgpEncoder {
  import opened Wrappers
  import opened Tensors
  import Adjacency
  import SequenceEncoder

  /** Value of the channel appended to every vehicle feature step. */
  const VehicleFlag: real := 0.0
  /** Value of the channel appended to every pedestrian feature step. */
  const PedestrianFlag: real := 1.0

  /** Appends the agent-type channel to every step of every agent
      (`torch.cat((x, zeros_like/ones_like(x[..., 0:1])), dim=-1)`). */
  function AppendTypeFlag(feats: seq<seq<Series>>, flag: real): (r: seq<seq<Series>>)
    ensures |r| == |feats| && forall b :: 0 <= b < |feats| ==> |r[b]| == |feats[b]|
    ensures forall b, n :: 0 <= b < |feats| && 0 <= n < |feats[b]| ==> |r[b][n]| == |feats[b][n]|
    ensures forall b, n, t :: 0 <= b < |feats| && 0 <= n < |feats[b]| && 0 <= t < |feats[b][n]| ==>
              |r[b][n][t]| == |feats[b][n][t]| + 1 &&
              r[b][n][t][..|feats[b][n][t]|] == feats[b][n][t] &&
              r[b][n][t][|feats[b][n][t]|] == flag
  {
    seq(|feats|, b requires 0 <= b < |feats| =>
      seq(|feats[b]|, n requires 0 <= n < |feats[b]| =>
        seq(|feats[b][n]|, t requires 0 <= t < |feats[b][n]| => feats[b][n][t] + [flag])))
  }

  /** The shared neighbour embedding can always tell a vehicle step from a
      pedestrian step: their last channels differ, whatever the features. */
  lemma TypeFlagSeparates(vehicles: seq<seq<Series>>, pedestrians: seq<seq<Series>>,
                          b: nat, n: nat, t: nat, b': nat, n': nat, t': nat)
    requires b < |vehicles| && n < |vehicles[b]| && t < |vehicles[b][n]|
    requires b' < |pedestrians| && n' < |pedestrians[b']| && t' < |pedestrians[b'][n']|
    ensures AppendTypeFlag(vehicles, VehicleFlag)[b][n][t] != AppendTypeFlag(pedestrians, PedestrianFlag)[b'][n'][t']
  {
    var v, p := AppendTypeFlag(vehicles, VehicleFlag)[b][n][t], AppendTypeFlag(pedestrians, PedestrianFlag)[b'][n'][t'];
    if |v| == |p| {
      assert v[|v| - 1] != p[|p| - 1];
    }
  }

  /** A per-step layer (a linear layer followed by LeakyReLU) applied to
      every step of every entity. */
  function Embed(emb: Vec -> Vec, feats: seq<seq<Series>>): (r: seq<seq<Series>>)
    ensures |r| == |feats| && forall b :: 0 <= b < |feats| ==> |r[b]| == |feats[b]|
    ensures forall b, n :: 0 <= b < |feats| && 0 <= n < |feats[b]| ==> |r[b][n]| == |feats[b][n]|
  {
    seq(|feats|, b requires 0 <= b < |feats| =>
      seq(|feats[b]|, n requires 0 <= n < |feats[b]| =>
        seq(|feats[b][n]|, t requires 0 <= t < |feats[b][n]| => emb(feats[b][n][t]))))
  }

  /** Concatenation along the agent axis of two `[B][A][H]` encodings
      (`torch.cat((nbr_vehicle_enc, nbr_ped_enc), dim=1)`). */
  function ConcatAgents<T>(vehicles: seq<seq<T>>, pedestrians: seq<seq<T>>): (r: seq<seq<T>>)
    requires |vehicles| == |pedestrians|
    ensures |r| == |vehicles|
    ensures forall b :: 0 <= b < |r| ==> |r[b]| == |vehicles[b]| + |pedestrians[b]|
    ensures forall b, j :: 0 <= b < |r| && 0 <= j < |vehicles[b]| ==> r[b][j] == vehicles[b][j]
    ensures forall b, j :: 0 <= b < |r| && |vehicles[b]| <= j < |r[b]| ==> r[b][j] == pedestrians[b][j - |vehicles[b]|]
  {
    seq(|vehicles|, b requires 0 <= b < |vehicles| => vehicles[b] + pedestrians[b])
  }

  /** Concatenation along the last axis of two `[B][N][A]` agent-node masks
      (`torch.cat((masks["vehicles"], masks["pedestrians"]), dim=2)`). */
  function ConcatAgentColumns<T>(vehicles: seq<seq<seq<T>>>, pedestrians: seq<seq<seq<T>>>): (r: seq<seq<seq<T>>>)
    requires |vehicles| == |pedestrians| && forall b :: 0 <= b < |vehicles| ==> |vehicles[b]| == |pedestrians[b]|
    ensures |r| == |vehicles| && forall b :: 0 <= b < |r| ==> |r[b]| == |vehicles[b]|
    ensures forall b, n :: 0 <= b < |r| && 0 <= n < |r[b]| ==> r[b][n] == vehicles[b][n] + pedestrians[b][n]
  {
    seq(|vehicles|, b requires 0 <= b < |vehicles| => ConcatAgents(vehicles[b], pedestrians[b]))
  }

  /** The agent-node attention mask and the neighbour encodings are
      concatenated in the same order, vehicles then pedestrians: column `j`
      of a node's mask row and row `j` of the neighbour encodings describe
      the same agent. */
  lemma MaskColumnsMatchAgents<M, V>(vehicleMasks: seq<seq<seq<M>>>, pedestrianMasks: seq<seq<seq<M>>>,
                                     vehicleEnc: seq<seq<V>>, pedestrianEnc: seq<seq<V>>, b: nat, n: nat, j: nat)
    requires |vehicleMasks| == |pedestrianMasks| == |vehicleEnc| == |pedestrianEnc|
    requires forall b' :: 0 <= b' < |vehicleMasks| ==> |vehicleMasks[b']| == |pedestrianMasks[b']|
    requires b < |vehicleMasks| && n < |vehicleMasks[b]|
    requires |vehicleMasks[b][n]| == |vehicleEnc[b]| && |pedestrianMasks[b][n]| == |pedestrianEnc[b]|
    requires j < |vehicleEnc[b]| + |pedestrianEnc[b]|
    ensures |ConcatAgentColumns(vehicleMasks, pedestrianMasks)[b][n]| == |ConcatAgents(vehicleEnc, pedestrianEnc)[b]|
    ensures j < |vehicleEnc[b]| ==>
              ConcatAgentColumns(vehicleMasks, pedestrianMasks)[b][n][j] == vehicleMasks[b][n][j] &&
              ConcatAgents(vehicleEnc, pedestrianEnc)[b][j] == vehicleEnc[b][j]
    ensures |vehicleEnc[b]| <= j ==>
              ConcatAgentColumns(vehicleMasks, pedestrianMasks)[b][n][j] == pedestrianMasks[b][n][j - |vehicleEnc[b]|] &&
              ConcatAgents(vehicleEnc, pedestrianEnc)[b][j] == pedestrianEnc[b][j - |vehicleEnc[b]|]
  {
  }

  /** One GAT layer's attention (query/key/value embeddings and multi-head
      attention) over node encodings, given the attention mask that blocks
      a pair of nodes when true. */
  type GraphAttention = (seq<seq<Vec>>, seq<seq<seq<bool>>>) -> seq<seq<Vec>>

  /** The attention returns one encoding of the same width per node. */
  ghost predicate KeepsShape(att: GraphAttention)
  {
    forall x, mask :: SameShape3(x, att(x, mask))
  }

  /** `~adj_mat`: a GAT layer blocks exactly the pairs that are not adjacent. */
  function Complement(adj: seq<seq<seq<bool>>>): (r: seq<seq<seq<bool>>>)
    ensures |r| == |adj| && forall b :: 0 <= b < |adj| ==> |r[b]| == |adj[b]|
    ensures forall b, i :: 0 <= b < |adj| && 0 <= i < |adj[b]| ==> |r[b][i]| == |adj[b][i]|
    ensures forall b, i, j :: 0 <= b < |adj| && 0 <= i < |adj[b]| && 0 <= j < |adj[b][i]| ==> r[b][i][j] != adj[b][i][j]
  {
    seq(|adj|, b requires 0 <= b < |adj| =>
      seq(|adj[b]|, i requires 0 <= i < |adj[b]| =>
        seq(|adj[b][i]|, j requires 0 <= j < |adj[b][i]| => !adj[b][i][j])))
  }

  /** `GAT.forward(node_encodings, adj_mat)`. */
  function GatLayer(att: GraphAttention, x: seq<seq<Vec>>, adj: seq<seq<seq<bool>>>): (r: seq<seq<Vec>>)
    requires KeepsShape(att)
    ensures SameShape3(x, r)
  {
    att(x, Complement(adj))
  }

  /** With the matrix `build_adj_mat` builds, every GAT layer lets each node
      attend to itself, and blocks two distinct nodes from each other exactly
      when neither has a typed edge to the other in a slot other than its
      last. */
  lemma GatMaskBlocksNonNeighbours(sNext: Adjacency.Table, edgeType: Adjacency.Table, B: nat, N: nat, E: nat,
                                   b: nat, i: nat, j: nat)
    requires Adjacency.Shaped(sNext, B, N, E) && Adjacency.Shaped(edgeType, B, N, E)
    requires b < B && i < N && j < N
    ensures Complement(Adjacency.AdjacencyOf(Adjacency.WithDummies(sNext, edgeType)))[b][i][j] <==>
              i != j && !Adjacency.TypedEdge(sNext, edgeType, b, i, j) && !Adjacency.TypedEdge(sNext, edgeType, b, j, i)
  {
    var s := Adjacency.WithDummies(sNext, edgeType);
    if i == j {
      Adjacency.AdjacentReflexive(s, b, i);
    } else {
      Adjacency.AdjacentIffTypedEdge(sNext, edgeType, B, N, E, b, i, j);
    }
  }

  /** The node encodings after the residual updates
      `x += gat_layer(x, adj_mat)` of every layer of `layers`, in order. */
  function GatStack(layers: seq<GraphAttention>, x: seq<seq<Vec>>, adj: seq<seq<seq<bool>>>): (r: seq<seq<Vec>>)
    requires forall i :: 0 <= i < |layers| ==> KeepsShape(layers[i])
    ensures SameShape3(r, x)
    decreases |layers|
  {
    if |layers| == 0 then x
    else GatStack(layers[1..], Add3(x, GatLayer(layers[0], x, adj)), adj)
  }

  /** Running the layers of `first + second` is running `first`, then
      `second` on its result. */
  lemma {:induction false} GatStackAppend(first: seq<GraphAttention>, second: seq<GraphAttention>,
                                          x: seq<seq<Vec>>, adj: seq<seq<seq<bool>>>)
    requires forall i :: 0 <= i < |first| ==> KeepsShape(first[i])
    requires forall i :: 0 <= i < |second| ==> KeepsShape(second[i])
    ensures forall i :: 0 <= i < |first + second| ==> KeepsShape((first + second)[i])
    ensures GatStack(first + second, x, adj) == GatStack(second, GatStack(first, x, adj), adj)
    decreases |first|
  {
    if |first| == 0 {
      assert first + second == second;
    } else {
      assert (first + second)[1..] == first[1..] + second;
      GatStackAppend(first[1..], second, Add3(x, GatLayer(first[0], x, adj)), adj);
    }
  }

  /** Lines 171-172: the residual loop over the GAT layers. */
  method ApplyGatLayers(layers: seq<GraphAttention>, x: seq<seq<Vec>>, adj: seq<seq<seq<bool>>>)
    returns (r: seq<seq<Vec>>)
    requires forall i :: 0 <= i < |layers| ==> KeepsShape(layers[i])
    ensures r == GatStack(layers, x, adj)
  {
    r := x;
    var i := 0;
    while i < |layers|
      invariant 0 <= i <= |layers|
      invariant GatStack(layers[i..], r, adj) == GatStack(layers, x, adj)
    {
      assert layers[i..][1..] == layers[i + 1..];
      r := Add3(r, GatLayer(layers[i], r, adj));
      i := i + 1;
    }
  }

  /** Lines 175-178: a node's mask is 0.0 when at least one of its poses is
      valid (channel 0 equal to 0) and 1.0 otherwise. */
  function CollapseNodeMasks(masks: seq<seq<Series>>): (r: seq<seq<real>>)
    requires HasChannel0(masks)
    ensures |r| == |masks| && forall b :: 0 <= b < |masks| ==> |r[b]| == |masks[b]|
    ensures forall b, n :: 0 <= b < |masks| && 0 <= n < |masks[b]| ==>
              (r[b][n] == 0.0 <==> exists t :: 0 <= t < |masks[b][n]| && masks[b][n][t][0] == 0.0)
    ensures forall b, n :: 0 <= b < |masks| && 0 <= n < |masks[b]| ==> r[b][n] == 0.0 || r[b][n] == 1.0
  {
    var m0 := Channel0(masks);
    seq(|masks|, b requires 0 <= b < |masks| =>
      seq(|masks[b]|, n requires 0 <= n < |masks[b]| =>
        if AnyTrue(ValidWhereZero(m0[b][n])) then 0.0 else 1.0))
  }

  /** The collapsed mask marks as available (0.0) exactly the nodes that the
      node GRU encodes, and every other node's GRU encoding is zero. */
  lemma CombinedMaskMatchesEncoding(feats: seq<seq<Series>>, masks: seq<seq<Series>>, hidden: nat,
                                    summarise: SequenceEncoder.Summariser, b: nat, n: nat)
    requires SequenceEncoder.MasksFit(feats, masks) && SequenceEncoder.Summarises(summarise, hidden)
    requires b < |masks| && n < |masks[b]|
    ensures CollapseNodeMasks(masks)[b][n] == 0.0 <==> SequenceEncoder.ValidEntities(Channel0(masks))[b][n]
    ensures CollapseNodeMasks(masks)[b][n] == 1.0 ==>
              SequenceEncoder.GruEncodingSpec(feats, Channel0(masks), hidden, summarise)[b][n] == Zeros(hidden)
  {
    var m0 := Channel0(masks);
    if CollapseNodeMasks(masks)[b][n] == 0.0 {
      var t :| 0 <= t < |masks[b][n]| && masks[b][n][t][0] == 0.0;
      assert ValidWhereZero(m0[b][n])[t];
    }
  }

  /** The learned layers of the encoder. */
  datatype EncoderLayers = EncoderLayers(
    /** `target_agent_emb`, LeakyReLU and `target_agent_enc`: the final hidden
        state of the GRU over the whole target-agent history, of hidden size
        `targetAgentEncSize`. */
    targetAgentEncoder: Series -> Vec,
    targetAgentEncSize: nat,
    /** `node_emb` followed by LeakyReLU, per pose. */
    nodeEmb: Vec -> Vec,
    /** `node_encoder`, of hidden size `nodeEncSize`. */
    nodeGru: SequenceEncoder.Summariser,
    nodeEncSize: nat,
    /** `nbr_emb` followed by LeakyReLU, per step, shared by both agent types. */
    nbrEmb: Vec -> Vec,
    /** `nbr_enc`, of hidden size `nbrEncSize`, shared by both agent types. */
    nbrGru: SequenceEncoder.Summariser,
    nbrEncSize: nat,
    /** Agent-node attention and the mix layer (lines 148-164): node encodings,
        neighbour encodings and the agent-node mask to new node encodings, of
        the shape of the node encodings (the mix projects back to
        `node_enc_size`). */
    agentNodeAttention: (seq<seq<Vec>>, seq<seq<Vec>>, seq<seq<seq<bool>>>) -> seq<seq<Vec>>,
    /** The attention of each GAT layer, in order. */
    gat: seq<GraphAttention>)

  /** The encoder's inputs. `initNode` and `nodeSeqGt` are the optional
      graph-traversal entries. */
  datatype EncoderInputs = EncoderInputs(
    targetAgent: seq<Series>,
    laneNodeFeats: seq<seq<Series>>,
    laneNodeMasks: seq<seq<Series>>,
    sNext: array3<int>,
    edgeType: Adjacency.Table,
    vehicles: seq<seq<Series>>,
    vehicleMasks: seq<seq<Series>>,
    pedestrians: seq<seq<Series>>,
    pedestrianMasks: seq<seq<Series>>,
    vehicleNodeMasks: seq<seq<seq<bool>>>,
    pedestrianNodeMasks: seq<seq<seq<bool>>>,
    initNode: Option<seq<seq<real>>>,
    nodeSeqGt: Option<seq<seq<real>>>)

  /** The graph-traversal entries passed on to the aggregator. `sNext` is the
      caller's table itself, as rewritten by `build_adj_mat`. */
  datatype Traversal = Traversal(
    initNode: seq<seq<real>>,
    nodeSeqGt: seq<seq<real>>,
    sNext: array3<int>,
    edgeType: Adjacency.Table)

  /** The encoder's outputs. The `map`, `vehicles`, `pedestrians` and their
      masks entries of the context encoding are always `None` and are not
      represented. */
  datatype Encodings = Encodings(
    targetAgentEncoding: seq<Vec>,
    combined: seq<seq<Vec>>,
    combinedMasks: seq<seq<real>>,
    traversal: Option<Traversal>)

  /** What `forward` demands of its learned layers: the GRUs accept every
      non-empty sequence and return their hidden size, and each GAT
      attention keeps the shape of the node encodings. */
  ghost predicate LayersReady(layers: EncoderLayers)
  {
    && SequenceEncoder.Summarises(layers.nodeGru, layers.nodeEncSize)
    && SequenceEncoder.Summarises(layers.nbrGru, layers.nbrEncSize)
    && (forall i :: 0 <= i < |layers.gat| ==> KeepsShape(layers.gat[i]))
  }

  /** The widths of the encoder's outputs: the target-agent GRU returns its
      hidden size, and the agent-node attention with the mix layer returns
      node encodings of the shape of its input node encodings (the mix
      projects back to `node_enc_size`). */
  ghost predicate LayerWidths(layers: EncoderLayers)
  {
    && (forall history :: |layers.targetAgentEncoder(history)| == layers.targetAgentEncSize)
    && (forall x, nbrs, mask :: SameShape3(x, layers.agentNodeAttention(x, nbrs, mask)))
  }

  /** One batch size throughout the inputs, and the lane nodes laid out as
      the batch and node axes of `s_next`. */
  predicate BatchAligned(inputs: EncoderInputs)
  {
    && |inputs.targetAgent| == |inputs.laneNodeMasks| == |inputs.vehicles| == |inputs.vehicleNodeMasks|
    && inputs.sNext.Length0 == |inputs.laneNodeMasks|
    && (forall b :: 0 <= b < |inputs.laneNodeMasks| ==> |inputs.laneNodeMasks[b]| == inputs.sNext.Length1)
  }

  /** What `forward` demands of the node and agent inputs: features and masks
      of matching shapes, 0/1 masks, and as many examples of vehicles as of
      pedestrians, with agent-node masks of matching shapes. */
  predicate FeaturesReady(inputs: EncoderInputs)
  {
    && SequenceEncoder.MasksFit(inputs.laneNodeFeats, inputs.laneNodeMasks)
    && SequenceEncoder.BinaryMasks(Channel0(inputs.laneNodeMasks))
    && SequenceEncoder.MasksFit(inputs.vehicles, inputs.vehicleMasks)
    && SequenceEncoder.BinaryMasks(Channel0(inputs.vehicleMasks))
    && SequenceEncoder.MasksFit(inputs.pedestrians, inputs.pedestrianMasks)
    && SequenceEncoder.BinaryMasks(Channel0(inputs.pedestrianMasks))
    && |inputs.vehicles| == |inputs.pedestrians|
    && |inputs.vehicleNodeMasks| == |inputs.pedestrianNodeMasks|
    && (forall b :: 0 <= b < |inputs.vehicleNodeMasks| ==> |inputs.vehicleNodeMasks[b]| == |inputs.pedestrianNodeMasks[b]|)
  }

  /** `x` holds one `h`-wide vector per entity of the `[B][N]` grid of `masks`. */
  predicate NodeShaped(x: seq<seq<Vec>>, masks: seq<seq<Series>>, h: nat)
  {
    && |x| == |masks|
    && (forall b :: 0 <= b < |masks| ==> |x[b]| == |masks[b]|)
    && (forall b, n :: 0 <= b < |x| && 0 <= n < |x[b]| ==> |x[b][n]| == h)
  }

  /** The encodings of a batch of entities: each step embedded, then
      `variable_size_gru_encode`. */
  ghost function EntityEncodings(emb: Vec -> Vec, feats: seq<seq<Series>>, masks: seq<seq<Series>>,
                                 hidden: nat, summarise: SequenceEncoder.Summariser): (r: seq<seq<Vec>>)
    requires SequenceEncoder.MasksFit(feats, masks) && SequenceEncoder.Summarises(summarise, hidden)
    ensures NodeShaped(r, masks, hidden)
  {
    SequenceEncoder.GruEncodingSpec(Embed(emb, feats), Channel0(masks), hidden, summarise)
  }

  /** Lines 117-139: embeds every step, then encodes the entities. */
  method EncodeEntities(emb: Vec -> Vec, feats: seq<seq<Series>>, masks: seq<seq<Series>>,
                        hidden: nat, summarise: SequenceEncoder.Summariser) returns (r: seq<seq<Vec>>)
    requires SequenceEncoder.MasksFit(feats, masks) && SequenceEncoder.Summarises(summarise, hidden)
    requires SequenceEncoder.BinaryMasks(Channel0(masks))
    ensures r == EntityEncodings(emb, feats, masks, hidden, summarise)
  {
    r := SequenceEncoder.VariableSizeGruEncode(Embed(emb, feats), masks, hidden, summarise);
  }

  /** The lane-node encodings that enter the GAT layers: the node GRU
      encodings fused with the neighbour encodings by agent-node attention,
      under the agent-node mask. */
  ghost function FusedNodeEncodings(layers: EncoderLayers, inputs: EncoderInputs): (r: seq<seq<Vec>>)
    requires LayersReady(layers) && FeaturesReady(inputs)
  {
    var nodes := EntityEncodings(layers.nodeEmb, inputs.laneNodeFeats, inputs.laneNodeMasks,
                                 layers.nodeEncSize, layers.nodeGru);
    var vehicles := EntityEncodings(layers.nbrEmb, AppendTypeFlag(inputs.vehicles, VehicleFlag),
                                    inputs.vehicleMasks, layers.nbrEncSize, layers.nbrGru);
    var pedestrians := EntityEncodings(layers.nbrEmb, AppendTypeFlag(inputs.pedestrians, PedestrianFlag),
                                       inputs.pedestrianMasks, layers.nbrEncSize, layers.nbrGru);
    layers.agentNodeAttention(nodes, ConcatAgents(vehicles, pedestrians),
                              ConcatAgentColumns(inputs.vehicleNodeMasks, inputs.pedestrianNodeMasks))
  }

  /** A tensor of the shape of a node-shaped tensor is node-shaped. */
  lemma SameShapeIsNodeShaped(x: seq<seq<Vec>>, y: seq<seq<Vec>>, masks: seq<seq<Series>>, h: nat)
    requires NodeShaped(x, masks, h) && SameShape3(x, y)
    ensures NodeShaped(y, masks, h)
  {
  }

  /** The fused node encodings hold one `node_enc_size`-wide vector per lane
      node. */
  lemma FusedNodeShape(layers: EncoderLayers, inputs: EncoderInputs)
    requires LayersReady(layers) && FeaturesReady(inputs) && LayerWidths(layers)
    ensures NodeShaped(FusedNodeEncodings(layers, inputs), inputs.laneNodeMasks, layers.nodeEncSize)
  {
    var nodes := EntityEncodings(layers.nodeEmb, inputs.laneNodeFeats, inputs.laneNodeMasks,
                                 layers.nodeEncSize, layers.nodeGru);
    var fused := FusedNodeEncodings(layers, inputs);
    assert SameShape3(nodes, fused);
    SameShapeIsNodeShaped(nodes, fused, inputs.laneNodeMasks, layers.nodeEncSize);
  }

  /** Lines 109-164: target-independent part of the node encodings, up to
      the GAT layers. */
  method FuseNodeEncodings(layers: EncoderLayers, inputs: EncoderInputs) returns (fused: seq<seq<Vec>>)
    requires LayersReady(layers) && FeaturesReady(inputs)
    ensures fused == FusedNodeEncodings(layers, inputs)
  {
    var nodeEnc := EncodeEntities(layers.nodeEmb, inputs.laneNodeFeats, inputs.laneNodeMasks,
                                  layers.nodeEncSize, layers.nodeGru);
    var vehicleEnc := EncodeEntities(layers.nbrEmb, AppendTypeFlag(inputs.vehicles, VehicleFlag),
                                     inputs.vehicleMasks, layers.nbrEncSize, layers.nbrGru);
    var pedestrianEnc := EncodeEntities(layers.nbrEmb, AppendTypeFlag(inputs.pedestrians, PedestrianFlag),
                                        inputs.pedestrianMasks, layers.nbrEncSize, layers.nbrGru);
    fused := layers.agentNodeAttention(nodeEnc, ConcatAgents(vehicleEnc, pedestrianEnc),
               ConcatAgentColumns(inputs.vehicleNodeMasks, inputs.pedestrianNodeMasks));
  }

  /** The shape `forward` returns: per example a `targetSize`-wide target
      encoding, and `maxNodes` lane nodes each with a `nodeSize`-wide
      encoding and a mask. */
  predicate EncodingsShaped(enc: Encodings, targetSize: nat, nodeSize: nat, maxNodes: nat)
  {
    && |enc.targetAgentEncoding| == |enc.combined| == |enc.combinedMasks|
    && (forall b :: 0 <= b < |enc.targetAgentEncoding| ==> |enc.targetAgentEncoding[b]| == targetSize)
    && (forall b :: 0 <= b < |enc.combined| ==> |enc.combined[b]| == |enc.combinedMasks[b]| == maxNodes)
    && (forall b, n :: 0 <= b < |enc.combined| && 0 <= n < |enc.combined[b]| ==> |enc.combined[b][n]| == nodeSize)
  }

  /** The outputs `forward` assembles from node encodings of the shape
      `FusedNodeShape` gives have the shape `EncodingsShaped` names, whatever
      the adjacency matrix the GAT layers attend over. */
  lemma ForwardOutputsShaped(layers: EncoderLayers, inputs: EncoderInputs, fused: seq<seq<Vec>>,
                             adj: seq<seq<seq<bool>>>, enc: Encodings)
    requires LayerWidths(layers) && BatchAligned(inputs) && HasChannel0(inputs.laneNodeMasks)
    requires forall i :: 0 <= i < |layers.gat| ==> KeepsShape(layers.gat[i])
    requires NodeShaped(fused, inputs.laneNodeMasks, layers.nodeEncSize)
    requires enc.targetAgentEncoding == seq(|inputs.targetAgent|, b requires 0 <= b < |inputs.targetAgent| =>
                                              layers.targetAgentEncoder(inputs.targetAgent[b]))
    requires enc.combined == GatStack(layers.gat, fused, adj)
    requires enc.combinedMasks == CollapseNodeMasks(inputs.laneNodeMasks)
    ensures |enc.combinedMasks| == |inputs.laneNodeMasks|
    ensures EncodingsShaped(enc, layers.targetAgentEncSize, layers.nodeEncSize, inputs.sNext.Length1)
  {
    assert SameShape3(fused, enc.combined);
    SameShapeIsNodeShaped(fused, enc.combined, inputs.laneNodeMasks, layers.nodeEncSize);
    assert |enc.targetAgentEncoding| == |inputs.laneNodeMasks|;
    ShapedFromParts(enc, inputs.laneNodeMasks, layers.targetAgentEncSize, layers.nodeEncSize, inputs.sNext.Length1);
  }

  /** Encodings whose node axes follow a batch of masks, all of one node
      count, are shaped. */
  lemma ShapedFromParts(enc: Encodings, masks: seq<seq<Series>>, targetSize: nat, nodeSize: nat, maxNodes: nat)
    requires NodeShaped(enc.combined, masks, nodeSize)
    requires |enc.targetAgentEncoding| == |enc.combinedMasks| == |masks|
    requires forall b :: 0 <= b < |masks| ==> |enc.combinedMasks[b]| == |masks[b]| == maxNodes
    requires forall b :: 0 <= b < |enc.targetAgentEncoding| ==> |enc.targetAgentEncoding[b]| == targetSize
    ensures EncodingsShaped(enc, targetSize, nodeSize, maxNodes)
  {
  }

  /** `PGPEncoder.forward`. Rewrites the untyped slots of the caller's
      `s_next` (through `build_adj_mat`) before anything else can fail; fails
      only when `init_node` is given without `node_seq_gt`. */
  method Forward(layers: EncoderLayers, inputs: EncoderInputs) returns (r: Result<Encodings, string>)
    requires LayersReady(layers) && FeaturesReady(inputs)
    requires Adjacency.ValidTables(Adjacency.View(inputs.sNext), inputs.edgeType,
                                   inputs.sNext.Length0, inputs.sNext.Length1, inputs.sNext.Length2)
    modifies inputs.sNext
    ensures Adjacency.View(inputs.sNext) == Adjacency.WithDummies(old(Adjacency.View(inputs.sNext)), inputs.edgeType)
    ensures r.Failure? <==> inputs.initNode.Some? && inputs.nodeSeqGt.None?
    ensures r.Success? ==>
              && r.value.targetAgentEncoding == seq(|inputs.targetAgent|, b requires 0 <= b < |inputs.targetAgent| =>
                                                      layers.targetAgentEncoder(inputs.targetAgent[b]))
              && r.value.combined == GatStack(layers.gat, FusedNodeEncodings(layers, inputs),
                                               Adjacency.AdjacencyOf(Adjacency.View(inputs.sNext)))
              && r.value.combinedMasks == CollapseNodeMasks(inputs.laneNodeMasks)
              && r.value.traversal == (if inputs.initNode.Some?
                                       then Some(Traversal(inputs.initNode.value, inputs.nodeSeqGt.value,
                                                           inputs.sNext, inputs.edgeType))
                                       else None)
    ensures r.Success? && LayerWidths(layers) && BatchAligned(inputs) ==>
              && |r.value.combinedMasks| == |inputs.laneNodeMasks|
              && EncodingsShaped(r.value, layers.targetAgentEncSize, layers.nodeEncSize, inputs.sNext.Length1)
  {
    var targetAgentEncoding := seq(|inputs.targetAgent|, b requires 0 <= b < |inputs.targetAgent| =>
                                   layers.targetAgentEncoder(inputs.targetAgent[b]));

    var fused := FuseNodeEncodings(layers, inputs);
    var adj := Adjacency.BuildAdjMat(inputs.sNext, inputs.edgeType);
    var combined := ApplyGatLayers(layers.gat, fused, Adjacency.View(adj));
    var combinedMasks := CollapseNodeMasks(inputs.laneNodeMasks);

    if inputs.initNode.Some? {
      if inputs.nodeSeqGt.None? {
        return Failure("node_seq_gt");
      }
      var traversal := Traversal(inputs.initNode.value, inputs.nodeSeqGt.value, inputs.sNext, inputs.edgeType);
      r := Success(Encodings(targetAgentEncoding, combined, combinedMasks, Some(traversal)));
    } else {
      r := Success(Encodings(targetAgentEncoding, combined, combinedMasks, None));
    }
    if LayerWidths(layers) && BatchAligned(inputs) {
      FusedNodeShape(layers, inputs);
      ForwardOutputsShaped(layers, inputs, fused, Adjacency.View(adj), r.value);
    }
  }
}
