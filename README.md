# PGP encoder and goal-conditioned aggregator: a Dafny model

This project models the discrete bookkeeping of two parts of the PGP
trajectory predictor:

- the **PGP encoder** (`PGPEncoder` in `models/encoders/pgp_encoder.py`). It
  encodes the target agent, the lane nodes and the surrounding vehicles and
  pedestrians with GRUs. It fuses agent context into the lane nodes with
  attention. It refines the nodes with residual graph-attention (GAT) layers
  over an adjacency matrix built from the successor-edge table `s_next` and
  the edge-type table.
- the **goal-conditioned aggregator** (`GoalConditioned` in
  `models/aggregators/goal_conditioned.py`). It scores every available lane
  node as a goal and picks `num_samples` goals per example: the ground truth
  when pre-training in training mode, sampled goals otherwise. It then appends
  each goal node's encoding to the example's aggregated context.

The learned layers are parameters of the model, as function-typed values over
`real` vectors: embeddings, GRUs, agent-node attention, GAT attention, the
goal head, log-softmax, the sampler and the base attention aggregator. What
is modelled and proved is everything around them:

- which data each layer sees;
- how entities are gathered into a batch and scattered back;
- which entries are zero;
- how the adjacency matrix and the masks are built;
- which goals are chosen.

Files, one module each:

- `wrappers.dfy`: `Option` and `Result`.
- `tensors.dfy`: nested-sequence tensors and the few element-wise operations
  used.
- `ragged.dfy`: the "compact flagged entities in row-major order, process,
  scatter back over zeros" round trip. It is shared by
  `variable_size_gru_encode` and `compute_goal_probs`.
- `adjacency.dfy`: `build_adj_mat`, on `array3`s, with the caller's `s_next`
  rewritten in place.
- `sequence_encoder.dfy`: `variable_size_gru_encode`, proved equal to an
  entity-by-entity reference definition.
- `pgp_encoder.dfy`: the glue of `PGPEncoder.forward`.
- `goal_conditioned.dfy`: `compute_goal_probs` and `GoalConditioned.forward`.

## Model

| member | source | states |
|---|---|---|
| `Tensors.AnyTrue` | models/encoders/pgp_encoder.py:215 | `.any()` over a row: true iff some element is true |
| `Tensors.Channel0` | models/encoders/pgp_encoder.py:214 | `masks[:, :, :, 0]`: same `[B][N][T]` shape, each entry channel 0 of the mask step |
| `Tensors.ValidWhereZero` | models/encoders/pgp_encoder.py:214 | `~m.bool()`: a step is valid iff its mask value is 0 |
| `Tensors.Add3` | models/encoders/pgp_encoder.py:172 | the residual `+=`: same shape, entry by entry the sum |
| `Ragged.Compact` | models/encoders/pgp_encoder.py:216 | `masked_select` at entity granularity: the flagged entities in row-major order, one per flag (with `CompactAt` and `RankOnto`, exactly those) |
| `Ragged.CompactAt` | models/encoders/pgp_encoder.py:214-218 | a flagged entity `(b, n)` sits in the compacted batch at its row-major rank, the number of flagged entities before it |
| `Ragged.RankOnto` | models/encoders/pgp_encoder.py:214-218 | every position of the compacted batch is the rank of some flagged entity: the batch holds the flagged entities and nothing else |
| `Ragged.RankOrder` | models/encoders/pgp_encoder.py:214-218 | of two flagged entities, the one earlier in row-major order has the smaller rank |
| `Ragged.CompactOfPlaced` | models/encoders/pgp_encoder.py:237-241 | a grid holding `rows[Rank(b, n)]` at every flagged position compacts back to the first `Count` rows, in order |
| `Ragged.ScatterRow` | models/encoders/pgp_encoder.py:240-241 | one grid row of `masked_scatter`: unflagged entries are the background, flagged ones consume the rows in order from the running offset |
| `Ragged.Scatter` | models/encoders/pgp_encoder.py:237-241 | `masked_scatter` over a zero background: unflagged entries are zero, the flagged entity of rank `k` holds row `k`, and compacting the result gives back the rows consumed |
| `Adjacency.WithDummies` | models/encoders/pgp_encoder.py:268-275 | the rewritten table has the shape of `s_next`; the rewrite points every untyped slot at its own source node and keeps every other slot |
| `Adjacency.AdjacencyOf` | models/encoders/pgp_encoder.py:261-291 | the `[B][N][N]` matrix whose entry `(b, i, j)` says that `i` and `j` are adjacent (self-loop, or a non-last slot of either node naming the other) |
| `Adjacency.AdjacentSymmetric` | models/encoders/pgp_encoder.py:291 | the adjacency matrix is symmetric |
| `Adjacency.AdjacentReflexive` | models/encoders/pgp_encoder.py:261-266 | every diagonal entry is true, whatever the tables hold |
| `Adjacency.AdjacentIffTypedEdge` | models/encoders/pgp_encoder.py:275-291 | for distinct nodes, an entry is true iff one node has a typed (non-zero) edge to the other in a slot other than its last, in the original tables |
| `Adjacency.LastSlotIgnored` | models/encoders/pgp_encoder.py:288-290 | the last slot of every node never contributes an edge: tables that agree on every other slot give the same matrix |
| `Adjacency.WithDummiesIdempotent` | models/encoders/pgp_encoder.py:275 | rewriting the already rewritten table again changes nothing |
| `Adjacency.RewriteUntypedSlots` | models/encoders/pgp_encoder.py:268-275 | the caller's `s_next` array afterwards holds the rewritten table: untyped slots (the last one included) name their source node, other slots are unchanged |
| `Adjacency.MarkEdges` | models/encoders/pgp_encoder.py:261-290 | a fresh `[B][N][N]` matrix holding exactly the self-loops and one edge per non-last slot of `s_next` |
| `Adjacency.Symmetrise` | models/encoders/pgp_encoder.py:291 | a fresh matrix whose entry `(b, i, j)` is the disjunction of entries `(b, i, j)` and `(b, j, i)` |
| `Adjacency.BuildAdjMat` | models/encoders/pgp_encoder.py:253-293 | rewrites the caller's `s_next` in place as above and returns a fresh matrix equal to `AdjacencyOf` of the rewritten table |
| `SequenceEncoder.SummarisePrefix` | models/encoders/pgp_encoder.py:225-234 | the GRU runs over the first `seq_len` steps only, with `seq_len` cast to an integer, and returns `hidden` values |
| `SequenceEncoder.ValidEntities` | models/encoders/pgp_encoder.py:214-215 | an entity is valid iff channel 0 of its mask is 0 at some step |
| `SequenceEncoder.SeqLens` | models/encoders/pgp_encoder.py:222 | each entity's sequence length is the sum of `1 - mask` over its steps |
| `SequenceEncoder.NonZero` | models/encoders/pgp_encoder.py:223 | selects the entities whose sequence length is non-zero |
| `SequenceEncoder.SumComplementCounts` | models/encoders/pgp_encoder.py:222 | with 0/1 masks, the summed complement counts the steps whose mask is 0 |
| `SequenceEncoder.SeqLenMatchesValidity` | models/encoders/pgp_encoder.py:214-223 | with 0/1 masks, an entity's length is its number of valid steps, and it is non-zero exactly when the entity is valid, between 1 and the number of steps |
| `SequenceEncoder.SelectionsAgree` | models/encoders/pgp_encoder.py:214-223 | the two selections (`masks_for_batching`, `seq_lens != 0`) pick the same entities, so features and lengths stay paired |
| `SequenceEncoder.BatchedLengthsFit` | models/encoders/pgp_encoder.py:216-230 | as many lengths as gathered entities, and every gathered length is a whole number between 1 and the length of the features gathered with it, so packing accepts it |
| `SequenceEncoder.EntityEncoding` | models/encoders/pgp_encoder.py:214-249 | reference encoding of one entity: `hidden` wide; the zero vector when no step is valid, otherwise the GRU summary of its first `seq_len` steps |
| `SequenceEncoder.GruEncodingSpec` | models/encoders/pgp_encoder.py:204-251 | reference output of shape `[B][N][hidden]`, equal entity by entity to `EntityEncoding` |
| `SequenceEncoder.ValidEntityEncoding` | models/encoders/pgp_encoder.py:225-241 | for a valid entity, the summary of the length gathered with it is its reference encoding |
| `SequenceEncoder.SummariseBatch` | models/encoders/pgp_encoder.py:224-234 | the batched GRU call, only on a non-empty batch: one `hidden`-wide summary per gathered entity, of its gathered length |
| `SequenceEncoder.ScatteredEntityIsSpec` | models/encoders/pgp_encoder.py:237-241 | the entry the scatter writes for one entity is its reference encoding |
| `SequenceEncoder.ScatteredRowIsSpec` | models/encoders/pgp_encoder.py:237-241 | the row the scatter writes for one example is its reference encoding |
| `SequenceEncoder.ScatteredIsSpec` | models/encoders/pgp_encoder.py:237-241 | scattering the batch of summaries over zeros gives the reference encoding |
| `SequenceEncoder.ZeroEncoding` | models/encoders/pgp_encoder.py:243-249 | the all-zero `[B][N][hidden]` tensor |
| `SequenceEncoder.NoneValidIsZero` | models/encoders/pgp_encoder.py:223-249 | when no length is non-zero, the reference encoding is all zeros, so the branch that skips the GRU is correct |
| `SequenceEncoder.VariableSizeGruEncode` | models/encoders/pgp_encoder.py:204-251 | `variable_size_gru_encode` returns the reference encoding in both branches; the GRU is called only on non-empty prefixes, and only in the branch where the gathered batch is non-empty |
| `PgpEncoder.AppendTypeFlag` | models/encoders/pgp_encoder.py:126-139 | each step keeps its features and gains one last channel holding the agent-type flag |
| `PgpEncoder.TypeFlagSeparates` | models/encoders/pgp_encoder.py:126-141 | a flagged vehicle step never equals a flagged pedestrian step, so the shared neighbour embedding can tell them apart |
| `PgpEncoder.Embed` | models/encoders/pgp_encoder.py:118-141 | the per-step embedding keeps the batch, entity and time axes |
| `PgpEncoder.ConcatAgents` | models/encoders/pgp_encoder.py:147 | neighbour encodings are vehicles followed by pedestrians, per example |
| `PgpEncoder.ConcatAgentColumns` | models/encoders/pgp_encoder.py:151-157 | each node's agent-node mask row is its vehicle columns followed by its pedestrian columns |
| `PgpEncoder.MaskColumnsMatchAgents` | models/encoders/pgp_encoder.py:147-158 | mask column `j` and neighbour encoding `j` describe the same agent |
| `PgpEncoder.Complement` | models/encoders/pgp_encoder.py:324 | the GAT attention mask is the negation of the adjacency matrix, entry by entry |
| `PgpEncoder.GatLayer` | models/encoders/pgp_encoder.py:314-326 | a GAT layer returns node encodings of its input's shape |
| `PgpEncoder.GatMaskBlocksNonNeighbours` | models/encoders/pgp_encoder.py:167-172 | with the matrix `build_adj_mat` builds, a GAT layer lets every node attend to itself, and it blocks two distinct nodes exactly when neither has a typed edge to the other in a non-last slot |
| `PgpEncoder.GatStack` | models/encoders/pgp_encoder.py:171-172 | residual accumulation over the GAT layers keeps the shape of the node encodings |
| `PgpEncoder.GatStackAppend` | models/encoders/pgp_encoder.py:171-172 | running a list of layers is running its first part, then the rest on the result |
| `PgpEncoder.ApplyGatLayers` | models/encoders/pgp_encoder.py:171-172 | the residual loop `x += layer(x, adj)` gives the stacked result of all layers in order |
| `PgpEncoder.CollapseNodeMasks` | models/encoders/pgp_encoder.py:175-178 | a node's mask is 0.0 iff one of its poses has channel 0 equal to 0, and 1.0 otherwise |
| `PgpEncoder.CombinedMaskMatchesEncoding` | models/encoders/pgp_encoder.py:175-178 | the nodes marked available are exactly those the node GRU encodes; every other node's encoding is zero |
| `PgpEncoder.EntityEncodings` | models/encoders/pgp_encoder.py:117-144 | embedding then `variable_size_gru_encode` gives one `hidden`-wide encoding per entity of the `[B][N]` grid |
| `PgpEncoder.EncodeEntities` | models/encoders/pgp_encoder.py:117-144 | encodes a batch of entities as `EntityEncodings` defines |
| `PgpEncoder.FuseNodeEncodings` | models/encoders/pgp_encoder.py:117-164 | node encodings fused by agent-node attention with the flagged, concatenated neighbour encodings under the concatenated mask |
| `PgpEncoder.FusedNodeShape` | models/encoders/pgp_encoder.py:148-164 | the fused node encodings hold one `node_enc_size`-wide vector per lane node |
| `PgpEncoder.ForwardOutputsShaped` | models/encoders/pgp_encoder.py:109-193 | from node encodings of the fused shape, whatever the adjacency, the outputs are shaped: one `target_agent_enc_size`-wide target encoding, and per lane node one `node_enc_size`-wide encoding and a mask, for every example |
| `PgpEncoder.Forward` | models/encoders/pgp_encoder.py:109-202 | `forward` rewrites the caller's `s_next` and returns the target encoding, the GAT-refined fused node encodings over the adjacency of the rewritten table, the collapsed node masks, and the traversal fields (the caller's own `s_next` included) exactly when `init_node` is given; with `s_next` and `edge_type` present, it fails exactly when `init_node` comes without `node_seq_gt`; when the layers have their widths and the inputs one batch size, the outputs have the shape above |
| `GoalConditioned.GoalRows` | models/aggregators/goal_conditioned.py:114-123 | the row scored for node `n` is the target encoding followed by node `n`'s encoding, of their summed width |
| `GoalConditioned.AvailableNodes` | models/aggregators/goal_conditioned.py:126 | a node can be a goal iff its mask is 0 |
| `GoalConditioned.GoalScoresSpec` | models/aggregators/goal_conditioned.py:126-136 | reference score buffer: the head's score of the node's row when the node is available, exactly 0 otherwise |
| `GoalConditioned.BatchedRowsFit` | models/aggregators/goal_conditioned.py:127-129 | every gathered row has the head's input width |
| `GoalConditioned.ScatteredScoresAreSpec` | models/aggregators/goal_conditioned.py:132-136 | scattering the batch's scores over zeros gives the reference score buffer |
| `GoalConditioned.GoalScores` | models/aggregators/goal_conditioned.py:114-136 | gather, score in one batch and scatter back: the reference score buffer |
| `GoalConditioned.ComputeGoalProbs` | models/aggregators/goal_conditioned.py:106-139 | the log-probabilities are the normaliser applied to the reference scores and the node masks |
| `GoalConditioned.MaxNodes` | models/aggregators/goal_conditioned.py:76 | `node_masks.shape[1]`: the node count of the first example, 0 for an empty batch |
| `GoalConditioned.NodeSeqGt` | models/aggregators/goal_conditioned.py:78 | `encodings["node_seq_gt"]`: present exactly when the encoder passed the traversal fields on, and then their ground truth |
| `GoalConditioned.EncoderFeedsAggregator` | models/aggregators/goal_conditioned.py:64-72 | the encoder's shaped outputs are what the aggregator reads: one target encoding and one mask row per example, rows of the target and node widths together, the same node count in every example |
| `GoalConditioned.Truncate` | models/aggregators/goal_conditioned.py:81 | `.long()` truncates toward zero |
| `GoalConditioned.PretrainGoals` | models/aggregators/goal_conditioned.py:76-83 | one row of `num_samples` goals per example |
| `GoalConditioned.PretrainGoalsAreGroundTruth` | models/aggregators/goal_conditioned.py:75-83 | in pre-training all samples of an example are the same goal, a node index, that of the last ground-truth entry minus `max_nodes` |
| `GoalConditioned.SelectGoals` | models/aggregators/goal_conditioned.py:74-88 | ground-truth goals exactly when `pre_train` and `training` both hold, sampled goals otherwise; reading the ground truth fails exactly when it is absent or a sequence is empty |
| `GoalConditioned.GoalConditionedEncoding` | models/aggregators/goal_conditioned.py:93-99 | `agg_encoding[b][s]` is the context of example `b` followed by the encoding of node `goals[b][s]` |
| `GoalConditioned.EmptyBatchIsReady` | models/aggregators/goal_conditioned.py:55-104 | an empty batch meets what `forward` demands, in either mode, for every aggregator whose head, normaliser, base aggregator and sampler behave as demanded, and any number of samples |
| `GoalConditioned.Forward` | models/aggregators/goal_conditioned.py:55-104 | `goal_log_probs` is the result of `compute_goal_probs` in every mode; the goals are node indices, one row per example; `agg_encoding` is built from them; `forward` fails exactly when goal selection does |

## Left out

- The learned numeric layers are parameters and are not defined. These are
  the GRUs, linear layers, LeakyReLU, multi-head attention inside the GAT
  layers and the agent-node attention, the 1x1 mix layer and the goal head.
  Only their shapes are assumed: a GRU returns its hidden size for every
  non-empty sequence, a GAT layer keeps the shape of the node encodings, and
  the goal head accepts rows of its input width.
- `pack_padded_sequence` is not modelled. Its internals are a foreign call; the
  model keeps only that the GRU reads the first `seq_len` steps of each
  gathered entity.
- Log-softmax, `exp` and `log(1 - node_masks)` are not modelled. They are
  floating-point and infinite arithmetic, so they form one abstract normaliser.
- `GoalConditioned.ComputeGoalProbs`: states the log-probabilities only as the
  abstract normaliser applied to the proved score buffer. It does not state
  that unavailable nodes get probability zero, which comes from the
  log-softmax arithmetic.
- Categorical sampling is not modelled, because it is random. It is a sampler
  parameter, assumed to return `num_samples` node indices in `[0, max_nodes)`
  per example. Torch's wrap-around of negative indices in the gather is not
  modelled either.
- The base `GlobalAttention` aggregator is not part of this model. It is an
  abstract function from the encodings to one context vector per example.
- The device selection from the environment is left out, because it is process
  state. So is `data_scaling.py`, which is command-line parsing, file I/O and
  training orchestration.
- `s_next` is modelled as integers. The source stores floats and reads them with
  `.long()`; the rewrite to dummy indices writes whole numbers.
- The vectorised masked assignments of `build_adj_mat` become `forall`
  statements over the arrays. The order in which torch applies
  duplicate-index writes does not matter, since every write stores `true`.
- Mask-gathering works at entity granularity, one row per `(b, n)`. This
  matches `masked_select` with a mask broadcast over the trailing axes, but not
  the element-level flattening of the tensors.
- `GoalConditioned.MaxNodes`: nested sequences drop the trailing axes of an
  empty batch, so `max_nodes` is 0 for an empty batch where torch keeps the node
  axis of a `[0, N]` mask. No goal is computed for an empty batch, so the two
  cannot be told apart.
- The `map`, `vehicles`, `pedestrians` and mask entries of the context encoding
  are always `None` in the source and are not represented.
- Preconditions are taken as given:
  - masks hold only 0 and 1;
  - the typed non-last slots of `s_next` name nodes in `[0, max_nodes)`;
  - when pre-training, each ground-truth sequence ends on a value in
    `[max_nodes, 2 * max_nodes)`.
- `PgpEncoder.Forward`: takes `s_next` and `edge_type` as always present. Lines
  168-169 read them unconditionally, so the source raises a key error when they
  are missing; the model has no failure for that. Torch's shape errors are not
  represented either: an input of mismatched shape gives an error in the
  source. The model states the output shapes only for inputs of one batch
  size whose lane-node axes match those of `s_next`.
- The target-agent encoder is one abstract function per example, from the
  whole history to the GRU's final hidden state.
