/** `PGPEncoder.variable_size_gru_encode`: one fixed-size summary per entity of
    a `[B][N][T][F]` batch of masked time series. Entities with no valid step
    are left out of the summariser's batch and get the zero vector. */
module SequenceEncoder {
  import opened Tensors
  import Ragged

  /** The recurrent summariser: a GRU run over a packed sequence, whose final
      hidden state is the summary. It only accepts non-empty sequences, as
      `pack_padded_sequence` refuses a length of zero. */
  type Summariser = Series --> Vec

  /** `summarise` accepts every non-empty series and returns `hidden` values
      (`gru.hidden_size`). */
  ghost predicate Summarises(summarise: Summariser, hidden: nat)
  {
    forall x: Series :: |x| > 0 ==> summarise.requires(x) && |summarise(x)| == hidden
  }

  /** The summary of the first `len` steps of `x`: the sequence is packed
      with length `len`, which `pack_padded_sequence` casts to an integer. */
  function SummarisePrefix(summarise: Summariser, hidden: nat, x: Series, len: real): (v: Vec)
    requires Summarises(summarise, hidden) && 0 < len.Floor <= |x|
    ensures |v| == hidden
  {
    summarise(x[..len.Floor])
  }

  /** A feature tensor and a mask tensor agree on `[B][N][T]`, and every mask
      step has a channel 0. */
  predicate MasksFit(feats: seq<seq<Series>>, masks: seq<seq<Series>>)
  {
    HasChannel0(masks) && Aligned(feats, Channel0(masks))
  }

  /** The features of each entity are as long as its mask. */
  predicate Aligned(feats: seq<seq<Series>>, m0: seq<seq<seq<real>>>)
  {
    && |feats| == |m0|
    && (forall b :: 0 <= b < |m0| ==> |feats[b]| == |m0[b]|)
    && (forall b, n :: 0 <= b < |m0| && 0 <= n < |m0[b]| ==> |feats[b][n]| == |m0[b][n]|)
  }

  /** Every mask value of channel 0 is 0 or 1. */
  predicate BinaryMasks(m0: seq<seq<seq<real>>>)
  {
    forall b, n :: 0 <= b < |m0| && 0 <= n < |m0[b]| ==> Binary(m0[b][n])
  }

  /** An entity is valid iff channel 0 of its mask is 0 at some step
      (`(~masks[:, :, :, 0].bool()).any(dim=-1)`). */
  predicate EntityValid(m: seq<real>)
  {
    AnyTrue(ValidWhereZero(m))
  }

  /** The validity of every entity (`masks_for_batching`). */
  function ValidEntities(m0: seq<seq<seq<real>>>): (r: seq<seq<bool>>)
    ensures |r| == |m0| && forall b :: 0 <= b < |m0| ==> |r[b]| == |m0[b]|
    ensures forall b, n :: 0 <= b < |m0| && 0 <= n < |m0[b]| ==> r[b][n] == EntityValid(m0[b][n])
  {
    seq(|m0|, b requires 0 <= b < |m0| => seq(|m0[b]|, n requires 0 <= n < |m0[b]| => EntityValid(m0[b][n])))
  }

  /** Number of valid steps: the length of the prefix the summariser reads. */
  function ValidSteps(m: seq<real>): nat
  {
    Ragged.CountRow(ValidWhereZero(m))
  }

  /** `sum(1 - m[t])` over the first `t` steps. */
  function SumComplementTo(m: seq<real>, t: nat): real
    requires t <= |m|
  {
    if t == 0 then 0.0 else SumComplementTo(m, t - 1) + (1.0 - m[t - 1])
  }

  /** `seq_lens = torch.sum(1 - masks[:, :, :, 0], dim=-1)` (line 222). */
  function SeqLens(m0: seq<seq<seq<real>>>): (r: seq<seq<real>>)
    ensures |r| == |m0| && forall b :: 0 <= b < |m0| ==> |r[b]| == |m0[b]|
    ensures forall b, n :: 0 <= b < |m0| && 0 <= n < |m0[b]| ==> r[b][n] == SumComplementTo(m0[b][n], |m0[b][n]|)
  {
    seq(|m0|, b requires 0 <= b < |m0| =>
      seq(|m0[b]|, n requires 0 <= n < |m0[b]| => SumComplementTo(m0[b][n], |m0[b][n]|)))
  }

  /** `seq_lens != 0`, the mask that selects `seq_lens_batched` (line 223). */
  function NonZero(lens: seq<seq<real>>): (r: seq<seq<bool>>)
    ensures |r| == |lens| && forall b :: 0 <= b < |lens| ==> |r[b]| == |lens[b]|
    ensures forall b, n :: 0 <= b < |lens| && 0 <= n < |lens[b]| ==> r[b][n] == (lens[b][n] != 0.0)
  {
    seq(|lens|, b requires 0 <= b < |lens| => seq(|lens[b]|, n requires 0 <= n < |lens[b]| => lens[b][n] != 0.0))
  }

  /** With 0/1 masks, `sum(1 - m)` counts the valid steps. */
  lemma {:induction false} SumComplementCounts(m: seq<real>, t: nat)
    requires Binary(m) && t <= |m|
    ensures SumComplementTo(m, t) == Ragged.CountTo(ValidWhereZero(m), t) as real
  {
    if t > 0 {
      SumComplementCounts(m, t - 1);
    }
  }

  /** With 0/1 masks, an entity's sequence length is its number of valid
      steps, and it is non-zero exactly when the entity is valid: the two
      selections of lines 216 and 223 pick the same entities. */
  lemma SeqLenMatchesValidity(m: seq<real>)
    requires Binary(m)
    ensures SumComplementTo(m, |m|) == ValidSteps(m) as real
    ensures (SumComplementTo(m, |m|) != 0.0) == EntityValid(m)
    ensures EntityValid(m) ==> 0 < ValidSteps(m) <= |m|
  {
    SumComplementCounts(m, |m|);
    Ragged.CountToPositive(ValidWhereZero(m), |m|);
  }

  /** The encoding of one entity: the zero vector when it has no valid step,
      otherwise the summary of the first `ValidSteps` steps of its features.
      These are the leading steps, as packing reads them, and not the valid
      steps themselves: when the valid steps are not a prefix (a mask of
      `[1, 0]`, say) the summariser reads a padded step. */
  ghost function EntityEncoding(feat: Series, m: seq<real>, hidden: nat, summarise: Summariser): (v: Vec)
    requires |feat| == |m| && Summarises(summarise, hidden)
    ensures |v| == hidden
  {
    if EntityValid(m) then
      Ragged.CountToPositive(ValidWhereZero(m), |m|);
      SummarisePrefix(summarise, hidden, feat, ValidSteps(m) as real)
    else Zeros(hidden)
  }

  /** Reference definition of the encoder's output, entity by entity. */
  ghost function GruEncodingSpec(feats: seq<seq<Series>>, m0: seq<seq<seq<real>>>, hidden: nat,
                                 summarise: Summariser): (r: seq<seq<Vec>>)
    requires |feats| == |m0| && (forall b :: 0 <= b < |m0| ==> |feats[b]| == |m0[b]|)
    requires forall b, n :: 0 <= b < |m0| && 0 <= n < |m0[b]| ==> |feats[b][n]| == |m0[b][n]|
    requires Summarises(summarise, hidden)
    ensures |r| == |m0| && forall b :: 0 <= b < |m0| ==> |r[b]| == |m0[b]|
    ensures forall b, n :: 0 <= b < |m0| && 0 <= n < |m0[b]| ==>
              r[b][n] == EntityEncoding(feats[b][n], m0[b][n], hidden, summarise)
  {
    seq(|m0|, b requires 0 <= b < |m0| =>
      seq(|m0[b]|, n requires 0 <= n < |m0[b]| => EntityEncoding(feats[b][n], m0[b][n], hidden, summarise)))
  }

  /** The validity mask and the non-zero-length mask select the same
      entities when the masks are 0/1. */
  lemma SelectionsAgree(m0: seq<seq<seq<real>>>)
    requires BinaryMasks(m0)
    ensures NonZero(SeqLens(m0)) == ValidEntities(m0)
  {
    var lens := SeqLens(m0);
    forall b | 0 <= b < |m0|
      ensures NonZero(lens)[b] == ValidEntities(m0)[b]
    {
      forall n | 0 <= n < |m0[b]|
        ensures NonZero(lens)[b][n] == ValidEntities(m0)[b][n]
      {
        SeqLenMatchesValidity(m0[b][n]);
      }
    }
  }

  /** Each entity of the summariser's batch has a whole, positive length no
      longer than its series. */
  lemma BatchedLengthsFit(feats: seq<seq<Series>>, m0: seq<seq<seq<real>>>, valid: seq<seq<bool>>,
                          lens: seq<seq<real>>, batched: seq<Series>, lensBatched: seq<real>)
    requires |feats| == |m0| && (forall b :: 0 <= b < |m0| ==> |feats[b]| == |m0[b]|)
    requires forall b, n :: 0 <= b < |m0| && 0 <= n < |m0[b]| ==> |feats[b][n]| == |m0[b][n]|
    requires BinaryMasks(m0)
    requires valid == ValidEntities(m0) && lens == SeqLens(m0)
    requires batched == Ragged.Compact(valid, feats) && lensBatched == Ragged.Compact(valid, lens)
    ensures |batched| == |lensBatched|
    ensures forall k :: 0 <= k < |batched| ==> lensBatched[k] == lensBatched[k].Floor as real
    ensures forall k :: 0 <= k < |batched| ==> 0 < lensBatched[k].Floor <= |batched[k]|
  {
    forall k | 0 <= k < |batched|
      ensures lensBatched[k] == lensBatched[k].Floor as real
      ensures 0 < lensBatched[k].Floor <= |batched[k]|
    {
      var b, n := Ragged.RankOnto(valid, k);
      Ragged.CompactAt(valid, feats, b, n);
      Ragged.CompactAt(valid, lens, b, n);
      SeqLenMatchesValidity(m0[b][n]);
    }
  }

  /** A valid entity's summary over its `seq_lens` steps is its reference
      encoding. */
  lemma ValidEntityEncoding(feat: Series, m: seq<real>, len: real, hidden: nat, summarise: Summariser)
    requires |feat| == |m| && Binary(m) && EntityValid(m) && Summarises(summarise, hidden)
    requires len == SumComplementTo(m, |m|)
    ensures 0 < len.Floor <= |feat|
    ensures SummarisePrefix(summarise, hidden, feat, len) == EntityEncoding(feat, m, hidden, summarise)
  {
    SeqLenMatchesValidity(m);
  }

  /** `batchedEncoding` holds the summary of every entity of the batch over
      its packed length. */
  ghost predicate SummarisedBatch(summarise: Summariser, hidden: nat, batched: seq<Series>,
                                  lensBatched: seq<real>, batchedEncoding: seq<Vec>)
  {
    && Summarises(summarise, hidden)
    && |batchedEncoding| == |batched| <= |lensBatched|
    && forall k :: 0 <= k < |batched| ==>
         0 < lensBatched[k].Floor <= |batched[k]| &&
         batchedEncoding[k] == SummarisePrefix(summarise, hidden, batched[k], lensBatched[k])
  }

  /** The batched GRU call: the summaries of a batch of entities, each over
      its packed length. The batch is never empty, since packing refuses an
      empty batch; the encoder takes a separate branch in that case. */
  function SummariseBatch(summarise: Summariser, hidden: nat, batched: seq<Series>, lensBatched: seq<real>)
    : (batchedEncoding: seq<Vec>)
    requires Summarises(summarise, hidden) && 0 < |batched| <= |lensBatched|
    requires forall k :: 0 <= k < |batched| ==> 0 < lensBatched[k].Floor <= |batched[k]|
    ensures SummarisedBatch(summarise, hidden, batched, lensBatched, batchedEncoding)
  {
    seq(|batched|, k requires 0 <= k < |batched| => SummarisePrefix(summarise, hidden, batched[k], lensBatched[k]))
  }

  /** The entity at `(b, n)` of a scattered batch of summaries is its
      reference encoding. */
  lemma ScatteredEntityIsSpec(feats: seq<seq<Series>>, m0: seq<seq<seq<real>>>, hidden: nat, summarise: Summariser,
                              batchedEncoding: seq<Vec>, encoding: seq<seq<Vec>>, b: nat, n: nat)
    requires Aligned(feats, m0) && BinaryMasks(m0)
    requires SummarisedBatch(summarise, hidden, Ragged.Compact(ValidEntities(m0), feats),
                             Ragged.Compact(ValidEntities(m0), SeqLens(m0)), batchedEncoding)
    requires Ragged.Fits(ValidEntities(m0), encoding)
    requires Ragged.Placed(ValidEntities(m0), encoding, batchedEncoding, Zeros(hidden), |m0|)
    requires b < |m0| && n < |m0[b]|
    ensures encoding[b][n] == EntityEncoding(feats[b][n], m0[b][n], hidden, summarise)
  {
    var valid, lens := ValidEntities(m0), SeqLens(m0);
    if valid[b][n] {
      var k := Ragged.Rank(valid, b, n);
      Ragged.CompactAt(valid, feats, b, n);
      Ragged.CompactAt(valid, lens, b, n);
      assert encoding[b][n] == batchedEncoding[k];
      ValidEntityEncoding(feats[b][n], m0[b][n], lens[b][n], hidden, summarise);
    }
  }

  /** Row `b` of a scattered batch of summaries is its reference encoding. */
  lemma ScatteredRowIsSpec(feats: seq<seq<Series>>, m0: seq<seq<seq<real>>>, hidden: nat, summarise: Summariser,
                           batchedEncoding: seq<Vec>, encoding: seq<seq<Vec>>, b: nat)
    requires Aligned(feats, m0) && BinaryMasks(m0)
    requires SummarisedBatch(summarise, hidden, Ragged.Compact(ValidEntities(m0), feats),
                             Ragged.Compact(ValidEntities(m0), SeqLens(m0)), batchedEncoding)
    requires Ragged.Fits(ValidEntities(m0), encoding)
    requires Ragged.Placed(ValidEntities(m0), encoding, batchedEncoding, Zeros(hidden), |m0|)
    requires b < |m0|
    ensures encoding[b] == GruEncodingSpec(feats, m0, hidden, summarise)[b]
  {
    forall n | 0 <= n < |m0[b]|
      ensures encoding[b][n] == GruEncodingSpec(feats, m0, hidden, summarise)[b][n]
    {
      ScatteredEntityIsSpec(feats, m0, hidden, summarise, batchedEncoding, encoding, b, n);
    }
  }

  /** Scattering the batch's summaries back gives the reference encoding. */
  lemma ScatteredIsSpec(feats: seq<seq<Series>>, m0: seq<seq<seq<real>>>, hidden: nat, summarise: Summariser,
                        batchedEncoding: seq<Vec>, encoding: seq<seq<Vec>>)
    requires Aligned(feats, m0) && BinaryMasks(m0)
    requires SummarisedBatch(summarise, hidden, Ragged.Compact(ValidEntities(m0), feats),
                             Ragged.Compact(ValidEntities(m0), SeqLens(m0)), batchedEncoding)
    requires Ragged.Fits(ValidEntities(m0), encoding)
    requires Ragged.Placed(ValidEntities(m0), encoding, batchedEncoding, Zeros(hidden), |m0|)
    ensures encoding == GruEncodingSpec(feats, m0, hidden, summarise)
  {
    var spec := GruEncodingSpec(feats, m0, hidden, summarise);
    forall b | 0 <= b < |m0|
      ensures encoding[b] == spec[b]
    {
      ScatteredRowIsSpec(feats, m0, hidden, summarise, batchedEncoding, encoding, b);
    }
  }

  /** The all-zero encoding of a `[B][N]` batch of entities. */
  function ZeroEncoding(m0: seq<seq<seq<real>>>, hidden: nat): (r: seq<seq<Vec>>)
    ensures |r| == |m0| && forall b :: 0 <= b < |m0| ==> |r[b]| == |m0[b]|
    ensures forall b, n :: 0 <= b < |m0| && 0 <= n < |m0[b]| ==> r[b][n] == Zeros(hidden)
  {
    seq(|m0|, b requires 0 <= b < |m0| => seq(|m0[b]|, n requires 0 <= n < |m0[b]| => Zeros(hidden)))
  }

  /** When no entity has a non-zero length, no entity is valid and the
      reference encoding is all zeros. */
  lemma NoneValidIsZero(feats: seq<seq<Series>>, m0: seq<seq<seq<real>>>, hidden: nat, summarise: Summariser)
    requires |feats| == |m0| && (forall b :: 0 <= b < |m0| ==> |feats[b]| == |m0[b]|)
    requires forall b, n :: 0 <= b < |m0| && 0 <= n < |m0[b]| ==> |feats[b][n]| == |m0[b][n]|
    requires BinaryMasks(m0) && Summarises(summarise, hidden)
    requires |Ragged.Compact(NonZero(SeqLens(m0)), SeqLens(m0))| == 0
    ensures GruEncodingSpec(feats, m0, hidden, summarise) == ZeroEncoding(m0, hidden)
  {
    var lens := SeqLens(m0);
    var spec, zero := GruEncodingSpec(feats, m0, hidden, summarise), ZeroEncoding(m0, hidden);
    forall b | 0 <= b < |m0|
      ensures spec[b] == zero[b]
    {
      forall n | 0 <= n < |m0[b]|
        ensures spec[b][n] == zero[b][n]
      {
        if EntityValid(m0[b][n]) {
          SeqLenMatchesValidity(m0[b][n]);
          Ragged.CompactAt(NonZero(lens), lens, b, n);
          assert false;
        }
      }
    }
  }

  /** `variable_size_gru_encode`: the valid entities are gathered into one
      batch in row-major order, each is summarised over its first
      `seq_lens` steps, and the summaries are scattered back over a zero
      background; when no entity is valid the result is all zeros. */
  method VariableSizeGruEncode(feats: seq<seq<Series>>, masks: seq<seq<Series>>, hidden: nat,
                               summarise: Summariser) returns (encoding: seq<seq<Vec>>)
    requires MasksFit(feats, masks)
    requires BinaryMasks(Channel0(masks))
    requires Summarises(summarise, hidden)
    ensures encoding == GruEncodingSpec(feats, Channel0(masks), hidden, summarise)
  {
    var m0 := Channel0(masks);
    var valid := ValidEntities(m0);
    var batched := Ragged.Compact(valid, feats);
    var lens := SeqLens(m0);
    SelectionsAgree(m0);
    var lensBatched := Ragged.Compact(NonZero(lens), lens);
    assert lensBatched == Ragged.Compact(valid, lens);
    if |lensBatched| != 0 {
      // `pack_padded_sequence` casts the lengths to integers.
      BatchedLengthsFit(feats, m0, valid, lens, batched, lensBatched);
      var batchedEncoding := SummariseBatch(summarise, hidden, batched, lensBatched);
      encoding := Ragged.Scatter(valid, batchedEncoding, Zeros(hidden));
      ScatteredIsSpec(feats, m0, hidden, summarise, batchedEncoding, encoding);
    } else {
      NoneValidIsZero(feats, m0, hidden, summarise);
      encoding := ZeroEncoding(m0, hidden);
    }
  }
}
