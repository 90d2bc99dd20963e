/**
 * `concatenate_audio_chunks`: single-channel audio segments joined in order
 * with a run of silent samples between neighbours. The silence length
 * (`int(0.1 * sample_rate)`) is a parameter.
 */
module Audio {
  import opened Text

  type Samples = seq<int>

  /** `torch.zeros(1, n)`, as a single channel. */
  function Silence(n: nat): (z: Samples)
    ensures |z| == n
    ensures forall i :: 0 <= i < n ==> z[i] == 0
  {
    seq(n, i => 0)
  }

  /** Total number of samples in the segments. */
  function TotalSamples(chunks: seq<Samples>): nat {
    if chunks == [] then 0 else TotalSamples(chunks[..|chunks| - 1]) + |chunks[|chunks| - 1]|
  }

  /** The segments, in order, with `silence` zero samples between each
      neighbouring pair. */
  function Stitch(chunks: seq<Samples>, silence: nat): Samples
    requires |chunks| >= 1
  {
    if |chunks| == 1 then chunks[0]
    else Stitch(chunks[..|chunks| - 1], silence) + Silence(silence) + chunks[|chunks| - 1]
  }

  /** `concatenate_audio_chunks`: a single segment is returned as it is;
      otherwise the running result grows by silence and the next segment. */
  method ConcatenateAudioChunks(chunks: seq<Samples>, silence: nat) returns (concatenated: Samples)
    requires |chunks| >= 1
    ensures concatenated == Stitch(chunks, silence)
    ensures |chunks| == 1 ==> concatenated == chunks[0]
  {
    if |chunks| == 1 {
      return chunks[0];
    }
    concatenated := chunks[0];
    for i := 1 to |chunks|
      invariant concatenated == Stitch(chunks[..i], silence)
    {
      assert chunks[..i + 1][..i] == chunks[..i];
      concatenated := concatenated + Silence(silence) + chunks[i];
    }
    assert chunks[..|chunks|] == chunks;
  }

  /** The output holds every sample of every segment and (n - 1) silences. */
  lemma {:induction false} StitchLength(chunks: seq<Samples>, silence: nat)
    requires |chunks| >= 1
    ensures |Stitch(chunks, silence)| == TotalSamples(chunks) + (|chunks| - 1) * silence
  {
    if |chunks| == 1 {
      assert chunks[..0] == [];
    } else {
      StitchLength(chunks[..|chunks| - 1], silence);
      assert (|chunks| - 1) * silence == (|chunks| - 2) * silence + silence;
    }
  }

  /** Where segment k starts: the samples of the segments before it and one
      silence per segment before it. */
  function Offset(chunks: seq<Samples>, silence: nat, k: nat): nat
    requires k <= |chunks|
  {
    TotalSamples(chunks[..k]) + k * silence
  }

  /** Segment k appears unchanged at its offset, and, unless it is the
      first, right after a run of silence. */
  lemma {:induction false} StitchPlacesChunk(chunks: seq<Samples>, silence: nat, k: nat)
    requires k < |chunks|
    ensures var out, o := Stitch(chunks, silence), Offset(chunks, silence, k);
      && o + |chunks[k]| <= |out|
      && out[o..o + |chunks[k]|] == chunks[k]
      && (k >= 1 ==> o >= silence && out[o - silence..o] == Silence(silence))
    decreases |chunks|
  {
    var n := |chunks|;
    if n == 1 {
      assert chunks[..0] == [];
    } else if k == n - 1 {
      PlacesLast(chunks, silence);
    } else {
      StitchPlacesChunk(chunks[..n - 1], silence, k);
      PlacesEarlier(chunks, silence, k);
    }
  }

  /** A segment before the last keeps its place: Stitch(chunks) extends
      Stitch of all segments but the last. */
  lemma PlacesEarlier(chunks: seq<Samples>, silence: nat, k: nat)
    requires k < |chunks| - 1
    requires var init := chunks[..|chunks| - 1];
      var prefix, o := Stitch(init, silence), Offset(init, silence, k);
      && o + |init[k]| <= |prefix|
      && prefix[o..o + |init[k]|] == init[k]
      && (k >= 1 ==> o >= silence && prefix[o - silence..o] == Silence(silence))
    ensures var out, o := Stitch(chunks, silence), Offset(chunks, silence, k);
      && o + |chunks[k]| <= |out|
      && out[o..o + |chunks[k]|] == chunks[k]
      && (k >= 1 ==> o >= silence && out[o - silence..o] == Silence(silence))
  {
    var n := |chunks|;
    var init := chunks[..n - 1];
    assert init[..k] == chunks[..k];
    var o := Offset(chunks, silence, k);
    var prefix := Stitch(init, silence);
    var rest := Silence(silence) + chunks[n - 1];
    AppendAssoc(prefix, Silence(silence), chunks[n - 1]);
    assert Stitch(chunks, silence) == prefix + rest;
    SliceOfPrefix(prefix, rest, o, o + |chunks[k]|);
    if k >= 1 {
      SliceOfPrefix(prefix, rest, o - silence, o);
    }
  }

  /** The last segment sits at the end, after a run of silence. */
  lemma PlacesLast(chunks: seq<Samples>, silence: nat)
    requires |chunks| >= 2
    ensures var k := |chunks| - 1;
      var out, o := Stitch(chunks, silence), Offset(chunks, silence, k);
      && o + |chunks[k]| <= |out|
      && out[o..o + |chunks[k]|] == chunks[k]
      && o >= silence && out[o - silence..o] == Silence(silence)
  {
    var k := |chunks| - 1;
    var init := chunks[..k];
    var prefix := Stitch(init, silence);
    StitchLength(init, silence);
    var out := Stitch(chunks, silence);
    assert out == prefix + Silence(silence) + chunks[k];
    assert |prefix| + silence == Offset(chunks, silence, k);
  }

  lemma SliceOfPrefix<T>(x: seq<T>, y: seq<T>, i: nat, j: nat)
    requires i <= j <= |x|
    ensures (x + y)[i..j] == x[i..j]
  {
  }
}
