/** When search, identification and verification agree, over all probes and galleries.

    Similarities of true embeddings lie between -1 and 1, and there they take every value that
    matters, so thresholds far outside that range behave differently from those inside it.
 */
module FaceAgreement {

  import opened Options
  import opened Similarity
  import opened SimilarityRange
  import opened FaceSearch

  /** Embeddings of one dimension, each with its own norm. */
  ghost predicate Genuine(dim: nat, probe: Vector, norm: real, gallery: seq<Entry>) {
    && |probe| == dim && IsNorm(probe, norm) && SameDimension(probe, gallery)
    && forall i :: 0 <= i < |gallery| ==> IsNorm(gallery[i].embedding, gallery[i].norm)
  }

  lemma SimsBounded(dim: nat, probe: Vector, norm: real, gallery: seq<Entry>)
    requires Genuine(dim, probe, norm, gallery)
    ensures forall i :: 0 <= i < |gallery| ==> -1.0 <= Sims(probe, norm, gallery)[i] <= 1.0
  {
    forall i | 0 <= i < |gallery| ensures -1.0 <= Sims(probe, norm, gallery)[i] <= 1.0 {
      CosineBounded(probe, gallery[i].embedding, norm, gallery[i].norm);
    }
  }

  /** A gallery of one face. */
  function Single(v: Vector, q: real): seq<Entry> {
    [Entry("u", None, v, q)]
  }

  lemma SingleSims(dim: nat, v: Vector, q: real)
    requires dim >= 1 && |v| == dim && IsNorm(Axis(dim), 1.0) && IsNorm(v, q)
    ensures Genuine(dim, Axis(dim), 1.0, Single(v, q))
    ensures Sims(Axis(dim), 1.0, Single(v, q)) == [Cosine(Axis(dim), v, 1.0, q)]
  {
  }

  // ---------------------------------------------------------------- rounding around a grid point

  lemma RoundedIsGrid(x: real) returns (k: int)
    ensures Round4(x) * 10000.0 == k as real
  {
    k := Nearest(x * 10000.0);
  }

  lemma RoundsTo(x: real, g: real, k: int)
    requires g * 10000.0 == k as real && g - 0.00005 < x < g + 0.00005
    ensures Round4(x) == g
  {
    var y := x * 10000.0;
    assert k as real - 0.5 < y < k as real + 0.5;
    assert y.Floor == k || y.Floor == k - 1;
  }

  // ---------------------------------------------------------------- search and identification

  /** The similarities a search lists start those an identification lists. */
  predicate SearchStarts(sims: seq<real>, t: real, topK: nat) {
    Keys(sims, Ranked(sims, t, topK)) <= Keys(sims, Ranked(sims, DisplayThreshold(t), topK))
  }

  lemma {:induction false} AllQualify(sims: seq<real>, a: real, b: real)
    requires forall i :: 0 <= i < |sims| ==> sims[i] >= a && sims[i] >= b
    ensures Qualifying(sims, a) == Qualifying(sims, b)
  {
    if sims != [] {
      AllQualify(sims[..|sims| - 1], a, b);
    }
  }

  lemma OnlyOne(x: real, t: real)
    ensures Ranked([x], t, 1) == if x >= t then [0] else []
  {
    assert [x][..0] == [];
    assert Qualifying([x], t) == if x >= t then [0] else [];
  }

  /** Between the threshold and the higher one for display there is a face that is searched but
      not listed. */
  lemma Unlisted(x: real, t: real)
    requires t <= x < DisplayThreshold(t)
    ensures Verified([x], t, 0) && !SearchStarts([x], t, 1) && !Identified([x], t, 1)
  {
    OnlyOne(x, t);
    OnlyOne(x, DisplayThreshold(t));
  }

  lemma UnlistedFace(t: real, dim: nat) returns (v: Vector, q: real)
    requires -1.25 < t < 0.0 && dim >= 2
    ensures Genuine(dim, Axis(dim), 1.0, Single(v, q))
    ensures var sims := Sims(Axis(dim), 1.0, Single(v, q));
            Verified(sims, t, 0) && !SearchStarts(sims, t, 1) && !Identified(sims, t, 1)
  {
    var lo := if t < -1.0 then -1.0 else t;
    v, q := SimilarityBetween(lo, DisplayThreshold(t), dim);
    SingleSims(dim, v, q);
    Unlisted(Cosine(Axis(dim), v, 1.0, q), t);
  }

  lemma LowThresholdListsAll(dim: nat, probe: Vector, norm: real, gallery: seq<Entry>, t: real, topK: nat)
    requires Genuine(dim, probe, norm, gallery) && t <= -1.25
    ensures SearchStarts(Sims(probe, norm, gallery), t, topK)
  {
    SimsBounded(dim, probe, norm, gallery);
    AllQualify(Sims(probe, norm, gallery), t, DisplayThreshold(t));
  }

  /** For the same probe, gallery and top_k, the similarities of a search start those of an
      identification with the same threshold, exactly when the threshold is not between -1.25
      and 0. */
  lemma SearchStartsIdentifyExactlyFor(t: real, dim: nat)
    requires dim >= 2
    ensures (forall probe, norm, gallery, topK: nat :: Genuine(dim, probe, norm, gallery) ==>
               SearchStarts(Sims(probe, norm, gallery), t, topK))
       <==> t >= 0.0 || t <= -1.25
  {
    if t >= 0.0 || t <= -1.25 {
      forall probe, norm, gallery, topK: nat | Genuine(dim, probe, norm, gallery)
        ensures SearchStarts(Sims(probe, norm, gallery), t, topK)
      {
        if t >= 0.0 {
          SearchStartsIdentify(Sims(probe, norm, gallery), t, topK);
        } else {
          LowThresholdListsAll(dim, probe, norm, gallery, t, topK);
        }
      }
    } else {
      var v, q := UnlistedFace(t, dim);
    }
  }

  // ---------------------------------------------------------------- verification and identification

  lemma VerifiedIsIdentified(dim: nat, probe: Vector, norm: real, gallery: seq<Entry>, t: real, topK: nat, i: int)
    requires Genuine(dim, probe, norm, gallery) && topK >= 1 && Verified(Sims(probe, norm, gallery), t, i)
    requires t <= -1.25 || (t >= 0.0 && (Round4(t) >= t || t > 1.0))
    ensures Identified(Sims(probe, norm, gallery), t, topK)
  {
    var sims := Sims(probe, norm, gallery);
    SimsBounded(dim, probe, norm, gallery);
    RoundMonotone(t, sims[i]);
    RoundClose(sims[i]);
    assert Reaches(sims, DisplayThreshold(t), i);
    IdentifiedExactly(sims, t, topK);
  }

  /** A threshold that rounds down meets a face that rounds below it. */
  lemma RoundedBelow(t: real, dim: nat) returns (v: Vector, q: real)
    requires 0.0 <= t <= 1.0 && Round4(t) < t && dim >= 46
    ensures Genuine(dim, Axis(dim), 1.0, Single(v, q))
    ensures var sims := Sims(Axis(dim), 1.0, Single(v, q));
            Verified(sims, t, 0) && !Identified(sims, t, 1)
  {
    var g := Round4(t);
    var k := RoundedIsGrid(t);
    RoundClose(t);
    if t == g + 0.00005 {
      v, q := SimilarityExactly(2 * k + 1, dim);
    } else {
      v, q := SimilarityBetween(t, g + 0.00005, dim);
      RoundsTo(Cosine(Axis(dim), v, 1.0, q), g, k);
    }
    SingleSims(dim, v, q);
    IdentifiedExactly(Sims(Axis(dim), 1.0, Single(v, q)), t, 1);
  }

  /** A face that passes verification is identified, for every probe and gallery, exactly when
      the threshold is at most -1.25, is above 1, or is from 0 to 1 and does not round down. */
  lemma VerifiedForcesIdentifiedExactlyFor(t: real, dim: nat)
    requires dim >= 46
    ensures (forall probe, norm, gallery, topK: nat, i ::
               Genuine(dim, probe, norm, gallery) && topK >= 1 && Verified(Sims(probe, norm, gallery), t, i) ==>
                 Identified(Sims(probe, norm, gallery), t, topK))
       <==> t <= -1.25 || (t >= 0.0 && (Round4(t) >= t || t > 1.0))
  {
    if t <= -1.25 || (t >= 0.0 && (Round4(t) >= t || t > 1.0)) {
      forall probe, norm, gallery, topK: nat, i |
        Genuine(dim, probe, norm, gallery) && topK >= 1 && Verified(Sims(probe, norm, gallery), t, i)
        ensures Identified(Sims(probe, norm, gallery), t, topK)
      {
        VerifiedIsIdentified(dim, probe, norm, gallery, t, topK, i);
      }
    } else if t < 0.0 {
      var v, q := UnlistedFace(t, dim);
    } else {
      var v, q := RoundedBelow(t, dim);
    }
  }

  /** Someone is identified although no enrolled face passes verification. */
  ghost predicate OnlyIdentified(dim: nat, probe: Vector, norm: real, gallery: seq<Entry>, t: real, topK: nat) {
    && Genuine(dim, probe, norm, gallery) && Identified(Sims(probe, norm, gallery), t, topK)
    && forall i :: !Verified(Sims(probe, norm, gallery), t, i)
  }

  /** From 0 exclusively to 1, a threshold that rounds up by less than half a unit. */
  predicate RoundsUp(t: real) {
    0.0 < t <= 1.0 && t <= Round4(t) < t + 0.00005
  }

  /** Between two neighbouring grid points there is none. */
  lemma NextGridPoint(x: real, y: real, j: int, k: int)
    requires x * 10000.0 == j as real && y * 10000.0 == k as real && x < y
    ensures y - x >= 0.0001
  {
    assert j < k;
  }

  lemma NearMiss(x: real, t: real)
    requires DisplayThreshold(t) <= x < t && x <= 1.0 && Round4(x) >= t
    ensures RoundsUp(t)
  {
    RoundMonotone(x, t);
    RoundMonotone(x, 1.0);
    RoundFixesGrid(1.0, 10000);
    RoundClose(x);
    RoundClose(t);
    if Round4(x) < Round4(t) {
      var j := RoundedIsGrid(x);
      var k := RoundedIsGrid(t);
      NextGridPoint(Round4(x), Round4(t), j, k);
    }
  }

  lemma OnlyIdentifiedNeeds(dim: nat, probe: Vector, norm: real, gallery: seq<Entry>, t: real, topK: nat)
    requires OnlyIdentified(dim, probe, norm, gallery, t, topK)
    ensures RoundsUp(t)
  {
    var sims := Sims(probe, norm, gallery);
    SimsBounded(dim, probe, norm, gallery);
    IdentifiedIsClose(sims, t, topK);
    var best := Ranked(sims, DisplayThreshold(t), topK)[0];
    assert !Verified(sims, t, best);
    NearMiss(sims[best], t);
  }

  lemma OnlyIdentifiedFace(t: real, dim: nat) returns (v: Vector, q: real)
    requires RoundsUp(t) && dim >= 2
    ensures OnlyIdentified(dim, Axis(dim), 1.0, Single(v, q), t, 1)
  {
    var g := Round4(t);
    var k := RoundedIsGrid(t);
    var lo := if DisplayThreshold(t) < g - 0.00005 then g - 0.00005 else DisplayThreshold(t);
    v, q := SimilarityBetween(lo, t, dim);
    var x := Cosine(Axis(dim), v, 1.0, q);
    RoundsTo(x, g, k);
    SingleSims(dim, v, q);
    assert Reaches([x], DisplayThreshold(t), 0);
    IdentifiedExactly([x], t, 1);
  }

  /** Multiples of 0.0001 up to 1, such as the default threshold, are among these. */
  lemma GridRoundsUp(t: real, k: int)
    requires t * 10000.0 == k as real
    ensures RoundsUp(t) <==> 1 <= k <= 10000
  {
    RoundFixesGrid(t, k);
  }

  /** Identification accepts someone while verification refuses everyone, for some probe and
      gallery, exactly when the threshold rounds up. */
  lemma IdentifiedWithoutVerifiedExactlyFor(t: real, dim: nat)
    requires dim >= 2
    ensures (exists probe, norm, gallery, topK: nat :: OnlyIdentified(dim, probe, norm, gallery, t, topK))
       <==> RoundsUp(t)
  {
    if RoundsUp(t) {
      var v, q := OnlyIdentifiedFace(t, dim);
    } else if probe, norm, gallery, topK: nat :| OnlyIdentified(dim, probe, norm, gallery, t, topK) {
      OnlyIdentifiedNeeds(dim, probe, norm, gallery, t, topK);
    }
  }
}
