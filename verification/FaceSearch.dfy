/** One-to-many search, camera identification and one-to-one verification over the gallery.

    `sims` holds the similarity of the probe with each enrolled face, in gallery order.
    Responses carry similarities rounded to four decimals; the rounded value is the sort key.
 */
module FaceSearch {

  import opened Options
  import opened Ordering
  import opened Sequences
  import opened Similarity

  // ---------------------------------------------------------------- rounding

  /** Nearest integer, halves to the even one. */
  function Nearest(y: real): int {
    var f := y.Floor;
    var d := y - f as real;
    if d < 0.5 || (d == 0.5 && f % 2 == 0) then f else f + 1
  }

  function Round4(x: real): real {
    Nearest(x * 10000.0) as real / 10000.0
  }

  lemma NearestMonotone(x: real, y: real)
    requires x <= y
    ensures Nearest(x) <= Nearest(y)
  {
  }

  lemma RoundMonotone(x: real, y: real)
    requires x <= y
    ensures Round4(x) <= Round4(y)
  {
    NearestMonotone(x * 10000.0, y * 10000.0);
  }

  lemma RoundClose(x: real)
    ensures -0.00005 <= Round4(x) - x <= 0.00005
  {
  }

  /** Multiples of 0.0001 are left alone. */
  lemma RoundFixesGrid(x: real, k: int)
    requires x * 10000.0 == k as real
    ensures Round4(x) == x
  {
  }

  /** Of two multiples of 0.0001 equally near, the even one. */
  lemma RoundHalfEven(x: real, k: int)
    requires x * 10000.0 == k as real + 0.5
    ensures Round4(x) * 10000.0 == (if k % 2 == 0 then k else k + 1) as real
  {
    assert (x * 10000.0).Floor == k;
  }

  // ---------------------------------------------------------------- ranking

  function Key(sims: seq<real>, i: int): real {
    if 0 <= i < |sims| then Round4(sims[i]) else 0.0
  }

  /** Higher rounded similarity first; ties in gallery order. */
  predicate Ahead(sims: seq<real>, i: int, j: int) {
    Key(sims, i) > Key(sims, j) || (Key(sims, i) == Key(sims, j) && i <= j)
  }

  function Rank(sims: seq<real>): (int, int) -> bool {
    (i, j) => Ahead(sims, i, j)
  }

  lemma RankIsTotal(sims: seq<real>)
    ensures TotalOrder(Rank(sims))
  {
  }

  predicate Reaches(sims: seq<real>, threshold: real, i: int) {
    0 <= i < |sims| && sims[i] >= threshold
  }

  /** Gallery positions whose similarity reaches the threshold, in gallery order. */
  function Qualifying(sims: seq<real>, threshold: real): seq<int> {
    if sims == [] then []
    else
      var n := |sims| - 1;
      Qualifying(sims[..n], threshold) + (if sims[n] >= threshold then [n] else [])
  }

  /** The positions a response lists: the sort is stable, so ties keep gallery order. */
  function Ranked(sims: seq<real>, threshold: real, topK: nat): seq<int> {
    Take(Sort(Qualifying(sims, threshold), Rank(sims)), topK)
  }

  lemma {:induction false} QualifyingExactly(sims: seq<real>, threshold: real)
    ensures var q := Qualifying(sims, threshold);
            && Distinct(q)
            && forall i :: i in q <==> Reaches(sims, threshold, i)
  {
    if sims != [] {
      var n := |sims| - 1;
      QualifyingExactly(sims[..n], threshold);
      assert forall i :: Reaches(sims[..n], threshold, i) <==> Reaches(sims, threshold, i) && i != n;
      assert n !in Qualifying(sims[..n], threshold);
    }
  }

  lemma SortedQualifying(sims: seq<real>, threshold: real)
    ensures var s := Sort(Qualifying(sims, threshold), Rank(sims));
            && Distinct(s) && SortedBy(s, Rank(sims))
            && forall i :: i in s <==> Reaches(sims, threshold, i)
  {
    var q := Qualifying(sims, threshold);
    RankIsTotal(sims);
    SortSorts(q, Rank(sims));
    QualifyingExactly(sims, threshold);
    PermutationFacts(q, Sort(q, Rank(sims)));
  }

  /** What a top-k answer is, without saying how it is found: distinct positions that reach the
      threshold, as many as there are up to k, by falling rounded similarity and rising position,
      and no such position left out comes before one listed. */
  ghost predicate IsTopK(sims: seq<real>, threshold: real, topK: nat, r: seq<int>) {
    && |r| <= topK && Distinct(r)
    && (forall p :: 0 <= p < |r| ==> 0 <= r[p] < |sims| && sims[r[p]] >= threshold)
    && (|r| < topK ==> forall i :: 0 <= i < |sims| && sims[i] >= threshold ==> i in r)
    && (forall p, q :: 0 <= p < q < |r| ==>
          Round4(sims[r[p]]) > Round4(sims[r[q]]) || (Round4(sims[r[p]]) == Round4(sims[r[q]]) && r[p] < r[q]))
    && (forall i, p :: 0 <= i < |sims| && sims[i] >= threshold && i !in r && 0 <= p < |r| ==>
          Round4(sims[r[p]]) > Round4(sims[i]) || (Round4(sims[r[p]]) == Round4(sims[i]) && r[p] < i))
  }

  /** The rank of two positions, written out. */
  lemma AheadMeans(sims: seq<real>, i: int, j: int)
    requires 0 <= i < |sims| && 0 <= j < |sims|
    ensures Ahead(sims, i, j) && i != j <==>
              Round4(sims[i]) > Round4(sims[j]) || (Round4(sims[i]) == Round4(sims[j]) && i < j)
  {
  }

  lemma PrefixIsTopK(sims: seq<real>, threshold: real, topK: nat, s: seq<int>)
    requires Distinct(s) && SortedBy(s, Rank(sims))
    requires forall i :: i in s <==> Reaches(sims, threshold, i)
    ensures IsTopK(sims, threshold, topK, Take(s, topK))
  {
    var r := Take(s, topK);
    forall p | 0 <= p < |r| ensures Reaches(sims, threshold, r[p]) {
      assert s[p] in s;
    }
    forall p, q | 0 <= p < q < |r|
      ensures Round4(sims[r[p]]) > Round4(sims[r[q]]) || (Round4(sims[r[p]]) == Round4(sims[r[q]]) && r[p] < r[q])
    {
      assert Rank(sims)(s[p], s[q]);
      AheadMeans(sims, r[p], r[q]);
    }
    forall i, p | 0 <= i < |sims| && sims[i] >= threshold && i !in r && 0 <= p < |r|
      ensures Round4(sims[r[p]]) > Round4(sims[i]) || (Round4(sims[r[p]]) == Round4(sims[i]) && r[p] < i)
    {
      LeftOutIsBehind(sims, threshold, topK, s, i, p);
      AheadMeans(sims, r[p], i);
    }
  }

  lemma LeftOutIsBehind(sims: seq<real>, threshold: real, topK: nat, s: seq<int>, i: int, p: nat)
    requires SortedBy(s, Rank(sims)) && p < |Take(s, topK)| && i in s && i !in Take(s, topK)
    ensures Ahead(sims, s[p], i) && s[p] != i
  {
    var q :| 0 <= q < |s| && s[q] == i;
    assert Rank(sims)(s[p], s[q]);
  }

  /** The response is a top-k answer. */
  lemma RankedIsTopK(sims: seq<real>, threshold: real, topK: nat)
    ensures IsTopK(sims, threshold, topK, Ranked(sims, threshold, topK))
  {
    SortedQualifying(sims, threshold);
    PrefixIsTopK(sims, threshold, topK, Sort(Qualifying(sims, threshold), Rank(sims)));
  }

  function Without(q: seq<int>, r: seq<int>): seq<int> {
    if q == [] then []
    else
      Without(q[..|q| - 1], r) + (if q[|q| - 1] in r then [] else [q[|q| - 1]])
  }

  lemma {:induction false} WithoutExactly(q: seq<int>, r: seq<int>)
    requires Distinct(q)
    ensures Distinct(Without(q, r)) && forall i :: i in Without(q, r) <==> i in q && i !in r
  {
    if q != [] {
      var n := |q| - 1;
      assert q == q[..n] + [q[n]];
      WithoutExactly(q[..n], r);
      assert q[n] !in q[..n];
    }
  }

  lemma Partition(q: seq<int>, a: seq<int>, b: seq<int>)
    requires Distinct(q) && Distinct(a) && Distinct(b)
    requires forall i :: i in q <==> i in a || i in b
    requires forall i :: i in a ==> i !in b
    ensures multiset(q) == multiset(a + b)
  {
    forall i ensures multiset(q)[i] == multiset(a + b)[i] {
      DistinctCounts(q, i);
      DistinctCounts(a, i);
      DistinctCounts(b, i);
      assert (i in q <==> i in multiset(q)) && (i in a <==> i in multiset(a)) && (i in b <==> i in multiset(b));
      assert multiset(a + b)[i] == multiset(a)[i] + multiset(b)[i];
    }
  }

  lemma JoinSorted(sims: seq<real>, a: seq<int>, b: seq<int>)
    requires SortedBy(a, Rank(sims)) && SortedBy(b, Rank(sims))
    requires forall i, j :: i in a && j in b ==> Ahead(sims, i, j)
    ensures SortedBy(a + b, Rank(sims))
  {
  }

  /** A sorted part of the positions, with everything else behind it, is where the sort starts. */
  lemma SortSplits(sims: seq<real>, q: seq<int>, r: seq<int>)
    requires Distinct(q) && Distinct(r) && SortedBy(r, Rank(sims))
    requires forall i :: i in r ==> i in q
    requires forall i, j :: i in r && j in q && j !in r ==> Ahead(sims, i, j)
    ensures Sort(q, Rank(sims)) == r + Sort(Without(q, r), Rank(sims))
  {
    var rest := Without(q, r);
    var tail := Sort(rest, Rank(sims));
    RankIsTotal(sims);
    WithoutExactly(q, r);
    Partition(q, r, rest);
    SortSorts(q, Rank(sims));
    SortSorts(rest, Rank(sims));
    PermutationFacts(rest, tail);
    JoinSorted(sims, r, tail);
    assert multiset(r + tail) == multiset(r) + multiset(tail);
    assert multiset(r + rest) == multiset(r) + multiset(rest);
    SortedUnique(Sort(q, Rank(sims)), r + tail, Rank(sims));
  }

  /** There is only one top-k answer, the response. */
  lemma TopKIsUnique(sims: seq<real>, threshold: real, topK: nat, r: seq<int>)
    requires IsTopK(sims, threshold, topK, r)
    ensures r == Ranked(sims, threshold, topK)
  {
    var q := Qualifying(sims, threshold);
    QualifyingExactly(sims, threshold);
    TopKIsAhead(sims, threshold, topK, r);
    SortSplits(sims, q, r);
    if |r| < topK {
      NothingLeft(q, r);
    }
    TakeOfConcat(r, Sort(Without(q, r), Rank(sims)), topK);
  }

  lemma NothingLeft(q: seq<int>, r: seq<int>)
    requires Distinct(q) && forall i :: i in q ==> i in r
    ensures Without(q, r) == []
  {
  }

  lemma TopKIsAhead(sims: seq<real>, threshold: real, topK: nat, r: seq<int>)
    requires IsTopK(sims, threshold, topK, r)
    ensures SortedBy(r, Rank(sims))
    ensures forall i :: i in r ==> Reaches(sims, threshold, i)
    ensures forall i, j :: i in r && Reaches(sims, threshold, j) && j !in r ==> Ahead(sims, i, j)
  {
    forall p, q | 0 <= p < q < |r| ensures Ahead(sims, r[p], r[q]) {
      AheadMeans(sims, r[p], r[q]);
    }
    forall i, j | i in r && Reaches(sims, threshold, j) && j !in r ensures Ahead(sims, i, j) {
      var p :| 0 <= p < |r| && r[p] == i;
      AheadMeans(sims, r[p], j);
    }
  }

  lemma TakeOfConcat<T>(r: seq<T>, tail: seq<T>, k: nat)
    requires |r| <= k && (|r| < k ==> tail == [])
    ensures Take(r + tail, k) == r
  {
  }

  // ---------------------------------------------------------------- agreement of the endpoints

  function Keys(sims: seq<real>, r: seq<int>): (ks: seq<real>)
    ensures |ks| == |r| && forall p :: 0 <= p < |r| ==> ks[p] == Key(sims, r[p])
  {
    Mapped(r, i => Key(sims, i))
  }

  /** The multiset of keys depends only on which positions are listed. */
  lemma KeysPermute(sims: seq<real>, a: seq<int>, b: seq<int>)
    requires multiset(a) == multiset(b)
    ensures multiset(Keys(sims, a)) == multiset(Keys(sims, b))
  {
    MappedPermutes(a, b, i => Key(sims, i));
  }

  lemma KeysConcat(sims: seq<real>, a: seq<int>, b: seq<int>)
    ensures Keys(sims, a + b) == Keys(sims, a) + Keys(sims, b)
  {
  }

  predicate AtLeast(x: real, y: real) {
    x >= y
  }

  lemma SortedKeys(sims: seq<real>, r: seq<int>)
    requires SortedBy(r, Rank(sims))
    ensures SortedBy(Keys(sims, r), AtLeast)
  {
  }

  /** Positions that reach the lower threshold only. */
  function Between(sims: seq<real>, low: real, high: real): seq<int> {
    Without(Qualifying(sims, low), Qualifying(sims, high))
  }

  lemma SplitByThreshold(sims: seq<real>, low: real, high: real)
    requires low <= high
    ensures multiset(Qualifying(sims, low)) == multiset(Qualifying(sims, high) + Between(sims, low, high))
    ensures forall i :: i in Between(sims, low, high) ==> Reaches(sims, low, i) && sims[i] < high
  {
    var q, a := Qualifying(sims, low), Qualifying(sims, high);
    QualifyingExactly(sims, low);
    QualifyingExactly(sims, high);
    WithoutExactly(q, a);
    Partition(q, a, Between(sims, low, high));
  }

  lemma JoinKeys(xs: seq<real>, ys: seq<real>, cut: real)
    requires SortedBy(xs, AtLeast) && SortedBy(ys, AtLeast)
    requires (forall i :: 0 <= i < |xs| ==> xs[i] >= cut) && (forall j :: 0 <= j < |ys| ==> ys[j] <= cut)
    ensures SortedBy(xs + ys, AtLeast)
  {
  }

  lemma SortedQualifyingKeys(sims: seq<real>, q: seq<int>)
    ensures SortedBy(Keys(sims, Sort(q, Rank(sims))), AtLeast)
  {
    RankIsTotal(sims);
    SortSorts(q, Rank(sims));
    SortedKeys(sims, Sort(q, Rank(sims)));
  }

  /** Sorting with a lower threshold appends to the list of rounded similarities. */
  lemma LowerThresholdAppends(sims: seq<real>, low: real, high: real)
    requires low <= high
    ensures var all, a := Sort(Qualifying(sims, low), Rank(sims)), Sort(Qualifying(sims, high), Rank(sims));
            var rest := Sort(Between(sims, low, high), Rank(sims));
            Keys(sims, all) == Keys(sims, a) + Keys(sims, rest)
  {
    var all, a := Sort(Qualifying(sims, low), Rank(sims)), Sort(Qualifying(sims, high), Rank(sims));
    var rest := Sort(Between(sims, low, high), Rank(sims));
    SplitByThreshold(sims, low, high);
    assert multiset(all) == multiset(a + rest) by {
      assert multiset(a + rest) == multiset(a) + multiset(rest);
      assert multiset(Qualifying(sims, high) + Between(sims, low, high))
          == multiset(Qualifying(sims, high)) + multiset(Between(sims, low, high));
    }
    KeysPermute(sims, all, a + rest);
    KeysConcat(sims, a, rest);
    SortedQualifyingKeys(sims, Qualifying(sims, low));
    KeysAround(sims, low, high);
    assert TotalOrder(AtLeast);
    SortedUnique(Keys(sims, all), Keys(sims, a) + Keys(sims, rest), AtLeast);
  }

  lemma KeysAbove(sims: seq<real>, r: seq<int>, cut: real)
    requires forall i :: i in r ==> Reaches(sims, cut, i)
    ensures forall p :: 0 <= p < |Keys(sims, r)| ==> Keys(sims, r)[p] >= Round4(cut)
  {
    forall p | 0 <= p < |r| ensures Keys(sims, r)[p] >= Round4(cut) {
      assert r[p] in r;
      RoundMonotone(cut, sims[r[p]]);
    }
  }

  lemma KeysBelow(sims: seq<real>, r: seq<int>, cut: real)
    requires forall i :: i in r ==> 0 <= i < |sims| && sims[i] < cut
    ensures forall p :: 0 <= p < |Keys(sims, r)| ==> Keys(sims, r)[p] <= Round4(cut)
  {
    forall p | 0 <= p < |r| ensures Keys(sims, r)[p] <= Round4(cut) {
      assert r[p] in r;
      RoundMonotone(sims[r[p]], cut);
    }
  }

  lemma KeysAround(sims: seq<real>, low: real, high: real)
    requires low <= high
    ensures var a := Sort(Qualifying(sims, high), Rank(sims));
            var rest := Sort(Between(sims, low, high), Rank(sims));
            SortedBy(Keys(sims, a) + Keys(sims, rest), AtLeast)
  {
    var a, rest := Sort(Qualifying(sims, high), Rank(sims)), Sort(Between(sims, low, high), Rank(sims));
    SortedQualifyingKeys(sims, Qualifying(sims, high));
    SortedQualifyingKeys(sims, Between(sims, low, high));
    QualifyingExactly(sims, high);
    SplitByThreshold(sims, low, high);
    PermutationFacts(Qualifying(sims, high), a);
    PermutationFacts(Between(sims, low, high), rest);
    KeysAbove(sims, a, high);
    KeysBelow(sims, rest, high);
    JoinKeys(Keys(sims, a), Keys(sims, rest), Round4(high));
  }

  lemma KeysTake(sims: seq<real>, r: seq<int>, k: nat)
    ensures Keys(sims, Take(r, k)) == Take(Keys(sims, r), k)
  {
  }

  /** The threshold below which identification still lists a face. */
  function DisplayThreshold(t: real): real {
    t * 0.8
  }

  /** For the same probe, gallery and top_k, the similarities listed by a search with the
      default threshold start the list of an identification. */
  lemma SearchStartsIdentify(sims: seq<real>, t: real, topK: nat)
    requires t >= 0.0
    ensures Keys(sims, Ranked(sims, t, topK)) <= Keys(sims, Ranked(sims, DisplayThreshold(t), topK))
  {
    var low := DisplayThreshold(t);
    LowerThresholdAppends(sims, low, t);
    var all, a := Sort(Qualifying(sims, low), Rank(sims)), Sort(Qualifying(sims, t), Rank(sims));
    KeysTake(sims, all, topK);
    KeysTake(sims, a, topK);
    TakePrefix(Keys(sims, a), Keys(sims, Sort(Between(sims, low, t), Rank(sims))), topK);
  }

  lemma TakePrefix<T>(a: seq<T>, b: seq<T>, k: nat)
    ensures Take(a, k) <= Take(a + b, k)
  {
  }

  /** Identification takes the first face listed, if its rounded similarity reaches t. */
  predicate Identified(sims: seq<real>, t: real, topK: nat) {
    var r := Ranked(sims, DisplayThreshold(t), topK);
    r != [] && Key(sims, r[0]) >= t
  }

  predicate Verified(sims: seq<real>, t: real, i: int) {
    Reaches(sims, t, i)
  }

  /** Someone is identified exactly when some enrolled face is close enough to be listed and
      rounds to at least the threshold. */
  lemma IdentifiedExactly(sims: seq<real>, t: real, topK: nat)
    requires topK >= 1
    ensures Identified(sims, t, topK) <==>
              exists i :: Reaches(sims, DisplayThreshold(t), i) && Round4(sims[i]) >= t
  {
    var r := Ranked(sims, DisplayThreshold(t), topK);
    RankedIsTopK(sims, DisplayThreshold(t), topK);
    if i :| Reaches(sims, DisplayThreshold(t), i) && Round4(sims[i]) >= t {
      if i in r {
        var p :| 0 <= p < |r| && r[p] == i;
        assert p > 0 ==> Ahead(sims, r[0], r[p]);
      } else {
        assert |r| == topK && Ahead(sims, r[0], i);
      }
    } else if r != [] {
      assert Reaches(sims, DisplayThreshold(t), r[0]);
    }
  }

  /** Whoever is identified, the first face listed, is listed by its exact similarity and is at
      most half a unit of the last decimal short of the threshold. */
  lemma IdentifiedIsClose(sims: seq<real>, t: real, topK: nat)
    requires Identified(sims, t, topK)
    ensures var best := Ranked(sims, DisplayThreshold(t), topK)[0];
            0 <= best < |sims| && sims[best] >= t - 0.00005 && sims[best] >= DisplayThreshold(t)
  {
    var best := Ranked(sims, DisplayThreshold(t), topK)[0];
    RankedIsTopK(sims, DisplayThreshold(t), topK);
    assert Reaches(sims, DisplayThreshold(t), best);
    RoundClose(sims[best]);
  }

  // ---------------------------------------------------------------- the endpoints

  /** An enrolled face with the norm of its embedding. */
  datatype Entry = Entry(user: string, name: Option<string>, embedding: Vector, norm: real)

  datatype Match = Match(user: string, similarity: real, name: Option<string>)

  ghost predicate SameDimension(probe: Vector, gallery: seq<Entry>) {
    forall i :: 0 <= i < |gallery| ==> |gallery[i].embedding| == |probe|
  }

  /** Each enrolled face is compared with the probe, in gallery order. */
  ghost predicate AreSims(sims: seq<real>, probe: Vector, norm: real, gallery: seq<Entry>)
    requires SameDimension(probe, gallery)
  {
    && |sims| == |gallery|
    && forall i :: 0 <= i < |gallery| ==> sims[i] == Cosine(probe, gallery[i].embedding, norm, gallery[i].norm)
  }

  ghost function Sims(probe: Vector, norm: real, gallery: seq<Entry>): (sims: seq<real>)
    requires SameDimension(probe, gallery)
    ensures AreSims(sims, probe, norm, gallery)
  {
    seq(|gallery|, i requires 0 <= i < |gallery| => Cosine(probe, gallery[i].embedding, norm, gallery[i].norm))
  }

  function Listed(gallery: seq<Entry>, sims: seq<real>, r: seq<int>): (ms: seq<Match>)
    requires |sims| == |gallery| && forall p :: 0 <= p < |r| ==> 0 <= r[p] < |gallery|
    ensures |ms| == |r|
    ensures forall p :: 0 <= p < |r| ==>
              ms[p] == Match(gallery[r[p]].user, Round4(sims[r[p]]), gallery[r[p]].name)
  {
    seq(|r|, p requires 0 <= p < |r| => Match(gallery[r[p]].user, Key(sims, r[p]), gallery[r[p]].name))
  }

  /** The matches are the gallery entries at those positions. */
  ghost predicate ShowsEach(matches: seq<Match>, gallery: seq<Entry>, sims: seq<real>, r: seq<int>) {
    && |sims| == |gallery| && |matches| == |r|
    && forall p :: 0 <= p < |r| ==>
         && 0 <= r[p] < |gallery|
         && matches[p] == Match(gallery[r[p]].user, Round4(sims[r[p]]), gallery[r[p]].name)
  }

  /** The answer lists, best first, exactly the `topK` best gallery entries that reach the
      threshold, each with its user, its name and its rounded similarity to the probe. */
  ghost predicate ListsTopK(matches: seq<Match>, probe: Vector, norm: real, gallery: seq<Entry>, t: real, topK: nat)
    requires SameDimension(probe, gallery)
  {
    exists sims, r ::
      AreSims(sims, probe, norm, gallery) && IsTopK(sims, t, topK, r) && ShowsEach(matches, gallery, sims, r)
  }

  /** The loop both endpoints share, then the stable sort and the cut. */
  method Rankings(probe: Vector, norm: real, gallery: seq<Entry>, threshold: real, topK: nat)
    returns (matches: seq<Match>)
    requires SameDimension(probe, gallery)
    ensures ListsTopK(matches, probe, norm, gallery, threshold, topK)
  {
    var sims, found: seq<int> := [], [];
    for i := 0 to |gallery|
      invariant |sims| == i && found == Qualifying(sims, threshold)
      invariant forall j :: 0 <= j < i ==> sims[j] == Cosine(probe, gallery[j].embedding, norm, gallery[j].norm)
    {
      var similarity := Cosine(probe, gallery[i].embedding, norm, gallery[i].norm);
      ghost var before := sims;
      sims := sims + [similarity];
      assert sims[..i] == before;
      if similarity >= threshold {
        found := found + [i];
      }
    }
    RankedIsTopK(sims, threshold, topK);
    var order := Take(Sort(found, Rank(sims)), topK);
    matches := Listed(gallery, sims, order);
  }

  method Search(probe: Vector, norm: real, gallery: seq<Entry>, threshold: Option<real>, default: real, topK: nat)
    returns (matches: seq<Match>)
    requires SameDimension(probe, gallery)
    ensures var t := if threshold.Some? then threshold.value else default;
            ListsTopK(matches, probe, norm, gallery, t, topK)
  {
    var t := if threshold.Some? then threshold.value else default;
    matches := Rankings(probe, norm, gallery, t, topK);
  }

  /** An enrolled face close enough to be listed rounds to at least the threshold. */
  ghost predicate SomeFaceRoundsTo(probe: Vector, norm: real, gallery: seq<Entry>, t: real)
    requires SameDimension(probe, gallery)
  {
    exists i :: 0 <= i < |gallery| && RoundsToAtLeast(Cosine(probe, gallery[i].embedding, norm, gallery[i].norm), t)
  }

  predicate RoundsToAtLeast(x: real, t: real) {
    x >= t * 0.8 && Round4(x) >= t
  }

  lemma HeadIdentifies(matches: seq<Match>, probe: Vector, norm: real, gallery: seq<Entry>, t: real, low: real, topK: nat)
    requires SameDimension(probe, gallery) && ListsTopK(matches, probe, norm, gallery, low, topK)
    requires low == DisplayThreshold(t)
    ensures Identified(Sims(probe, norm, gallery), t, topK) <==> |matches| > 0 && matches[0].similarity >= t
  {
    var sims, r :|
      AreSims(sims, probe, norm, gallery) && IsTopK(sims, low, topK, r) && ShowsEach(matches, gallery, sims, r);
    assert sims == Sims(probe, norm, gallery);
    TopKIsUnique(sims, low, topK, r);
    FirstIdentifies(matches, gallery, sims, r, t);
  }

  lemma FirstIdentifies(matches: seq<Match>, gallery: seq<Entry>, sims: seq<real>, r: seq<int>, t: real)
    requires ShowsEach(matches, gallery, sims, r)
    ensures r != [] && Key(sims, r[0]) >= t <==> |matches| > 0 && matches[0].similarity >= t
  {
  }

  lemma IdentifiedFace(probe: Vector, norm: real, gallery: seq<Entry>, t: real)
    requires SameDimension(probe, gallery)
    ensures var sims := Sims(probe, norm, gallery);
            (exists i :: Reaches(sims, DisplayThreshold(t), i) && Round4(sims[i]) >= t)
            <==> SomeFaceRoundsTo(probe, norm, gallery, t)
  {
    var sims := Sims(probe, norm, gallery);
    if i :| Reaches(sims, DisplayThreshold(t), i) && Round4(sims[i]) >= t {
      assert RoundsToAtLeast(sims[i], t);
    } else if i :| 0 <= i < |gallery| && RoundsToAtLeast(Cosine(probe, gallery[i].embedding, norm, gallery[i].norm), t) {
      assert Reaches(sims, DisplayThreshold(t), i);
    }
  }

  lemma IdentifyMeans(matches: seq<Match>, probe: Vector, norm: real, gallery: seq<Entry>, t: real, topK: nat)
    requires SameDimension(probe, gallery) && ListsTopK(matches, probe, norm, gallery, t * 0.8, topK)
    ensures Identified(Sims(probe, norm, gallery), t, topK) <==> |matches| > 0 && matches[0].similarity >= t
    ensures topK >= 1 ==>
              (|matches| > 0 && matches[0].similarity >= t <==> SomeFaceRoundsTo(probe, norm, gallery, t))
  {
    HeadIdentifies(matches, probe, norm, gallery, t, t * 0.8, topK);
    if topK >= 1 {
      IdentifiedExactly(Sims(probe, norm, gallery), t, topK);
      IdentifiedFace(probe, norm, gallery, t);
    }
  }

  method Identify(probe: Vector, norm: real, gallery: seq<Entry>, t: real, topK: nat)
    returns (identified: bool, matches: seq<Match>, best: Option<Match>)
    requires SameDimension(probe, gallery)
    ensures identified <==> |matches| > 0 && matches[0].similarity >= t
    ensures best == if identified then Some(matches[0]) else None
    ensures identified <==> Identified(Sims(probe, norm, gallery), t, topK)
    ensures topK >= 1 ==> (identified <==> SomeFaceRoundsTo(probe, norm, gallery, t))
    ensures ListsTopK(matches, probe, norm, gallery, t * 0.8, topK)
  {
    matches := Rankings(probe, norm, gallery, t * 0.8, topK);
    best := None;
    if |matches| > 0 && matches[0].similarity >= t {
      best := Some(matches[0]);
    }
    identified := best.Some?;
    IdentifyMeans(matches, probe, norm, gallery, t, topK);
  }

  /** None stands for the answer that the user is not enrolled. */
  method Verify(probe: Vector, norm: real, stored: Option<Entry>, t: real)
    returns (verdict: Option<bool>, similarity: real)
    requires stored.Some? ==> |stored.value.embedding| == |probe|
    ensures verdict.None? <==> stored.None?
    ensures stored.Some? ==>
              var exact := Cosine(probe, stored.value.embedding, norm, stored.value.norm);
              verdict.value == (exact >= t) && similarity == Round4(exact)
    ensures stored.Some? ==> verdict.value == Verified(Sims(probe, norm, [stored.value]), t, 0)
  {
    if stored.None? {
      return None, 0.0;
    }
    var exact := Cosine(probe, stored.value.embedding, norm, stored.value.norm);
    return Some(exact >= t), Round4(exact);
  }

  function QualityOf(quality: seq<real>, i: int): real {
    if 0 <= i < |quality| then quality[i] else 0.0
  }

  predicate Better(quality: seq<real>, i: int, j: int) {
    QualityOf(quality, i) > QualityOf(quality, j) || (QualityOf(quality, i) == QualityOf(quality, j) && i <= j)
  }

  function ByQuality(quality: seq<real>): (int, int) -> bool {
    (i, j) => Better(quality, i, j)
  }

  lemma ByQualityIsTotal(quality: seq<real>)
    ensures TotalOrder(ByQuality(quality))
  {
  }

  function Positions(n: nat): (ps: seq<int>)
    ensures |ps| == n && forall j :: 0 <= j < n ==> ps[j] == j
  {
    seq(n, i => i)
  }

  lemma BestComesFirst(quality: seq<real>)
    requires |quality| > 0
    ensures var sorted := Sort(Positions(|quality|), ByQuality(quality));
            && |sorted| == |quality| && 0 <= sorted[0] < |quality|
            && forall j :: 0 <= j < |quality| ==> sorted[0] == j || Better(quality, sorted[0], j)
  {
    var faces := Positions(|quality|);
    var sorted := Sort(faces, ByQuality(quality));
    ByQualityIsTotal(quality);
    SortSorts(faces, ByQuality(quality));
    PermutationFacts(faces, sorted);
    assert sorted[0] in sorted;
    forall j | 0 <= j < |quality| ensures sorted[0] == j || Better(quality, sorted[0], j) {
      assert faces[j] in faces && j in sorted;
      var p :| 0 <= p < |sorted| && sorted[p] == j;
      assert p > 0 ==> ByQuality(quality)(sorted[0], sorted[p]);
    }
  }

  /** Of several detected faces the one of best quality is used, the first if there are ties. */
  method BestFace(quality: seq<real>) returns (best: nat)
    requires |quality| > 0
    ensures best < |quality|
    ensures forall j :: 0 <= j < |quality| ==> quality[j] <= quality[best]
    ensures forall j :: 0 <= j < best ==> quality[j] < quality[best]
  {
    if |quality| == 1 {
      return 0;
    }
    var sorted := Sort(Positions(|quality|), ByQuality(quality));
    BestComesFirst(quality);
    best := sorted[0];
    forall j | 0 <= j < |quality|
      ensures quality[j] <= quality[best] && (j < best ==> quality[j] < quality[best])
    {
      assert j == best || Better(quality, best, j);
    }
  }
}
