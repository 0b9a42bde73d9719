/** The payload signed for an image upload.

    A Go map is enumerated in an unspecified order, so the enumeration is a parameter.  A
    string is a sequence of bytes, written as characters; the digest of the payload is not
    part of the model.
 */
module UploadSigning {

  import opened Ordering
  import opened Sequences

  type Params = map<string, string>

  const EXCLUDED: set<string> := {"api_key", "file", "resource_type"}

  predicate IsSigned(params: Params, k: string) {
    k in params && k !in EXCLUDED && params[k] != ""
  }

  function Pair(params: Params, k: string): string {
    if k in params then k + "=" + params[k] else ""
  }

  // ---------------------------------------------------------------- string order

  /** Lexicographic order by bytes. */
  predicate LexLe(a: string, b: string) {
    a == [] || (b != [] && (a[0] < b[0] || (a[0] == b[0] && LexLe(a[1..], b[1..]))))
  }

  lemma {:induction false} LexTotal(a: string, b: string)
    ensures LexLe(a, b) || LexLe(b, a)
  {
    if a != [] && b != [] {
      LexTotal(a[1..], b[1..]);
    }
  }

  lemma {:induction false} LexAntisymmetric(a: string, b: string)
    requires LexLe(a, b) && LexLe(b, a)
    ensures a == b
  {
    if a != [] && b != [] {
      LexAntisymmetric(a[1..], b[1..]);
      assert a == [a[0]] + a[1..] && b == [b[0]] + b[1..];
    }
  }

  lemma {:induction false} LexTransitive(a: string, b: string, c: string)
    requires LexLe(a, b) && LexLe(b, c)
    ensures LexLe(a, c)
  {
    if a != [] && a[0] == b[0] == c[0] {
      LexTransitive(a[1..], b[1..], c[1..]);
    }
  }

  lemma LexIsTotalOrder()
    ensures TotalOrder(LexLe)
  {
    forall x, y ensures LexLe(x, y) || LexLe(y, x) {
      LexTotal(x, y);
    }
    forall x, y | LexLe(x, y) && LexLe(y, x) ensures x == y {
      LexAntisymmetric(x, y);
    }
    forall x, y, z | LexLe(x, y) && LexLe(y, z) ensures LexLe(x, z) {
      LexTransitive(x, y, z);
    }
  }

  /** A prefix comes first; otherwise the first byte that differs decides. */
  lemma {:induction false} LexMeans(a: string, b: string)
    ensures LexLe(a, b) <==> a <= b || exists i :: DiffersAt(a, b, i) && a[i] < b[i]
  {
    if a != [] && b != [] && a[0] == b[0] {
      LexMeans(a[1..], b[1..]);
      if i :| DiffersAt(a, b, i) && a[i] < b[i] {
        assert DiffersAt(a[1..], b[1..], i - 1);
      }
      if i :| DiffersAt(a[1..], b[1..], i) && a[1..][i] < b[1..][i] {
        assert DiffersAt(a, b, i + 1);
      }
      assert a <= b <==> a[1..] <= b[1..] by {
        assert a == [a[0]] + a[1..] && b == [b[0]] + b[1..];
      }
    } else if a != [] && b != [] {
      assert DiffersAt(a, b, 0);
      assert forall i :: DiffersAt(a, b, i) ==> i == 0;
    }
  }

  predicate DiffersAt(a: string, b: string, i: int) {
    0 <= i < |a| && i < |b| && a[i] != b[i] && forall j :: 0 <= j < i ==> a[j] == b[j]
  }

  // ---------------------------------------------------------------- the payload

  /** The order in which a map is enumerated: each key once. */
  ghost predicate Enumerates(order: seq<string>, params: Params) {
    Distinct(order) && forall k :: k in order <==> k in params
  }

  function Kept(params: Params, order: seq<string>): (ks: seq<string>)
    ensures forall k :: k in ks <==> k in order && IsSigned(params, k)
  {
    if order == [] then []
    else
      var n := |order| - 1;
      assert order == order[..n] + [order[n]];
      Kept(params, order[..n]) + (if IsSigned(params, order[n]) then [order[n]] else [])
  }

  function Pairs(params: Params, ks: seq<string>): seq<string> {
    Mapped(ks, k => Pair(params, k))
  }

  function Payload(params: Params, order: seq<string>, secret: string): string {
    Joined(Sort(Pairs(params, Kept(params, order)), LexLe), "&") + secret
  }

  /** The parameters to sign, each once: those with a value, except the three excluded ones. */
  ghost predicate AreSignedKeys(ks: seq<string>, params: Params) {
    && Distinct(ks)
    && forall k :: k in ks <==>
         k in params && k != "api_key" && k != "file" && k != "resource_type" && params[k] != ""
  }

  /** Each key with its value. */
  ghost predicate AreTexts(texts: seq<string>, ks: seq<string>, params: Params) {
    && |texts| == |ks|
    && forall i :: 0 <= i < |ks| ==> ks[i] in params && texts[i] == ks[i] + "=" + params[ks[i]]
  }

  /** What is signed, without saying how it is found: the texts of exactly the parameters to
      sign, ascending, joined with ampersands, and the secret. */
  ghost predicate IsPayload(payload: string, params: Params, secret: string) {
    exists ks, texts, parts ::
      && AreSignedKeys(ks, params) && AreTexts(texts, ks, params)
      && multiset(parts) == multiset(texts) && SortedBy(parts, LexLe)
      && payload == Joined(parts, "&") + secret
  }

  method SignPayload(params: Params, order: seq<string>, secret: string) returns (payload: string)
    requires forall k :: k in order ==> k in params
    ensures payload == Payload(params, order, secret)
    ensures Enumerates(order, params) ==> IsPayload(payload, params, secret)
  {
    var pairs: seq<string> := [];
    for i := 0 to |order|
      invariant pairs == Pairs(params, Kept(params, order[..i]))
    {
      var k := order[i];
      var v := params[k];
      ghost var before := Kept(params, order[..i]);
      assert order[..i + 1][..i] == order[..i];
      if k !in EXCLUDED && v != "" {
        pairs := pairs + [k + "=" + v];
        assert Kept(params, order[..i + 1]) == before + [k];
      }
    }
    assert order[..|order|] == order;
    pairs := Sort(pairs, LexLe);
    payload := Joined(pairs, "&") + secret;
    if Enumerates(order, params) {
      PayloadExactly(payload, params, order, secret);
    }
  }

  lemma {:induction false} KeptDistinct(params: Params, order: seq<string>)
    requires Distinct(order)
    ensures Distinct(Kept(params, order))
  {
    if order != [] {
      var n := |order| - 1;
      KeptDistinct(params, order[..n]);
      assert order[n] !in order[..n];
    }
  }

  lemma SameMembers<T>(a: seq<T>, b: seq<T>)
    requires Distinct(a) && Distinct(b) && forall x :: x in a <==> x in b
    ensures multiset(a) == multiset(b)
  {
    forall x ensures multiset(a)[x] == multiset(b)[x] {
      DistinctCounts(a, x);
      DistinctCounts(b, x);
      assert (x in a <==> x in multiset(a)) && (x in b <==> x in multiset(b));
    }
  }

  /** The two maps sign the same parameters with the same values. */
  ghost predicate SignAlike(p: Params, p': Params) {
    forall k :: (IsSigned(p, k) <==> IsSigned(p', k)) && (IsSigned(p, k) ==> p[k] == p'[k])
  }

  lemma PairsPermute(p: Params, p': Params, a: seq<string>, b: seq<string>)
    requires multiset(a) == multiset(b)
    requires forall k :: k in a ==> k in p && k in p' && p[k] == p'[k]
    ensures multiset(Pairs(p, a)) == multiset(Pairs(p', b))
  {
    assert forall i :: 0 <= i < |a| ==> a[i] in a && Pair(p, a[i]) == Pair(p', a[i]);
    assert Pairs(p, a) == Pairs(p', a);
    MappedPermutes(a, b, k => Pair(p', k));
  }

  /** The payload depends only on the signed parameters: not on the enumeration of the map, and
      not on excluded or empty parameters. */
  lemma PayloadIsCanonical(p: Params, order: seq<string>, p': Params, order': seq<string>, secret: string)
    requires Enumerates(order, p) && Enumerates(order', p') && SignAlike(p, p')
    ensures Payload(p, order, secret) == Payload(p', order', secret)
  {
    var a, b := Kept(p, order), Kept(p', order');
    KeptDistinct(p, order);
    KeptDistinct(p', order');
    assert forall k :: k in a <==> IsSigned(p, k);
    assert forall k :: k in b <==> IsSigned(p', k);
    SameMembers(a, b);
    PairsPermute(p, p', a, b);
    LexIsTotalOrder();
    SortOfPermutation(Pairs(p, a), Pairs(p', b), LexLe);
  }

  lemma KeptIsSigned(params: Params, order: seq<string>)
    requires Enumerates(order, params)
    ensures AreSignedKeys(Kept(params, order), params)
    ensures AreTexts(Pairs(params, Kept(params, order)), Kept(params, order), params)
  {
    KeptDistinct(params, order);
    var ks := Kept(params, order);
    forall i | 0 <= i < |ks| ensures ks[i] in params && Pairs(params, ks)[i] == ks[i] + "=" + params[ks[i]] {
      assert ks[i] in ks;
    }
  }

  lemma TextsPermute(params: Params, ks: seq<string>, texts: seq<string>, order: seq<string>)
    requires Enumerates(order, params) && AreSignedKeys(ks, params) && AreTexts(texts, ks, params)
    ensures multiset(texts) == multiset(Pairs(params, Kept(params, order)))
  {
    KeptIsSigned(params, order);
    SameMembers(ks, Kept(params, order));
    PairsPermute(params, params, ks, Kept(params, order));
    assert texts == Pairs(params, ks);
  }

  /** The payload is that one string. */
  lemma PayloadExactly(payload: string, params: Params, order: seq<string>, secret: string)
    requires Enumerates(order, params)
    ensures IsPayload(payload, params, secret) <==> payload == Payload(params, order, secret)
  {
    var pairs := Pairs(params, Kept(params, order));
    LexIsTotalOrder();
    SortSorts(pairs, LexLe);
    if ks, texts, parts :|
      && AreSignedKeys(ks, params) && AreTexts(texts, ks, params)
      && multiset(parts) == multiset(texts) && SortedBy(parts, LexLe)
      && payload == Joined(parts, "&") + secret
    {
      TextsPermute(params, ks, texts, order);
      SortedUnique(parts, Sort(pairs, LexLe), LexLe);
    } else {
      KeptIsSigned(params, order);
    }
  }

  /** Different secrets give different payloads. */
  lemma SecretsAreTold(params: Params, order: seq<string>, secret: string, secret': string)
    ensures Payload(params, order, secret) == Payload(params, order, secret') <==> secret == secret'
  {
    var front := Joined(SignedPairs(params, order), "&");
    assert (front + secret)[|front|..] == secret && (front + secret')[|front|..] == secret';
  }

  // ---------------------------------------------------------------- what a payload determines

  /** No signed key contains a separator, and no signed value contains an ampersand. */
  ghost predicate Plain(params: Params) {
    forall k :: IsSigned(params, k) ==> '=' !in k && '&' !in k && '&' !in params[k]
  }

  ghost predicate Unsplit(parts: seq<string>) {
    forall i :: 0 <= i < |parts| ==> parts[i] != "" && '&' !in parts[i]
  }

  /** Of two ways to split a string at a separator, the longer front and the longer back
      contain the separator. */
  lemma SplitTwice(x: string, sep: char, a: string, y: string, b: string)
    requires x + ([sep] + a) == y + ([sep] + b) && |x| < |y|
    ensures sep in a && sep in y
  {
    var left, right := x + ([sep] + a), y + ([sep] + b);
    assert left[|y|] == right[|y|] == sep && left[|y|] == a[|y| - |x| - 1];
    assert right[|x|] == left[|x|] == sep && right[|x|] == y[|x|];
  }

  lemma SplitAlike(x: string, sep: char, a: string, y: string, b: string)
    requires x + ([sep] + a) == y + ([sep] + b) && |x| == |y|
    ensures x == y && a == b
  {
    var left, right := x + ([sep] + a), y + ([sep] + b);
    assert left[..|x|] == x && right[..|y|] == y;
    assert left[|x| + 1..] == a && right[|y| + 1..] == b;
  }

  /** What follows the last ampersand is determined, and so is what precedes it. */
  lemma LastPart(x: string, a: string, y: string, b: string)
    requires '&' !in a && '&' !in b && x + ("&" + a) == y + ("&" + b)
    ensures x == y && a == b
  {
    if |x| < |y| {
      SplitTwice(x, '&', a, y, b);
    } else if |y| < |x| {
      SplitTwice(y, '&', b, x, a);
    } else {
      SplitAlike(x, '&', a, y, b);
    }
  }

  lemma OnePart(a: string, y: string, b: string)
    requires '&' !in a
    ensures a != y + ("&" + b)
  {
    assert (y + ("&" + b))[|y|] == '&';
  }

  lemma {:induction false} JoinedDetermines(xs: seq<string>, ys: seq<string>)
    requires Unsplit(xs) && Unsplit(ys) && Joined(xs, "&") == Joined(ys, "&")
    ensures xs == ys
  {
    var m, n := |xs| - 1, |ys| - 1;
    if m <= 0 || n <= 0 {
      if m >= 1 {
        OnePart(Joined(ys, "&"), Joined(xs[..m], "&"), xs[m]);
      } else if n >= 1 {
        OnePart(Joined(xs, "&"), Joined(ys[..n], "&"), ys[n]);
      }
    } else {
      LastPart(Joined(xs[..m], "&"), xs[m], Joined(ys[..n], "&"), ys[n]);
      JoinedDetermines(xs[..m], ys[..n]);
      assert xs == xs[..m] + [xs[m]] && ys == ys[..n] + [ys[n]];
    }
  }

  /** A pair is read back at its first equals sign. */
  lemma PairDetermines(k: string, v: string, k': string, v': string)
    requires '=' !in k && '=' !in k' && k + "=" + v == k' + "=" + v'
    ensures k == k' && v == v'
  {
    assert k + "=" + v == k + ("=" + v) && k' + "=" + v' == k' + ("=" + v');
    if |k| < |k'| {
      SplitTwice(k, '=', v, k', v');
    } else if |k'| < |k| {
      SplitTwice(k', '=', v', k, v);
    } else {
      SplitAlike(k, '=', v, k', v');
    }
  }

  /** The signed pairs, in the order of the payload. */
  function SignedPairs(params: Params, order: seq<string>): seq<string> {
    Sort(Pairs(params, Kept(params, order)), LexLe)
  }

  lemma SignedIsListed(params: Params, order: seq<string>, k: string)
    requires Enumerates(order, params) && IsSigned(params, k)
    ensures Pair(params, k) in SignedPairs(params, order)
  {
    var ks := Kept(params, order);
    assert k in ks;
    var i :| 0 <= i < |ks| && ks[i] == k;
    assert Pairs(params, ks)[i] == Pair(params, k);
    PermutationFacts(Pairs(params, ks), SignedPairs(params, order));
  }

  lemma ListedIsSigned(params: Params, order: seq<string>, x: string) returns (k: string)
    requires Enumerates(order, params) && x in SignedPairs(params, order)
    ensures IsSigned(params, k) && x == Pair(params, k)
  {
    var ks := Kept(params, order);
    PermutationFacts(Pairs(params, ks), SignedPairs(params, order));
    var i :| 0 <= i < |ks| && Pairs(params, ks)[i] == x;
    k := ks[i];
    assert k in ks;
  }

  lemma PlainIsUnsplit(params: Params, order: seq<string>)
    requires Enumerates(order, params) && Plain(params)
    ensures Unsplit(SignedPairs(params, order))
  {
    var ps := SignedPairs(params, order);
    forall i | 0 <= i < |ps| ensures ps[i] != "" && '&' !in ps[i] {
      var k := ListedIsSigned(params, order, ps[i]);
    }
  }

  lemma SamePairsSignAlike(p: Params, order: seq<string>, p': Params, order': seq<string>, k: string)
    requires Enumerates(order, p) && Enumerates(order', p') && Plain(p) && Plain(p') && IsSigned(p, k)
    requires SignedPairs(p, order) == SignedPairs(p', order')
    ensures IsSigned(p', k) && p[k] == p'[k]
  {
    SignedIsListed(p, order, k);
    var k' := ListedIsSigned(p', order', Pair(p, k));
    PairDetermines(k, p[k], k', p'[k']);
  }

  /** For parameters without separators in them, the payload is that of no other signed
      parameters: equal payloads mean equal signed keys and values. */
  lemma PayloadDetermines(p: Params, order: seq<string>, p': Params, order': seq<string>, secret: string)
    requires Enumerates(order, p) && Enumerates(order', p') && Plain(p) && Plain(p')
    requires Payload(p, order, secret) == Payload(p', order', secret)
    ensures SignAlike(p, p')
  {
    var a, b := Joined(SignedPairs(p, order), "&"), Joined(SignedPairs(p', order'), "&");
    assert (a + secret)[..|a|] == a && (b + secret)[..|b|] == b;
    PlainIsUnsplit(p, order);
    PlainIsUnsplit(p', order');
    JoinedDetermines(SignedPairs(p, order), SignedPairs(p', order'));
    forall k ensures (IsSigned(p, k) <==> IsSigned(p', k)) && (IsSigned(p, k) ==> p[k] == p'[k]) {
      if IsSigned(p, k) {
        SamePairsSignAlike(p, order, p', order', k);
      } else if IsSigned(p', k) {
        SamePairsSignAlike(p', order', p, order, k);
      }
    }
  }
}
