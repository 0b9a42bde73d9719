/** Which parameters share their signed payload with others.

    In general two signed parameters are enough.  What the uploads sign, a folder and a time, is
    told apart nevertheless.
 */
module UploadAmbiguity {

  import opened Ordering
  import opened Sequences
  import opened UploadSigning

  // ---------------------------------------------------------------- the signed text

  /** What is signed, without the secret. */
  function Body(params: Params, order: seq<string>): string {
    Joined(SignedPairs(params, order), "&")
  }

  lemma SamePayload(p: Params, order: seq<string>, p': Params, order': seq<string>, secret: string)
    ensures Payload(p, order, secret) == Payload(p', order', secret) <==> Body(p, order) == Body(p', order')
  {
    var a, b := Body(p, order), Body(p', order');
    assert (a + secret)[..|a|] == a && (b + secret)[..|b|] == b;
  }

  predicate NoneSigned(params: Params) {
    forall k :: k in params ==> !IsSigned(params, k)
  }

  ghost predicate OnlySigned(params: Params, k: string) {
    forall l :: IsSigned(params, l) <==> l == k
  }

  ghost predicate TwoSigned(params: Params) {
    exists k, l :: k != l && IsSigned(params, k) && IsSigned(params, l)
  }

  lemma HasMember<T>(s: seq<T>)
    requires s != []
    ensures exists x :: x in s
  {
    assert s[0] in s;
  }

  lemma BodyOfNone(params: Params, order: seq<string>)
    requires Enumerates(order, params) && NoneSigned(params)
    ensures Body(params, order) == ""
  {
    if Kept(params, order) != [] {
      HasMember(Kept(params, order));
    }
  }

  lemma SortOne<T>(x: T, le: (T, T) -> bool)
    ensures Sort([x], le) == [x]
  {
    assert [x][1..] == [];
  }

  lemma TwoDiffer<T>(s: seq<T>)
    requires Distinct(s) && |s| >= 2
    ensures s[0] != s[1]
  {
  }

  lemma AllSame<T>(s: seq<T>, x: T)
    requires Distinct(s) && x in s && forall i :: 0 <= i < |s| ==> s[i] == x
    ensures s == [x]
  {
    if |s| >= 2 {
      TwoDiffer(s);
    }
  }

  lemma KeptOnly(params: Params, order: seq<string>, k: string)
    requires Enumerates(order, params) && OnlySigned(params, k)
    ensures Kept(params, order) == [k]
  {
    var ks := Kept(params, order);
    KeptDistinct(params, order);
    assert IsSigned(params, k) && k in ks;
    forall i | 0 <= i < |ks| ensures ks[i] == k {
      assert ks[i] in ks;
      assert IsSigned(params, ks[i]);
    }
    AllSame(ks, k);
  }

  lemma BodyOfOne(params: Params, order: seq<string>, k: string)
    requires Enumerates(order, params) && OnlySigned(params, k)
    ensures k in params && Body(params, order) == Pair(params, k)
  {
    KeptOnly(params, order, k);
    assert IsSigned(params, k);
    assert Pairs(params, [k]) == [Pair(params, k)];
    SortOne(Pair(params, k), LexLe);
  }

  lemma SignedCount(params: Params, order: seq<string>)
    requires Enumerates(order, params)
    ensures |SignedPairs(params, order)| == |Kept(params, order)|
  {
    PermutationFacts(Pairs(params, Kept(params, order)), SignedPairs(params, order));
  }

  lemma {:induction false} JoinedFirst(parts: seq<string>)
    requires |parts| >= 2
    ensures Joined(parts, "&") == parts[0] + ("&" + Joined(parts[1..], "&"))
  {
    var n := |parts| - 1;
    if n == 1 {
      assert parts[..1] == [parts[0]] && parts[1..] == [parts[1]];
    } else {
      JoinedFirst(parts[..n]);
      assert parts[..n][1..] == parts[1..][..n - 1];
      assert parts[1..][n - 1] == parts[n];
      var rest := Joined(parts[1..][..n - 1], "&");
      assert parts[0] + ("&" + rest) + ("&" + parts[n]) == parts[0] + ("&" + (rest + ("&" + parts[n])));
    }
  }

  /** At least two pairs: the first pair and, after an ampersand, the second. */
  lemma BodyOfMany(params: Params, order: seq<string>) returns (k: string, rest: string)
    requires Enumerates(order, params) && |Kept(params, order)| >= 2
    ensures IsSigned(params, k) && Pair(params, k) == SignedPairs(params, order)[0]
    ensures rest == Joined(SignedPairs(params, order)[1..], "&")
    ensures Body(params, order) == Pair(params, k) + ("&" + rest)
  {
    SignedCount(params, order);
    var ps := SignedPairs(params, order);
    k := ListedIsSigned(params, order, ps[0]);
    JoinedFirst(ps);
    rest := Joined(ps[1..], "&");
  }

  lemma TwoAreKept(params: Params, order: seq<string>)
    requires Enumerates(order, params)
    ensures TwoSigned(params) <==> |Kept(params, order)| >= 2
  {
    var ks := Kept(params, order);
    KeptDistinct(params, order);
    if k, l :| k != l && IsSigned(params, k) && IsSigned(params, l) {
      assert k in ks && l in ks;
    }
    if |ks| >= 2 {
      assert ks[0] in ks && ks[1] in ks;
    }
  }

  lemma Regroup(a: string, b: string, c: string)
    ensures a + (b + c) == (a + b) + c
  {
  }

  /** Other parameters have the same payload. */
  ghost predicate Shared(p: Params, order: seq<string>, p': Params, order': seq<string>, secret: string) {
    Enumerates(order', p') && Payload(p', order', secret) == Payload(p, order, secret) && !SignAlike(p, p')
  }

  lemma SingleEnumerates(k: string, v: string)
    requires k !in EXCLUDED && v != ""
    ensures Enumerates([k], map[k := v]) && OnlySigned(map[k := v], k)
    ensures Body(map[k := v], [k]) == k + "=" + v
  {
    BodyOfOne(map[k := v], [k], k);
  }

  lemma OthersSigned(p: Params, k: string, v: string)
    requires TwoSigned(p)
    ensures !SignAlike(p, map[k := v])
  {
    var l, l' :| l != l' && IsSigned(p, l) && IsSigned(p, l');
    var other := if l == k then l' else l;
    assert IsSigned(p, other) && !IsSigned(map[k := v], other);
  }

  /** Two signed parameters have the payload of one: the first key with all the rest as its value. */
  lemma PayloadMayCollide(p: Params, order: seq<string>, secret: string) returns (p': Params, order': seq<string>)
    requires Enumerates(order, p) && TwoSigned(p)
    ensures Shared(p, order, p', order', secret)
    ensures exists k :: OnlySigned(p', k) && IsSigned(p, k)
  {
    TwoAreKept(p, order);
    var k, rest := BodyOfMany(p, order);
    var v := p[k] + ("&" + rest);
    p', order' := map[k := v], [k];
    SingleEnumerates(k, v);
    Regroup(k + "=", p[k], "&" + rest);
    SamePayload(p, order, map[k := v], [k], secret);
    OthersSigned(p, k, v);
  }

  /** The one signed pair can be read with another equals sign as its own. */
  predicate ReadsOtherwise(params: Params, k: string, i: int) {
    k in params &&
    var x := Pair(params, k);
    0 <= i < |x| - 1 && i != |k| && x[i] == '=' && x[..i] !in EXCLUDED
  }

  ghost predicate ReadsTwoWays(params: Params) {
    exists k, i :: OnlySigned(params, k) && ReadsOtherwise(params, k, i)
  }

  lemma OtherReadingCollides(p: Params, order: seq<string>, k: string, i: int, secret: string)
    returns (p': Params, order': seq<string>)
    requires Enumerates(order, p) && OnlySigned(p, k) && ReadsOtherwise(p, k, i)
    ensures Shared(p, order, p', order', secret)
  {
    var x := Pair(p, k);
    var k', v' := x[..i], x[i + 1..];
    p', order' := map[k' := v'], [k'];
    SingleEnumerates(k', v');
    BodyOfOne(p, order, k);
    assert x == k' + "=" + v';
    SamePayload(p, order, map[k' := v'], [k'], secret);
    assert IsSigned(p, k) && !IsSigned(map[k' := v'], k);
  }

  lemma PlainNames(x: string)
    requires '=' in x
    ensures x !in EXCLUDED
  {
  }

  /** Of two pairs that together read as one pair, one is another reading of it. */
  lemma TwoReadAsOne(params: Params, k: string, k1: string, v1: string, k2: string, v2: string, more: string)
    requires k in params && v1 != "" && v2 != "" && k1 !in EXCLUDED
    requires Pair(params, k) == (k1 + "=" + v1) + ("&" + ((k2 + "=" + v2) + more))
    ensures exists i :: ReadsOtherwise(params, k, i)
  {
    var x := Pair(params, k);
    var front := k1 + "=" + v1 + "&" + k2;
    assert x == front + ("=" + (v2 + more)) && x == k1 + ("=" + (v1 + ("&" + ((k2 + "=" + v2) + more))));
    assert x[|front|] == '=' && x[..|front|] == front && front[|k1|] == '=';
    assert x[|k1|] == '=' && x[..|k1|] == k1;
    PlainNames(front);
    if |front| == |k| {
      assert ReadsOtherwise(params, k, |k1|);
    } else {
      assert ReadsOtherwise(params, k, |front|);
    }
  }

  lemma {:induction false} JoinedStarts(parts: seq<string>) returns (more: string)
    requires parts != []
    ensures Joined(parts, "&") == parts[0] + more
  {
    if |parts| == 1 {
      more := "";
    } else {
      JoinedFirst(parts);
      more := "&" + Joined(parts[1..], "&");
    }
  }

  /** Several pairs: the payload starts with the first two of them. */
  lemma BodyStartsWithTwo(params: Params, order: seq<string>) returns (k: string, l: string, more: string)
    requires Enumerates(order, params) && |Kept(params, order)| >= 2
    ensures IsSigned(params, k) && IsSigned(params, l)
    ensures |SignedPairs(params, order)| >= 2
    ensures Pair(params, k) == SignedPairs(params, order)[0] && Pair(params, l) == SignedPairs(params, order)[1]
    ensures Body(params, order) == Pair(params, k) + ("&" + (Pair(params, l) + more))
  {
    SignedCount(params, order);
    var ps := SignedPairs(params, order);
    var rest;
    k, rest := BodyOfMany(params, order);
    l := ListedIsSigned(params, order, ps[1]);
    more := JoinedStarts(ps[1..]);
  }

  /** How many parameters are signed. */
  lemma SignedCases(params: Params, order: seq<string>)
    requires Enumerates(order, params)
    ensures NoneSigned(params) || TwoSigned(params) || exists k :: OnlySigned(params, k)
    ensures Body(params, order) == "" <==> NoneSigned(params)
  {
    var ks := Kept(params, order);
    TwoAreKept(params, order);
    if |ks| >= 2 {
      var k, rest := BodyOfMany(params, order);
      assert !NoneSigned(params);
    } else if |ks| == 1 {
      assert ks[0] in ks && OnlySigned(params, ks[0]);
      BodyOfOne(params, order, ks[0]);
    } else {
      assert NoneSigned(params);
      BodyOfNone(params, order);
    }
  }

  lemma OneReadsAsOther(p: Params, k: string, p': Params, k': string)
    requires OnlySigned(p, k) && OnlySigned(p', k') && !SignAlike(p, p')
    requires k in p && k' in p' && Pair(p, k) == Pair(p', k')
    ensures k != k' && ReadsOtherwise(p, k, |k'|)
  {
    var x := Pair(p, k);
    assert IsSigned(p, k) && IsSigned(p', k');
    assert x == k + ("=" + p[k]) && x == k' + ("=" + p'[k']);
    if |k| == |k'| {
      SplitAlike(k, '=', p[k], k', p'[k']);
    }
    assert x[..|k'|] == k' && x[|k'|] == '=';
  }

  lemma ManyReadAsOne(p: Params, k: string, p': Params, order': seq<string>)
    requires k in p && Enumerates(order', p') && TwoSigned(p') && Body(p', order') == Pair(p, k)
    ensures exists i :: ReadsOtherwise(p, k, i)
  {
    TwoAreKept(p', order');
    var k1, k2, more := BodyStartsWithTwo(p', order');
    TwoReadAsOne(p, k, k1, p'[k1], k2, p'[k2], more);
  }

  lemma NoneSignAlike(p: Params, p': Params)
    requires NoneSigned(p) && NoneSigned(p')
    ensures SignAlike(p, p')
  {
  }

  lemma SharedNeeds(p: Params, order: seq<string>, p': Params, order': seq<string>, secret: string)
    requires Enumerates(order, p) && Shared(p, order, p', order', secret) && !TwoSigned(p)
    ensures ReadsTwoWays(p)
  {
    SamePayload(p, order, p', order', secret);
    SignedCases(p, order);
    SignedCases(p', order');
    if NoneSigned(p) {
      NoneSignAlike(p, p');
    } else {
      var k :| OnlySigned(p, k);
      BodyOfOne(p, order, k);
      if TwoSigned(p') {
        ManyReadAsOne(p, k, p', order');
      } else {
        var k' :| OnlySigned(p', k');
        BodyOfOne(p', order', k');
        OneReadsAsOther(p, k, p', k');
      }
    }
  }

  ghost predicate IsShared(p: Params, order: seq<string>, secret: string) {
    exists p', order' :: Shared(p, order, p', order', secret)
  }

  lemma AmbiguousIsShared(p: Params, order: seq<string>, secret: string)
    requires Enumerates(order, p) && (TwoSigned(p) || ReadsTwoWays(p))
    ensures IsShared(p, order, secret)
  {
    if TwoSigned(p) {
      var p', order' := PayloadMayCollide(p, order, secret);
    } else {
      var k, i :| OnlySigned(p, k) && ReadsOtherwise(p, k, i);
      var p', order' := OtherReadingCollides(p, order, k, i, secret);
    }
  }

  /** Other parameters have the same payload exactly when two parameters are signed, or the one
      that is can be read with another equals sign as its own. */
  lemma SharedExactlyWhen(p: Params, order: seq<string>, secret: string)
    requires Enumerates(order, p)
    ensures IsShared(p, order, secret) <==> TwoSigned(p) || ReadsTwoWays(p)
  {
    if TwoSigned(p) || ReadsTwoWays(p) {
      AmbiguousIsShared(p, order, secret);
    } else if IsShared(p, order, secret) {
      var p', order' :| Shared(p, order, p', order', secret);
      SharedNeeds(p, order, p', order', secret);
    }
  }

  // ---------------------------------------------------------------- keys without separators

  predicate CleanKey(k: string) {
    '=' !in k && '&' !in k
  }

  ghost predicate CleanKeys(params: Params) {
    forall k :: IsSigned(params, k) ==> CleanKey(k)
  }

  /** The value of k is a value followed by a pair of its own, which would be signed after it. */
  predicate CarriesPair(params: Params, k: string, a: string, l: string, w: string) {
    && k in params && params[k] == a + ("&" + (l + "=" + w))
    && a != "" && w != "" && CleanKey(l) && l !in EXCLUDED && l != k && LexLe(k + "=" + a, l + "=" + w)
  }

  ghost predicate CarriesAPair(params: Params) {
    exists k, a, l, w :: OnlySigned(params, k) && CarriesPair(params, k, a, l, w)
  }

  ghost predicate IsSharedCleanly(p: Params, order: seq<string>, secret: string) {
    exists p', order' :: Shared(p, order, p', order', secret) && CleanKeys(p')
  }

  lemma SortTwo<T>(x: T, y: T, le: (T, T) -> bool)
    requires le(x, y)
    ensures Sort([x, y], le) == [x, y]
  {
    assert [x, y][1..] == [y];
    SortOne(y, le);
  }

  lemma JoinTwo(x: string, y: string)
    ensures Joined([x, y], "&") == x + ("&" + y)
  {
    assert [x, y][..1] == [x];
  }

  ghost predicate OnlyTwoSigned(params: Params, k: string, l: string) {
    k != l && forall m :: IsSigned(params, m) <==> m == k || m == l
  }

  /** Two signed parameters in the order of their pairs, however the map is enumerated. */
  lemma BodyOfTwo(params: Params, order: seq<string>, k: string, l: string)
    requires Enumerates(order, params) && OnlyTwoSigned(params, k, l)
    requires LexLe(Pair(params, k), Pair(params, l))
    ensures Body(params, order) == Pair(params, k) + ("&" + Pair(params, l))
  {
    var ks := Kept(params, order);
    KeptDistinct(params, order);
    assert IsSigned(params, k) && IsSigned(params, l);
    SameMembers(ks, [k, l]);
    PairsPermute(params, params, ks, [k, l]);
    var x, y := Pair(params, k), Pair(params, l);
    assert Pairs(params, [k, l]) == [x, y];
    LexIsTotalOrder();
    SortOfPermutation(Pairs(params, ks), [x, y], LexLe);
    SortTwo(x, y, LexLe);
    JoinTwo(x, y);
  }

  lemma CarriedCollides(p: Params, order: seq<string>, k: string, a: string, l: string, w: string, secret: string)
    returns (p': Params, order': seq<string>)
    requires Enumerates(order, p) && OnlySigned(p, k) && CarriesPair(p, k, a, l, w)
    ensures Shared(p, order, p', order', secret) && OnlyTwoSigned(p', k, l)
  {
    p', order' := map[k := a, l := w], [k, l];
    assert IsSigned(p, k) && !IsSigned(p, l);
    assert OnlyTwoSigned(p', k, l);
    BodyOfOne(p, order, k);
    BodyOfTwo(p', [k, l], k, l);
    Regroup(k + "=", a, "&" + (l + "=" + w));
    SamePayload(p, order, p', [k, l], secret);
    assert IsSigned(p', l);
  }

  lemma {:induction false} LexExtends(x: string, y: string, more: string)
    requires LexLe(x, y)
    ensures LexLe(x, y + more)
  {
    if x != [] && x[0] == y[0] {
      LexExtends(x[1..], y[1..], more);
      assert (y + more)[1..] == y[1..] + more;
    }
  }

  /** Pairs of different clean keys are different. */
  lemma CleanPairsDistinct(params: Params, order: seq<string>)
    requires Enumerates(order, params) && CleanKeys(params)
    ensures Distinct(SignedPairs(params, order))
  {
    var ks := Kept(params, order);
    KeptDistinct(params, order);
    var ps := Pairs(params, ks);
    forall i, j | 0 <= i < j < |ps| ensures ps[i] != ps[j] {
      assert ks[i] in ks && ks[j] in ks;
      if ps[i] == ps[j] {
        PairDetermines(ks[i], params[ks[i]], ks[j], params[ks[j]]);
      }
    }
    PermutationFacts(ps, SignedPairs(params, order));
  }

  lemma SignedPairsSorted(params: Params, order: seq<string>)
    ensures SortedBy(SignedPairs(params, order), LexLe)
  {
    LexIsTotalOrder();
    SortSorts(Pairs(params, Kept(params, order)), LexLe);
  }

  lemma FirstCarriesSecond(p: Params, k: string, k1: string, a: string, k2: string, v: string, more: string)
    requires k in p && CleanKey(k) && CleanKey(k1) && CleanKey(k2) && k2 !in EXCLUDED && a != "" && v != ""
    requires Pair(p, k) == k1 + "=" + a + ("&" + (k2 + "=" + v + more))
    requires k1 != k2 && LexLe(k1 + "=" + a, k2 + "=" + v)
    ensures CarriesPair(p, k, a, k2, v + more)
  {
    var w := v + more;
    assert k2 + "=" + v + more == k2 + "=" + w;
    Regroup(k1 + "=", a, "&" + (k2 + "=" + w));
    PairDetermines(k, p[k], k1, a + ("&" + (k2 + "=" + w)));
    LexExtends(k1 + "=" + a, k2 + "=" + v, more);
  }

  lemma ManyAreCarried(p: Params, k: string, p': Params, order': seq<string>)
    requires CleanKeys(p) && OnlySigned(p, k) && k in p
    requires Enumerates(order', p') && CleanKeys(p') && TwoSigned(p') && Body(p', order') == Pair(p, k)
    ensures CarriesAPair(p)
  {
    TwoAreKept(p', order');
    var k1, k2, more := BodyStartsWithTwo(p', order');
    CleanPairsDistinct(p', order');
    SignedPairsSorted(p', order');
    assert IsSigned(p, k) && LexLe(Pair(p', k1), Pair(p', k2)) && Pair(p', k1) != Pair(p', k2);
    FirstCarriesSecond(p, k, k1, p'[k1], k2, p'[k2], more);
  }

  lemma CleanSharedNeeds(p: Params, order: seq<string>, p': Params, order': seq<string>, secret: string)
    requires Enumerates(order, p) && CleanKeys(p) && CleanKeys(p')
    requires Shared(p, order, p', order', secret) && !TwoSigned(p)
    ensures CarriesAPair(p)
  {
    SamePayload(p, order, p', order', secret);
    SignedCases(p, order);
    SignedCases(p', order');
    if NoneSigned(p) {
      NoneSignAlike(p, p');
    } else {
      var k :| OnlySigned(p, k);
      BodyOfOne(p, order, k);
      if TwoSigned(p') {
        ManyAreCarried(p, k, p', order');
      } else {
        var k' :| OnlySigned(p', k');
        BodyOfOne(p', order', k');
        OneReadsAsOther(p, k, p', k');
        assert IsSigned(p, k) && IsSigned(p', k');
        PairDetermines(k, p[k], k', p'[k']);
      }
    }
  }

  lemma CleanIsShared(p: Params, order: seq<string>, secret: string)
    requires Enumerates(order, p) && CleanKeys(p) && (TwoSigned(p) || CarriesAPair(p))
    ensures IsSharedCleanly(p, order, secret)
  {
    if TwoSigned(p) {
      var p', order' := PayloadMayCollide(p, order, secret);
      assert CleanKeys(p');
    } else {
      var k, a, l, w :| OnlySigned(p, k) && CarriesPair(p, k, a, l, w);
      var p', order' := CarriedCollides(p, order, k, a, l, w, secret);
      assert IsSigned(p, k) && CleanKeys(p');
    }
  }

  /** Among parameters whose keys contain no separator, others have the same payload exactly when
      two parameters are signed, or the value of the one that is carries a pair of its own. */
  lemma SharedCleanlyExactlyWhen(p: Params, order: seq<string>, secret: string)
    requires Enumerates(order, p) && CleanKeys(p)
    ensures IsSharedCleanly(p, order, secret) <==> TwoSigned(p) || CarriesAPair(p)
  {
    if TwoSigned(p) || CarriesAPair(p) {
      CleanIsShared(p, order, secret);
    } else if IsSharedCleanly(p, order, secret) {
      var p', order' :| Shared(p, order, p', order', secret) && CleanKeys(p');
      CleanSharedNeeds(p, order, p', order', secret);
    }
  }

  // ---------------------------------------------------------------- what the uploads sign

  const FOLDER := "folder"
  const TIMESTAMP := "timestamp"
  const API_KEY := "api_key"

  /** The parameters of an upload; without a folder there is no such parameter. */
  function UploadParams(apiKey: string, folder: string, time: string): Params {
    if folder == "" then map[TIMESTAMP := time, API_KEY := apiKey]
    else map[TIMESTAMP := time, API_KEY := apiKey, FOLDER := folder]
  }

  /** A formatted integer. */
  predicate IsDecimal(time: string) {
    time != "" && forall i :: 0 <= i < |time| ==> '0' <= time[i] <= '9' || time[i] == '-'
  }

  lemma UploadNames()
    ensures FOLDER !in EXCLUDED && TIMESTAMP !in EXCLUDED && API_KEY in EXCLUDED
    ensures FOLDER != TIMESTAMP && '&' !in TIMESTAMP
  {
    assert |FOLDER| == 6 && |TIMESTAMP| == 9 && |"api_key"| == 7 && |"file"| == 4 && |"resource_type"| == 13;
  }

  function UploadBody(folder: string, time: string): string {
    if folder == "" then TIMESTAMP + "=" + time
    else FOLDER + "=" + folder + ("&" + (TIMESTAMP + "=" + time))
  }

  lemma BodyOfUpload(apiKey: string, folder: string, time: string, order: seq<string>)
    requires Enumerates(order, UploadParams(apiKey, folder, time)) && IsDecimal(time)
    ensures Body(UploadParams(apiKey, folder, time), order) == UploadBody(folder, time)
  {
    var p := UploadParams(apiKey, folder, time);
    UploadNames();
    if folder == "" {
      assert OnlySigned(p, TIMESTAMP);
      BodyOfOne(p, order, TIMESTAMP);
    } else {
      assert OnlyTwoSigned(p, FOLDER, TIMESTAMP);
      assert LexLe(Pair(p, FOLDER), Pair(p, TIMESTAMP));
      BodyOfTwo(p, order, FOLDER, TIMESTAMP);
    }
  }

  /** The text that is signed for an upload. */
  lemma UploadPayload(apiKey: string, folder: string, time: string, order: seq<string>, secret: string)
    requires Enumerates(order, UploadParams(apiKey, folder, time)) && IsDecimal(time)
    ensures Payload(UploadParams(apiKey, folder, time), order, secret)
         == if folder == "" then "timestamp" + "=" + time + secret
            else "folder" + "=" + folder + "&" + "timestamp" + "=" + time + secret
  {
    BodyOfUpload(apiKey, folder, time, order);
    Ungroup(FOLDER + "=" + folder, "&", TIMESTAMP, "=", time, secret);
  }

  lemma Ungroup(a: string, b: string, c: string, d: string, e: string, f: string)
    ensures a + (b + (c + d + e)) + f == a + b + c + d + e + f
  {
    assert a + (b + (c + d + e)) == a + b + c + d + e;
  }

  lemma TimePairIsUnsplit(time: string)
    requires IsDecimal(time)
    ensures '&' !in TIMESTAMP + "=" + time
  {
    UploadNames();
  }

  lemma SameTail(a: string, x: string, y: string)
    requires a + x == a + y
    ensures x == y
  {
    assert (a + x)[|a|..] == x && (a + y)[|a|..] == y;
  }

  lemma BodiesAreToldApart(folder: string, time: string, folder': string, time': string)
    requires IsDecimal(time) && IsDecimal(time')
    ensures UploadBody(folder, time) == UploadBody(folder', time') <==> folder == folder' && time == time'
  {
    var x, x' := TIMESTAMP + "=" + time, TIMESTAMP + "=" + time';
    TimePairIsUnsplit(time);
    TimePairIsUnsplit(time');
    if folder == "" && folder' != "" {
      OnePart(x, FOLDER + "=" + folder', x');
    } else if folder != "" && folder' == "" {
      OnePart(x', FOLDER + "=" + folder, x);
    } else if UploadBody(folder, time) == UploadBody(folder', time') {
      if folder != "" {
        LastPart(FOLDER + "=" + folder, x, FOLDER + "=" + folder', x');
        SameTail(FOLDER + "=", folder, folder');
      }
      SameTail(TIMESTAMP + "=", time, time');
    }
  }

  /** Two uploads with the same payload have the same folder and time, whatever characters the
      folder contains. */
  lemma UploadsAreToldApart(apiKey: string, folder: string, time: string, order: seq<string>,
                            apiKey': string, folder': string, time': string, order': seq<string>, secret: string)
    requires Enumerates(order, UploadParams(apiKey, folder, time)) && IsDecimal(time)
    requires Enumerates(order', UploadParams(apiKey', folder', time')) && IsDecimal(time')
    ensures Payload(UploadParams(apiKey, folder, time), order, secret)
            == Payload(UploadParams(apiKey', folder', time'), order', secret)
       <==> folder == folder' && time == time'
  {
    SamePayload(UploadParams(apiKey, folder, time), order, UploadParams(apiKey', folder', time'), order', secret);
    BodyOfUpload(apiKey, folder, time, order);
    BodyOfUpload(apiKey', folder', time', order');
    BodiesAreToldApart(folder, time, folder', time');
  }
}
