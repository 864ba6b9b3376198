/** precision_at_k of the back end: for every user of a list of test
    predictions, the share of that user's k highest-estimated rows whose true
    rating reaches the threshold, averaged over the users. Ratings and the
    result are reals; users are the Key values of the test set. */
module Precision {
  import opened Ranking
  import opened Recommend

  /** One test prediction: user, item, true rating and estimate (the details
      field is unused). */
  datatype TestPrediction = TestPrediction(user: Key, item: Key, actual: real, estimate: real)

  /** The pair `(est, true_r)` kept for a user. */
  datatype Scored = Scored(estimate: real, actual: real)

  function EstimateOf(s: Scored): real {
    s.estimate
  }

  function ScoredOf(p: TestPrediction): Scored {
    Scored(p.estimate, p.actual)
  }

  /** The users of ps, each once, in order of first occurrence (the key order
      of the grouping dictionary). */
  function Users(ps: seq<TestPrediction>): (us: seq<Key>)
    ensures forall u :: u in us <==> exists i :: 0 <= i < |ps| && ps[i].user == u
    ensures forall i, j :: 0 <= i < j < |us| ==> us[i] != us[j]
  {
    if ps == [] then []
    else
      var rest := Users(ps[..|ps| - 1]);
      var u := ps[|ps| - 1].user;
      assert forall i :: 0 <= i < |ps| - 1 ==> ps[..|ps| - 1][i] == ps[i];
      if u in rest then rest else rest + [u]
  }

  /** Wherever the j-th user occurs in ps, the i-th user (i < j) has occurred
      before. */
  lemma {:induction false} EarlierUserOccursBefore(ps: seq<TestPrediction>, i: nat, j: nat, b: nat)
    requires i < j < |Users(ps)| && b < |ps| && ps[b].user == Users(ps)[j]
    ensures exists a :: 0 <= a < b && ps[a].user == Users(ps)[i]
    decreases |ps|
  {
    var init := ps[..|ps| - 1];
    var u := ps[|ps| - 1].user;
    var rest := Users(init);
    var us := Users(ps);
    assert us == if u in rest then rest else rest + [u];
    assert forall k :: 0 <= k < |init| ==> init[k] == ps[k];
    assert us[i] == rest[i] && rest[i] in rest;
    if j < |rest| {
      assert us[j] == rest[j];
      var b0: nat := b;
      if b == |init| {
        assert rest[j] in rest;
        var k :| 0 <= k < |init| && init[k].user == rest[j];
        b0 := k;
      }
      assert init[b0].user == rest[j];
      EarlierUserOccursBefore(init, i, j, b0);
      var a :| 0 <= a < b0 && init[a].user == rest[i];
      assert ps[a].user == us[i];
    } else {
      assert us[j] == u && u !in rest;
      assert b == |ps| - 1;
      var a :| 0 <= a < |init| && init[a].user == rest[i];
      assert ps[a].user == us[i];
    }
  }

  /** The users come in order of first occurrence: wherever a later user
      occurs in ps, an earlier one has occurred before. */
  lemma {:induction false} UsersInFirstOccurrenceOrder(ps: seq<TestPrediction>)
    ensures forall i, j, b :: 0 <= i < j < |Users(ps)| && 0 <= b < |ps| && ps[b].user == Users(ps)[j] ==>
      exists a :: 0 <= a < b && ps[a].user == Users(ps)[i]
  {
    var us := Users(ps);
    forall i, j, b | 0 <= i < j < |us| && 0 <= b < |ps| && ps[b].user == us[j]
      ensures exists a :: 0 <= a < b && ps[a].user == us[i]
    {
      EarlierUserOccursBefore(ps, i, j, b);
    }
  }

  /** The pairs of user u, in the order of ps. */
  function RatingsOf(ps: seq<TestPrediction>, u: Key): seq<Scored> {
    if ps == [] then []
    else RatingsOf(ps[..|ps| - 1], u) + (if ps[|ps| - 1].user == u then [ScoredOf(ps[|ps| - 1])] else [])
  }

  /** A user who never occurs has no pairs. */
  lemma {:induction false} AbsentUserHasNoRatings(ps: seq<TestPrediction>, u: Key)
    requires u !in Users(ps)
    ensures RatingsOf(ps, u) == []
  {
    if ps != [] {
      var init := ps[..|ps| - 1];
      assert forall i :: 0 <= i < |init| ==> init[i] == ps[i];
      AbsentUserHasNoRatings(init, u);
    }
  }

  /** How many of the pairs have a true rating of at least threshold. */
  function Relevant(top: seq<Scored>, threshold: real): (n: nat)
    ensures n <= |top|
  {
    if top == [] then 0
    else Relevant(top[..|top| - 1], threshold) + (if top[|top| - 1].actual >= threshold then 1 else 0)
  }

  /** Python's `xs[:k]` for any integer k: a negative k drops that many
      elements from the end. */
  function SliceTo<T>(xs: seq<T>, k: int): (r: seq<T>)
    ensures r <= xs
    ensures 0 <= k ==> r == Take(xs, k)
    ensures k < 0 ==> |r| == if |xs| + k < 0 then 0 else |xs| + k
  {
    if k >= 0 then Take(xs, k)
    else if |xs| + k < 0 then []
    else xs[..|xs| + k]
  }

  /** One user's precision: the relevant share of their k best-estimated
      pairs, or 0 when k <= 0. */
  function UserPrecision(ratings: seq<Scored>, k: int, threshold: real): real {
    if k > 0 then Relevant(Take(SortDesc(ratings, EstimateOf), k), threshold) as real / k as real
    else 0.0
  }

  /** The sum of the precisions of the users us. */
  function TotalPrecision(us: seq<Key>, ps: seq<TestPrediction>, k: int, threshold: real): real {
    if us == [] then 0.0
    else TotalPrecision(us[..|us| - 1], ps, k, threshold) + UserPrecision(RatingsOf(ps, us[|us| - 1]), k, threshold)
  }

  /** The mean precision over the users, or 0 when there are none. */
  function MeanPrecision(ps: seq<TestPrediction>, k: int, threshold: real): real {
    var us := Users(ps);
    if |us| == 0 then 0.0 else TotalPrecision(us, ps, k, threshold) / |us| as real
  }

  lemma RatioBounds(n: real, d: real)
    requires 0.0 <= n <= d && d > 0.0
    ensures 0.0 <= n / d <= 1.0
  {
    assert n / d * d == n;
  }

  /** A user's precision lies in [0, 1]. */
  lemma UserPrecisionBounds(ratings: seq<Scored>, k: int, threshold: real)
    ensures 0.0 <= UserPrecision(ratings, k, threshold) <= 1.0
  {
    if k > 0 {
      var top := Take(SortDesc(ratings, EstimateOf), k);
      RatioBounds(Relevant(top, threshold) as real, k as real);
    }
  }

  /** A user whose pairs are all relevant and who has at least k of them scores 1. */
  lemma PerfectUserPrecision(ratings: seq<Scored>, k: int, threshold: real)
    requires k > 0 && |ratings| >= k
    requires forall i :: 0 <= i < |ratings| ==> ratings[i].actual >= threshold
    ensures UserPrecision(ratings, k, threshold) == 1.0
  {
    var sorted := SortDesc(ratings, EstimateOf);
    SortDescProperties(ratings, EstimateOf);
    var top := Take(sorted, k);
    forall i | 0 <= i < |top| ensures top[i].actual >= threshold {
      assert top[i] == sorted[i];
      assert sorted[i] in multiset(ratings);
    }
    AllRelevant(top, threshold);
    SelfRatio(k);
  }

  lemma SelfRatio(n: int)
    requires n > 0
    ensures n as real / n as real == 1.0
  {
  }

  lemma {:induction false} AllRelevant(top: seq<Scored>, threshold: real)
    requires forall i :: 0 <= i < |top| ==> top[i].actual >= threshold
    ensures Relevant(top, threshold) == |top|
  {
    if top != [] {
      AllRelevant(top[..|top| - 1], threshold);
    }
  }

  lemma {:induction false} TotalPrecisionBounds(us: seq<Key>, ps: seq<TestPrediction>, k: int, threshold: real)
    ensures 0.0 <= TotalPrecision(us, ps, k, threshold) <= |us| as real
  {
    if us != [] {
      TotalPrecisionBounds(us[..|us| - 1], ps, k, threshold);
      UserPrecisionBounds(RatingsOf(ps, us[|us| - 1]), k, threshold);
    }
  }

  /** The metric lies in [0, 1], and is 0 for an empty test set. */
  lemma MeanPrecisionBounds(ps: seq<TestPrediction>, k: int, threshold: real)
    ensures 0.0 <= MeanPrecision(ps, k, threshold) <= 1.0
    ensures ps == [] ==> MeanPrecision(ps, k, threshold) == 0.0
    ensures k <= 0 ==> MeanPrecision(ps, k, threshold) == 0.0
  {
    var us := Users(ps);
    TotalPrecisionBounds(us, ps, k, threshold);
    if |us| > 0 {
      RatioBounds(TotalPrecision(us, ps, k, threshold), |us| as real);
    }
    if k <= 0 {
      ZeroPrecisionTotal(us, ps, k, threshold);
    }
  }

  lemma {:induction false} ZeroPrecisionTotal(us: seq<Key>, ps: seq<TestPrediction>, k: int, threshold: real)
    requires k <= 0
    ensures TotalPrecision(us, ps, k, threshold) == 0.0
  {
    if us != [] {
      ZeroPrecisionTotal(us[..|us| - 1], ps, k, threshold);
    }
  }

  /** A sequence without duplicates has as many distinct elements as entries. */
  lemma {:induction false} DistinctCardinality(s: seq<Key>)
    requires forall i, j :: 0 <= i < j < |s| ==> s[i] != s[j]
    ensures |set x | x in s| == |s|
  {
    if s != [] {
      var init := s[..|s| - 1];
      DistinctCardinality(init);
      assert (set x | x in s) == (set x | x in init) + {s[|s| - 1]};
      assert s[|s| - 1] !in init;
    }
  }

  /** A map whose keys are the entries of a duplicate-free sequence has as
      many entries as the sequence. */
  lemma MapSizeOfKeys(m: map<Key, real>, order: seq<Key>)
    requires forall i, j :: 0 <= i < j < |order| ==> order[i] != order[j]
    requires forall u :: u in m <==> u in order
    ensures |m| == |order|
  {
    assert m.Keys == set x | x in order;
    DistinctCardinality(order);
  }

  /** The first loop of precision_at_k: each user's pairs, appended in order
      to a dictionary whose keys keep their first-insertion order. */
  method GroupByUser(predictions: seq<TestPrediction>) returns (userEstTrue: map<Key, seq<Scored>>, order: seq<Key>)
    ensures order == Users(predictions)
    ensures forall u :: u in userEstTrue <==> u in order
    ensures forall u :: u in userEstTrue ==> userEstTrue[u] == RatingsOf(predictions, u)
  {
    userEstTrue := map[];
    order := [];
    for i := 0 to |predictions|
      invariant order == Users(predictions[..i])
      invariant forall u :: u in userEstTrue <==> u in order
      invariant forall u :: u in userEstTrue ==> userEstTrue[u] == RatingsOf(predictions[..i], u)
    {
      var p := predictions[i];
      assert predictions[..i + 1][..i] == predictions[..i];
      if p.user in userEstTrue {
        userEstTrue := userEstTrue[p.user := userEstTrue[p.user] + [ScoredOf(p)]];
      } else {
        AbsentUserHasNoRatings(predictions[..i], p.user);
        userEstTrue := userEstTrue[p.user := [ScoredOf(p)]];
        order := order + [p.user];
      }
    }
    assert predictions[..|predictions|] == predictions;
  }

  /** The body of the second loop for one user: sort the list in place by
      estimate, cut it with `[:k]`, count the relevant pairs. */
  method ScoreUser(userRatings: seq<Scored>, k: int, threshold: real) returns (precision: real)
    ensures precision == UserPrecision(userRatings, k, threshold)
  {
    var a := new Scored[|userRatings|](m requires 0 <= m < |userRatings| => userRatings[m]);
    assert a[..] == userRatings;
    SortInPlace(a, EstimateOf);
    var topK := SliceTo(a[..], k);
    var relevant := 0;
    for m := 0 to |topK|
      invariant relevant == Relevant(topK[..m], threshold)
    {
      assert topK[..m + 1][..m] == topK[..m];
      if topK[m].actual >= threshold {
        relevant := relevant + 1;
      }
    }
    assert topK[..|topK|] == topK;
    precision := if k > 0 then relevant as real / k as real else 0.0;
  }

  /** The second loop of precision_at_k: every user's score, in key order. */
  method ScoreUsers(userEstTrue: map<Key, seq<Scored>>, order: seq<Key>, k: int, threshold: real)
    returns (precisions: map<Key, real>)
    requires forall u :: u in order ==> u in userEstTrue
    ensures forall u :: u in precisions <==> u in order
    ensures forall u :: u in precisions ==> precisions[u] == UserPrecision(userEstTrue[u], k, threshold)
  {
    precisions := map[];
    for j := 0 to |order|
      invariant forall u :: u in precisions <==> u in order[..j]
      invariant forall u :: u in precisions ==> precisions[u] == UserPrecision(userEstTrue[u], k, threshold)
    {
      var u := order[j];
      var precision := ScoreUser(userEstTrue[u], k, threshold);
      precisions := precisions[u := precision];
      assert order[..j + 1] == order[..j] + [u];
    }
    assert order[..|order|] == order;
  }

  /** `sum(precisions.values())`, visiting the keys in insertion order. */
  method SumScores(precisions: map<Key, real>, order: seq<Key>, ghost predictions: seq<TestPrediction>, k: int, threshold: real)
    returns (total: real)
    requires forall u :: u in order ==> u in precisions
    requires forall u :: u in precisions ==> precisions[u] == UserPrecision(RatingsOf(predictions, u), k, threshold)
    ensures total == TotalPrecision(order, predictions, k, threshold)
  {
    total := 0.0;
    for j := 0 to |order|
      invariant total == TotalPrecision(order[..j], predictions, k, threshold)
    {
      assert order[..j + 1][..j] == order[..j];
      total := total + precisions[order[j]];
    }
    assert order[..|order|] == order;
  }

  /** precision_at_k: group the pairs by user, score each user's list, then
      average the scores. */
  method PrecisionAtK(predictions: seq<TestPrediction>, k: int, threshold: real) returns (result: real)
    ensures result == MeanPrecision(predictions, k, threshold)
  {
    var userEstTrue, order := GroupByUser(predictions);
    var precisions := ScoreUsers(userEstTrue, order, k, threshold);
    var total := SumScores(precisions, order, predictions, k, threshold);
    MapSizeOfKeys(precisions, order);
    result := if |precisions| > 0 then total / |precisions| as real else 0.0;
  }
}
