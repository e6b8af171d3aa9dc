/** The recommendation service's leaking cache (src/recommendation/recommendation_server.py). */
module Recommendation {
  import opened Base

  const MAX_RESPONSES := 5

  /** cached_ids and first_run. */
  datatype Cache = Cache(ids: seq<string>, first: bool)

  const EMPTY := Cache([], true)

  /** A request as far as the cache is concerned: the feature flag, whether the random draw is below one half,
      and the catalog's answer, should it be asked. None stands for a failed call. */
  datatype Query = Query(flagOn: bool, low: bool, catalog: Option<seq<string>>)

  predicate IsMiss(c: Cache, q: Query) {
    q.flagOn && (q.low || c.first)
  }

  /** Every miss puts a quarter of the cache behind it once more. */
  function Leak(ids: seq<string>): seq<string> {
    ids + ids[..|ids| / 4]
  }

  /** first_run is cleared before the catalog is asked. */
  function After(c: Cache, q: Query): Cache {
    if !IsMiss(c, q) then c
    else if q.catalog.None? then c.(first := false)
    else Cache(Leak(c.ids + q.catalog.value), false)
  }

  /** The product ids to choose from; None when the catalog was asked and failed. */
  function PoolOf(c: Cache, q: Query): Option<seq<string>> {
    if q.flagOn && !IsMiss(c, q) then Some(c.ids)
    else if q.catalog.None? then None
    else if q.flagOn then Some(After(c, q).ids)
    else q.catalog
  }

  function ToSet(ids: seq<string>): set<string> {
    set x | x in ids
  }

  /** An answer to a request that names the given products. */
  ghost predicate Admissible(answer: seq<string>, named: seq<string>, pool: seq<string>) {
    var rest := ToSet(pool) - ToSet(named);
    && (forall i, j :: 0 <= i < j < |answer| ==> answer[i] != answer[j])
    && (forall i :: 0 <= i < |answer| ==> answer[i] in rest)
    && |answer| == if |rest| < MAX_RESPONSES then |rest| else MAX_RESPONSES
  }

  // ---- The ids a request names ----

  /** ''.join */
  function Join(pieces: seq<string>): string {
    if pieces == [] then "" else pieces[0] + Join(pieces[1..])
  }

  /** .split(',') */
  function Split(s: string): (tokens: seq<string>)
    ensures tokens != []
  {
    if s == "" then [""]
    else
      var rest := Split(s[1..]);
      if s[0] == ',' then [""] + rest else [[s[0]] + rest[0]] + rest[1..]
  }

  function Tokens(pieces: seq<string>): seq<string> {
    Split(Join(pieces))
  }

  function Commas(ids: seq<string>): string
    requires ids != []
  {
    if |ids| == 1 then ids[0] else ids[0] + "," + Commas(ids[1..])
  }

  predicate NoComma(s: string) {
    ',' !in s
  }

  lemma {:induction false} SplitNoComma(s: string)
    requires NoComma(s)
    ensures Split(s) == [s]
  {
    if s != "" {
      SplitNoComma(s[1..]);
      assert [s[0]] + s[1..] == s;
    }
  }

  lemma {:induction false} SplitAtComma(s: string, rest: string)
    requires NoComma(s)
    ensures Split(s + "," + rest) == [s] + Split(rest)
  {
    var whole := s + "," + rest;
    if s == "" {
      assert whole[1..] == rest;
    } else {
      assert whole[1..] == s[1..] + "," + rest;
      SplitAtComma(s[1..], rest);
      assert [s[0]] + s[1..] == s;
    }
  }

  lemma {:induction false} SplitUndoesCommas(ids: seq<string>)
    requires ids != [] && forall i :: 0 <= i < |ids| ==> NoComma(ids[i])
    ensures Split(Commas(ids)) == ids
  {
    if |ids| == 1 {
      SplitNoComma(ids[0]);
    } else {
      SplitAtComma(ids[0], Commas(ids[1..]));
      SplitUndoesCommas(ids[1..]);
    }
  }

  /** A comma-separated text names its ids, in whatever pieces it arrives: as one string, or one character
      at a time. */
  lemma CommaSeparatedIdsAreNamed(pieces: seq<string>, ids: seq<string>)
    requires ids != [] && forall i :: 0 <= i < |ids| ==> NoComma(ids[i])
    requires Join(pieces) == Commas(ids)
    ensures Tokens(pieces) == ids
  {
    SplitUndoesCommas(ids);
  }

  lemma {:induction false} JoinNoComma(pieces: seq<string>)
    requires forall i :: 0 <= i < |pieces| ==> NoComma(pieces[i])
    ensures NoComma(Join(pieces))
  {
    if pieces != [] {
      JoinNoComma(pieces[1..]);
    }
  }

  lemma {:induction false} JoinLength(pieces: seq<string>, i: nat)
    requires i < |pieces|
    ensures |Join(pieces)| >= |pieces[i]|
    ensures |Join(pieces)| == |pieces[i]| ==> forall j :: 0 <= j < |pieces| && j != i ==> pieces[j] == ""
  {
    if i > 0 {
      JoinLength(pieces[1..], i - 1);
      forall j | 0 <= j < |pieces| && j != i && |Join(pieces)| == |pieces[i]|
        ensures pieces[j] == ""
      {
        assert pieces[1..][i - 1] == pieces[i];
        assert j > 0 ==> pieces[1..][j - 1] == pieces[j];
      }
    } else if |pieces| > 1 {
      forall j | 0 < j < |pieces| && |Join(pieces)| == |pieces[0]|
        ensures pieces[j] == ""
      {
        JoinLength(pieces[1..], j - 1);
      }
    }
  }

  /** Ids sent as separate strings are glued into one token. Every one of them is named, and so excluded, exactly
      when they are all the same string as the glued token: there is one id, or all are empty. */
  lemma SeparateIdsAreGlued(ids: seq<string>)
    requires ids != [] && forall i :: 0 <= i < |ids| ==> NoComma(ids[i])
    ensures Tokens(ids) == [Join(ids)]
    ensures ToSet(ids) <= ToSet(Tokens(ids)) <==>
      |ids| == 1 || forall i :: 0 <= i < |ids| ==> ids[i] == ""
  {
    hide Join, Split;
    JoinNoComma(ids);
    SplitNoComma(Join(ids));
    GluedToken(ids);
    if ToSet(ids) <= ToSet(Tokens(ids)) {
      forall i | 0 <= i < |ids|
        ensures ids[i] == Join(ids)
      {
        assert ids[i] in ToSet(ids);
      }
    }
  }

  lemma GluedToken(ids: seq<string>)
    requires ids != []
    ensures (forall i :: 0 <= i < |ids| ==> ids[i] == Join(ids)) <==>
      |ids| == 1 || forall i :: 0 <= i < |ids| ==> ids[i] == ""
  {
    if |ids| == 1 {
      assert Join(ids) == ids[0] + Join([]);
    } else {
      JoinLength(ids, 0);
      JoinLength(ids, 1);
      if forall i :: 0 <= i < |ids| ==> ids[i] == "" {
        JoinEmpty(ids);
      }
    }
  }

  lemma {:induction false} JoinEmpty(ids: seq<string>)
    requires forall i :: 0 <= i < |ids| ==> ids[i] == ""
    ensures Join(ids) == ""
  {
    if ids != [] {
      JoinEmpty(ids[1..]);
    }
  }

  // ---- The service ----

  /** What random.sample(range(n), k) may return. */
  ghost predicate IsSample(indices: seq<nat>, n: nat, k: nat) {
    && |indices| == k
    && (forall i :: 0 <= i < k ==> indices[i] < n)
    && forall i, j :: 0 <= i < j < k ==> indices[i] != indices[j]
  }

  ghost predicate Enumerates(list: seq<string>, s: set<string>) {
    && ToSet(list) == s
    && forall i, j :: 0 <= i < j < |list| ==> list[i] != list[j]
  }

  lemma {:induction false} EnumerationSize(list: seq<string>, s: set<string>)
    requires Enumerates(list, s)
    ensures |list| == |s|
  {
    if list != [] {
      var n := |list| - 1;
      var most := list[..n];
      assert ToSet(most) == s - {list[n]};
      EnumerationSize(most, s - {list[n]});
    }
  }

  function Picks(list: seq<string>, indices: seq<nat>): (r: seq<string>)
    requires forall i :: 0 <= i < |indices| ==> indices[i] < |list|
  {
    seq(|indices|, i requires 0 <= i < |indices| => list[indices[i]])
  }

  /** The admissible answers are exactly what sampling some listing of the remaining products can give. */
  lemma AdmissibleIsSampled(answer: seq<string>, named: seq<string>, pool: seq<string>, list: seq<string>)
    requires Enumerates(list, ToSet(pool) - ToSet(named))
    ensures
      var k := if |list| < MAX_RESPONSES then |list| else MAX_RESPONSES;
      Admissible(answer, named, pool) <==>
        exists indices :: IsSample(indices, |list|, k) && Picks(list, indices) == answer
  {
    var rest := ToSet(pool) - ToSet(named);
    var k := if |list| < MAX_RESPONSES then |list| else MAX_RESPONSES;
    EnumerationSize(list, rest);
    if Admissible(answer, named, pool) {
      var indices := seq(k, i requires 0 <= i < k => PositionOf(answer[i], list));
      assert IsSample(indices, |list|, k);
      assert Picks(list, indices) == answer;
    }
    forall indices | IsSample(indices, |list|, k) && Picks(list, indices) == answer
      ensures Admissible(answer, named, pool)
    {
    }
  }

  ghost function PositionOf(x: string, list: seq<string>): (i: nat)
    ensures x in list ==> i < |list| && list[i] == x
  {
    if x in list then
      var i :| 0 <= i < |list| && list[i] == x;
      i
    else 0
  }

  method ListOf(s: set<string>) returns (list: seq<string>)
    ensures Enumerates(list, s)
  {
    list := [];
    var left := s;
    while left != {}
      invariant left <= s
      invariant Enumerates(list, s - left)
    {
      var x :| x in left;
      assert ToSet(list + [x]) == ToSet(list) + {x};
      list := list + [x];
      left := left - {x};
    }
  }

  class RecommendationService {
    var cachedIds: seq<string>
    var firstRun: bool

    constructor ()
      ensures State() == EMPTY
    {
      cachedIds, firstRun := [], true;
    }

    function State(): Cache
      reads this
    {
      Cache(cachedIds, firstRun)
    }

    /** sample is the random sampler. None stands for the error of a failed catalog call. */
    method GetProductList(pieces: seq<string>, q: Query, sample: (nat, nat) -> seq<nat>)
      returns (prodList: Option<seq<string>>)
      requires forall n: nat, k: nat :: k <= n ==> IsSample(sample(n, k), n, k)
      modifies this
      ensures State() == After(old(State()), q)
      ensures prodList.Some? <==> PoolOf(old(State()), q).Some?
      ensures prodList.Some? ==>
        Admissible(prodList.value, Tokens(pieces), PoolOf(old(State()), q).value)
      ensures prodList.Some? ==>
        var rest := set id | id in PoolOf(old(State()), q).value && id !in Tokens(pieces);
        |prodList.value| == (if |rest| < 5 then |rest| else 5) && forall id :: id in prodList.value ==> id in rest
    {
      var named := Tokens(pieces);
      var productIds;
      if q.flagOn {
        if q.low || firstRun {
          firstRun := false;
          if q.catalog.None? {
            return None;
          }
          cachedIds := cachedIds + q.catalog.value;
          cachedIds := cachedIds + cachedIds[..|cachedIds| / 4];
        }
        productIds := cachedIds;
      } else {
        if q.catalog.None? {
          return None;
        }
        productIds := q.catalog.value;
      }
      var filtered := ListOf(ToSet(productIds) - ToSet(named));
      EnumerationSize(filtered, ToSet(productIds) - ToSet(named));
      var numReturn := if |filtered| < MAX_RESPONSES then |filtered| else MAX_RESPONSES;
      var indices := sample(|filtered|, numReturn);
      prodList := Some(Picks(filtered, indices));
      AdmissibleIsSampled(prodList.value, named, productIds, filtered);
      assert (set id | id in productIds && id !in named) == ToSet(productIds) - ToSet(named);
    }
  }

  // ---- Whole histories ----

  function CacheAfter(run: seq<Query>): Cache {
    if run == [] then EMPTY else After(CacheAfter(run[..|run| - 1]), run[|run| - 1])
  }

  /** The queries that ask the catalog on behalf of the cache, and get an answer: those with the flag on and
      either a low draw or no earlier query with the flag on. */
  predicate Fetches(run: seq<Query>, i: nat)
    requires i < |run|
  {
    && run[i].flagOn
    && run[i].catalog.Some?
    && (run[i].low || forall j :: 0 <= j < i ==> !run[j].flagOn)
  }

  ghost predicate Fetched(run: seq<Query>, x: string) {
    exists i :: 0 <= i < |run| && Fetches(run, i) && x in run[i].catalog.value
  }

  lemma LeakKeepsSet(ids: seq<string>)
    ensures ToSet(Leak(ids)) == ToSet(ids)
  {
    forall x
      ensures x in Leak(ids) <==> x in ids
    {
    }
  }

  lemma FetchedSnoc(run: seq<Query>, x: string)
    requires run != []
    ensures
      var n := |run| - 1;
      Fetched(run, x) <==> Fetched(run[..n], x) || (Fetches(run, n) && x in run[n].catalog.value)
  {
    var n := |run| - 1;
    var before := run[..n];
    forall i | 0 <= i < n
      ensures Fetches(run, i) <==> Fetches(before, i)
    {
      assert forall j :: 0 <= j <= i ==> before[j] == run[j];
    }
    if Fetched(before, x) {
      var i :| 0 <= i < n && Fetches(before, i) && x in before[i].catalog.value;
      assert Fetches(run, i) && x in run[i].catalog.value;
    }
    if Fetched(run, x) && !(Fetches(run, n) && x in run[n].catalog.value) {
      var i :| 0 <= i < |run| && Fetches(run, i) && x in run[i].catalog.value;
      assert Fetches(before, i) && x in before[i].catalog.value;
    }
  }

  /** The cache holds every id of every catalog ever fetched, removed products too, and nothing else. */
  lemma {:induction false} CacheHoldsWhatWasFetched(run: seq<Query>)
    ensures forall x :: x in CacheAfter(run).ids <==> Fetched(run, x)
    ensures CacheAfter(run).first <==> forall i :: 0 <= i < |run| ==> !run[i].flagOn
  {
    if run != [] {
      var n := |run| - 1;
      var before := run[..n];
      CacheHoldsWhatWasFetched(before);
      assert forall i :: 0 <= i < n ==> before[i] == run[i];
      var c := CacheAfter(before);
      forall x
        ensures x in CacheAfter(run).ids <==> Fetched(run, x)
      {
        FetchedSnoc(run, x);
        if IsMiss(c, run[n]) && run[n].catalog.Some? {
          var longer := c.ids + run[n].catalog.value;
          LeakKeepsSet(longer);
          assert x in Leak(longer) <==> x in ToSet(Leak(longer));
          assert x in longer <==> x in ToSet(longer);
        }
      }
    }
  }

  ghost predicate Constant(run: seq<Query>, catalog: seq<string>) {
    forall i :: 0 <= i < |run| ==> run[i].catalog == None || run[i].catalog == Some(catalog)
  }

  ghost predicate Filled(run: seq<Query>) {
    exists i :: 0 <= i < |run| && Fetches(run, i)
  }

  lemma FilledCacheIsCatalog(run: seq<Query>, catalog: seq<string>)
    requires Constant(run, catalog)
    ensures Filled(run) ==> ToSet(CacheAfter(run).ids) == ToSet(catalog)
    ensures !Filled(run) ==> CacheAfter(run).ids == []
  {
    var ids := CacheAfter(run).ids;
    CacheHoldsWhatWasFetched(run);
    if i :| 0 <= i < |run| && Fetches(run, i) {
      assert forall x :: x in catalog ==> Fetched(run, x);
      assert ToSet(ids) == ToSet(catalog);
    } else {
      assert forall x :: x !in ids;
      NoElements(ids);
    }
  }

  lemma NoElements(ids: seq<string>)
    ensures ids == [] <==> forall x :: x !in ids
  {
    if ids != [] {
      assert ids[0] in ids;
    }
  }

  lemma MissHoldsCatalog(ids: seq<string>, catalog: seq<string>)
    requires ToSet(ids) == ToSet(catalog) || ids == []
    ensures ToSet(Leak(ids + catalog)) == ToSet(catalog)
  {
    LeakKeepsSet(ids + catalog);
    assert forall x :: x in ids ==> x in ToSet(ids);
    assert forall x :: x in catalog ==> x in ToSet(catalog);
  }

  /** While the catalog stays the same, any query finds the catalog's products to choose from, with or without
      the cache, exactly when the cache has been filled if it is used: a failed first fetch leaves it empty but no
      longer fresh, and until the next successful miss every hit recommends nothing. */
  lemma CacheAgreesWithCatalog(run: seq<Query>, q: Query, catalog: seq<string>)
    requires Constant(run, catalog) && catalog != [] && q.catalog == Some(catalog)
    ensures
      var pool := PoolOf(CacheAfter(run), q);
      && pool.Some?
      && (ToSet(pool.value) == ToSet(catalog) <==> IsMiss(CacheAfter(run), q) || !q.flagOn || Filled(run))
      && (ToSet(pool.value) == ToSet(catalog) || pool.value == [])
  {
    FilledCacheIsCatalog(run, catalog);
    MissHoldsCatalog(CacheAfter(run).ids, catalog);
    assert catalog[0] in ToSet(catalog);
  }

  /** Once filled, the cache changes nothing about the admissible answers. */
  lemma AnswersAgree(run: seq<Query>, q: Query, catalog: seq<string>, pieces: seq<string>, answer: seq<string>)
    requires Constant(run, catalog) && q.catalog == Some(catalog) && Filled(run)
    ensures PoolOf(CacheAfter(run), q).Some?
    ensures Admissible(answer, Tokens(pieces), PoolOf(CacheAfter(run), q).value) <==>
      Admissible(answer, Tokens(pieces), catalog)
  {
    hide Tokens, CacheAfter, Filled;
    FilledCacheIsCatalog(run, catalog);
    MissHoldsCatalog(CacheAfter(run).ids, catalog);
    assert ToSet(PoolOf(CacheAfter(run), q).value) == ToSet(catalog);
  }

  // ---- The leak ----

  function Power(b: nat, k: nat): nat {
    if k == 0 then 1 else b * Power(b, k - 1)
  }

  /** Query i fetched at least one product. */
  predicate FillsAt(run: seq<Query>, i: nat)
    requires i < |run|
  {
    Fetches(run, i) && run[i].catalog.value != []
  }

  /** How many queries of the run fetched at least one product. */
  function Fills(run: seq<Query>): nat {
    if run == [] then 0 else Fills(run[..|run| - 1]) + if FillsAt(run, |run| - 1) then 1 else 0
  }

  lemma FillsBefore(run: seq<Query>, i: nat)
    requires i + 1 < |run|
    ensures FillsAt(run, i) <==> FillsAt(run[..|run| - 1], i)
  {
    assert forall j :: 0 <= j <= i ==> run[..|run| - 1][j] == run[j];
  }

  lemma {:induction false} FillsCounts(run: seq<Query>)
    ensures Fills(run) == |set i | 0 <= i < |run| && FillsAt(run, i)|
  {
    hide FillsAt;
    var all := set i | 0 <= i < |run| && FillsAt(run, i);
    if run != [] {
      var n := |run| - 1;
      var most := run[..n];
      FillsCounts(most);
      var before := set i | 0 <= i < n && FillsAt(most, i);
      forall i | 0 <= i < n
        ensures i in all <==> i in before
      {
        FillsBefore(run, i);
      }
      if n in all {
        assert all == before + {n};
      } else {
        assert all == before;
      }
    }
  }

  lemma LeakLength(c: Cache, q: Query)
    requires IsMiss(c, q) && q.catalog.Some?
    ensures
      var m := |c.ids| + |q.catalog.value|;
      |After(c, q).ids| == m + m / 4
  {
  }

  /** The cache leaks: it grows by a quarter or more with every fetch, so no bound holds it. */
  lemma {:induction false} CacheGrowsExponentially(run: seq<Query>)
    ensures Power(4, Fills(run)) * (|CacheAfter(run).ids| + 2) >= 2 * Power(5, Fills(run))
  {
    if run != [] {
      var n := |run| - 1;
      var before := run[..n];
      var c := CacheAfter(before);
      CacheGrowsExponentially(before);
      CacheHoldsWhatWasFetched(before);
      assert forall i :: 0 <= i < n ==> before[i] == run[i];
      if IsMiss(c, run[n]) && run[n].catalog.Some? {
        LeakLength(c, run[n]);
      }
      GrowthStep(Power(4, Fills(before)), Power(5, Fills(before)), |c.ids|, |CacheAfter(run).ids|,
                 Fills(run) > Fills(before));
    }
  }

  /** Five quarters to the n are more than n quarters. */
  lemma {:induction false} PowersPart(n: nat)
    ensures 4 * Power(5, n) >= (4 + n) * Power(4, n)
  {
    if n > 0 {
      PowersPart(n - 1);
      var p, q := Power(4, n - 1), Power(5, n - 1);
      assert 4 * Power(5, n) == 5 * (4 * q);
      assert 5 * ((4 + (n - 1)) * p) == 4 * ((4 + n) * p) + (n - 1) * p;
      assert (4 + n) * Power(4, n) == 4 * ((4 + n) * p);
    }
  }

  lemma {:induction false} PowerIsPositive(b: nat, n: nat)
    requires b >= 1
    ensures Power(b, n) >= 1
  {
    if n > 0 {
      PowerIsPositive(b, n - 1);
    }
  }

  /** The cache exceeds every bound once enough queries have fetched something. */
  lemma CacheExceedsEveryBound(bound: nat) returns (n: nat)
    ensures forall run :: Fills(run) >= n ==> |CacheAfter(run).ids| > bound
  {
    n := 2 * bound + 2;
    forall run | Fills(run) >= n
      ensures |CacheAfter(run).ids| > bound
    {
      var k, length := Fills(run), |CacheAfter(run).ids|;
      CacheGrowsExponentially(run);
      PowersPart(k);
      PowerIsPositive(4, k);
      LengthExceeds(Power(4, k), Power(5, k), k, length);
    }
  }

  lemma LengthExceeds(p: nat, q: nat, k: nat, length: nat)
    requires p >= 1 && p * (length + 2) >= 2 * q && 4 * q >= (4 + k) * p
    ensures 2 * length >= k
  {
    assert 2 * (p * (length + 2)) == p * (2 * length + 4);
    assert p * (2 * length + 4) - (4 + k) * p == p * (2 * length - k);
    FactorSign(p, 2 * length - k);
  }

  lemma FactorSign(p: nat, d: int)
    requires p >= 1
    ensures p * d >= 0 ==> d >= 0
  {
    if d < 0 {
      NegativeProduct(p, -d);
      assert p * d == -(p * -d);
    }
  }

  lemma NegativeProduct(p: nat, d: nat)
    requires p >= 1 && d >= 1
    ensures p * d >= 1
  {
  }

  lemma GrowthStep(p: nat, q: nat, was: nat, now: nat, filled: bool)
    requires p * (was + 2) >= 2 * q
    requires now >= was && (filled ==> 4 * (now + 2) >= 5 * (was + 2))
    ensures !filled ==> p * (now + 2) >= 2 * q
    ensures filled ==> 4 * p * (now + 2) >= 2 * (5 * q)
  {
    if filled {
      Scale(p, 5 * (was + 2), 4 * (now + 2));
      assert 4 * p * (now + 2) == p * (4 * (now + 2));
      assert p * (5 * (was + 2)) == 5 * (p * (was + 2));
    } else {
      Scale(p, was + 2, now + 2);
    }
  }

  lemma Scale(p: nat, x: nat, y: nat)
    requires x <= y
    ensures p * x <= p * y
  {
    assert p * y == p * x + p * (y - x);
  }
}
