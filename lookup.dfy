/** `unifiedLookup` and `pack` (src/estate.js:158-233): cache, fast first tier, full tier over
    three sources, deduplication, strict filter and town-only fallback. The HTTP responses are
    parameters and the requests issued are returned as a trace. */
module Lookup {
  import opened Basics
  import opened Text
  import opened Listings
  import opened Matchers
  import opened Ranking
  import opened TtlCache

  /** What `fetchWithTimeout` resolves to: `{ ok: true, results }`, or `{ ok: false, transient,
      results: [] }` (a timeout or abort is transient, any other failure is not). */
  datatype Outcome = Fetched(results: seq<RawListing>) | Failed(transient: bool)

  /** `r.ok ? r.results : []` */
  function Results(o: Outcome): seq<RawListing> {
    if o.Fetched? then o.results else []
  }

  /** The requests `unifiedLookup` can issue, in the order it issues them. */
  datatype Request = FastSales | FullSales | LettingsFielded | LettingsSearch

  datatype LookupError = MissingApiKey

  /** The object `pack` builds. */
  datatype LookupResult = LookupResult(
    candidates: seq<Candidate>,
    marketsPresent: seq<Market>,
    salesCount: nat,
    lettingsCount: nat,
    transient: bool)

  /** A lookup either resolves to a result or throws. */
  datatype Response = Answered(result: LookupResult) | Thrown(error: LookupError)

  /** The cache key: the four query fields, each normalised (a JSON object in the source). */
  datatype CacheKey = CacheKey(street: string, town: string, postcode: string, price: string)

  function KeyOf(q: Query): (k: CacheKey)
    ensures IsNormal(k.street) && IsNormal(k.town) && IsNormal(k.postcode) && IsNormal(k.price)
  {
    CacheKey(Norm(q.street), Norm(q.town), Norm(q.postcode), Norm(q.price))
  }

  /** A query and its normalised form share one cache entry. So do any two queries whose fields
      normalise alike, such as queries that differ only in case (`NormIgnoresCase`) or in the run
      of white space and punctuation between the same words (`NormSameSeparation`). */
  lemma KeyOfNormalised(q: Query)
    ensures KeyOf(Query(Norm(q.street), Norm(q.town), Norm(q.postcode), Norm(q.price))) == KeyOf(q)
  {
    NormIdempotent(q.street);
    NormIdempotent(q.town);
    NormIdempotent(q.postcode);
    NormIdempotent(q.price);
  }

  // ---------------------------------------------------------------------------
  // pack

  /** `candidates.map(c => c.market)` */
  function Markets(cs: seq<Candidate>): (r: seq<Market>)
    ensures |r| == |cs| && forall i :: 0 <= i < |cs| ==> r[i] == cs[i].market
  {
    seq(|cs|, i requires 0 <= i < |cs| => cs[i].market)
  }

  /** `Array.from(new Set(ms))`: each value once, in order of first appearance. */
  function Uniq(ms: seq<Market>): (r: seq<Market>)
    ensures forall m :: m in r <==> m in ms
    ensures forall i, j :: 0 <= i < j < |r| ==> r[i] != r[j]
    ensures ms != [] ==> r != [] && r[0] == ms[0]
  {
    if ms == [] then []
    else
      var u := Uniq(ms[..|ms| - 1]);
      assert ms == ms[..|ms| - 1] + [ms[|ms| - 1]];
      if ms[|ms| - 1] in u then u else u + [ms[|ms| - 1]]
  }

  /** `candidates.filter(c => c.market === m).length` */
  function Count(cs: seq<Candidate>, m: Market): (r: nat)
    ensures r <= |cs|
    ensures r == 0 <==> forall c :: c in cs ==> c.market != m
  {
    var those := Filter(cs, (c: Candidate) => c.market == m);
    SubListMembers(those, cs);
    assert those != [] ==> those[0] in those;
    |those|
  }

  /** `pack(candidates, transient)` */
  function Pack(cs: seq<Candidate>, transient: bool): LookupResult {
    LookupResult(cs, Uniq(Markets(cs)), Count(cs, Sales), Count(cs, Lettings), transient)
  }

  lemma {:induction false} CountsAddUp(cs: seq<Candidate>)
    ensures Count(cs, Sales) + Count(cs, Lettings) == |cs|
  {
    if cs != [] {
      CountsAddUp(cs[1..]);
    }
  }

  /** The two counts add up to the number of candidates; the markets present are exactly the
      markets of the candidates, each once, the first candidate's first. */
  lemma PackSpec(cs: seq<Candidate>, transient: bool)
    ensures Pack(cs, transient).candidates == cs && Pack(cs, transient).transient == transient
    ensures Pack(cs, transient).salesCount + Pack(cs, transient).lettingsCount == |cs|
    ensures forall m :: m in Pack(cs, transient).marketsPresent <==> exists c :: c in cs && c.market == m
    ensures |Pack(cs, transient).marketsPresent| <= 2
    ensures cs != [] ==> Pack(cs, transient).marketsPresent[0] == cs[0].market
  {
    CountsAddUp(cs);
    var ms := Markets(cs);
    forall m ensures m in ms <==> exists c :: c in cs && c.market == m {
      if m in ms {
        var i :| 0 <= i < |ms| && ms[i] == m;
        assert cs[i] in cs;
      }
    }
    var r := Uniq(ms);
    if |r| > 2 {
      ThreeMarketsRepeat(r);
      assert false;
    }
  }

  /** Of any three markets two are the same. */
  lemma ThreeMarketsRepeat(r: seq<Market>)
    requires |r| > 2
    ensures exists i, j :: 0 <= i < j < |r| && r[i] == r[j]
  {
    if r[0] == r[1] {
      assert r[0] == r[1];
    } else if r[0] == r[2] {
      assert r[0] == r[2];
    } else {
      assert r[1] == r[2];
    }
  }

  /** A non-empty list of candidates all of one market packs as that market alone. */
  lemma PackOneMarket(cs: seq<Candidate>, m: Market, other: Market, transient: bool)
    requires cs != [] && forall c :: c in cs ==> c.market == m
    requires other != m
    ensures Pack(cs, transient).marketsPresent == [m]
    ensures Count(cs, m) == |cs| && Count(cs, other) == 0
  {
    CountOtherMarket(cs, m, other);
    var r := Uniq(Markets(cs));
    assert cs[0] in cs;
    if |r| > 1 {
      assert r[1] in r;
    }
  }

  /** A list of sales candidates counts no lettings, and vice versa. */
  lemma {:induction false} CountOtherMarket(cs: seq<Candidate>, m: Market, other: Market)
    requires forall c :: c in cs ==> c.market == m
    requires other != m
    ensures Count(cs, other) == 0 && Count(cs, m) == |cs|
  {
    if cs != [] {
      assert forall c :: c in cs[1..] ==> c in cs;
      CountOtherMarket(cs[1..], m, other);
    }
  }

  // ---------------------------------------------------------------------------
  // The two tiers as functions of the responses

  /** `results.map(r => simplify(r, market))` */
  function SimplifyAll(rs: seq<RawListing>, market: Market): (r: seq<Candidate>)
    ensures |r| == |rs| && forall i :: 0 <= i < |rs| ==> r[i] == Simplify(rs[i], market)
  {
    seq(|rs|, i requires 0 <= i < |rs| => Simplify(rs[i], market))
  }

  /** What the fast tier answers with (empty when it falls through). */
  function FastCandidates(q: Query, fast: Outcome): seq<Candidate> {
    if fast.Fetched? && |fast.results| > 0 then
      FilterCandidates(DedupFrom(SimplifyAll(fast.results, Sales), {}), q)
    else []
  }

  /** `[...S, ...L1, ...L2]` */
  function AllListings(s: Outcome, lf: Outcome, ls: Outcome): seq<Candidate> {
    SimplifyAll(Results(s), Sales) + SimplifyAll(Results(lf), Lettings) + SimplifyAll(Results(ls), Lettings)
  }

  /** The full tier: the strict filter over the deduplicated listings, or the fallback when
      that finds nothing and the town normalises to something. */
  function FullCandidates(q: Query, s: Outcome, lf: Outcome, ls: Outcome): seq<Candidate> {
    var de := DedupFrom(AllListings(s, lf, ls), {});
    var strict := FilterCandidates(de, q);
    if |strict| == 0 && Norm(q.town) != "" then Fallback(de, q) else strict
  }

  /** `[s, lf, ls].some(r => r.ok === false && r.transient === true)` */
  predicate AnyTransient(s: Outcome, lf: Outcome, ls: Outcome)
    ensures AnyTransient(s, lf, ls) ==> !(s.Fetched? && lf.Fetched? && ls.Fetched?)
  {
    (s.Failed? && s.transient) || (lf.Failed? && lf.transient) || (ls.Failed? && ls.transient)
  }

  /** The result of a lookup that misses the cache. */
  function Answer(q: Query, fast: Outcome, s: Outcome, lf: Outcome, ls: Outcome): (r: LookupResult)
    ensures r.salesCount + r.lettingsCount == |r.candidates|
    ensures r.transient ==> FastCandidates(q, fast) == [] && AnyTransient(s, lf, ls)
  {
    CountsAddUp(FastCandidates(q, fast));
    CountsAddUp(FullCandidates(q, s, lf, ls));
    var early := FastCandidates(q, fast);
    if |early| > 0 then Pack(early, false)
    else Pack(FullCandidates(q, s, lf, ls), AnyTransient(s, lf, ls))
  }

  /** The four requests of a lookup whose fast tier finds nothing, each issued once. */
  function AllRequests(): (r: seq<Request>)
    ensures forall i, j :: 0 <= i < j < |r| ==> r[i] != r[j]
    ensures |r| == 4 && r[0] == FastSales && FullSales in r
  {
    [FastSales, FullSales, LettingsFielded, LettingsSearch]
  }

  /** The requests a lookup that misses the cache issues. */
  function Requests(q: Query, fast: Outcome): (r: seq<Request>)
    ensures |r| > 0 && r[0] == FastSales
    ensures forall i, j :: 0 <= i < j < |r| ==> r[i] != r[j]
    ensures FullSales in r <==> |FastCandidates(q, fast)| == 0
  {
    if |FastCandidates(q, fast)| > 0 then [FastSales] else AllRequests()
  }

  /** Tier 0 of `unifiedLookup`: simplify, dedupe and filter the fast sales page. */
  method FastTier(q: Query, fast: Outcome) returns (candidates: seq<Candidate>)
    ensures candidates == FastCandidates(q, fast)
  {
    candidates := [];
    if fast.Fetched? && |fast.results| > 0 {
      var list := SimplifyAll(fast.results, Sales);
      var de := Dedupe(list);
      candidates := FilterCandidates(de, q);
    }
  }

  /** Tier 1 and the fallback of `unifiedLookup`, on the three full-tier responses. */
  method FullTier(q: Query, s: Outcome, lf: Outcome, ls: Outcome) returns (candidates: seq<Candidate>)
    ensures candidates == FullCandidates(q, s, lf, ls)
  {
    var all := AllListings(s, lf, ls);
    var de := Dedupe(all);
    candidates := FilterCandidates(de, q);
    if |candidates| == 0 && Norm(q.town) != "" {
      candidates := Fallback(de, q);
    }
  }

  /** The part of `unifiedLookup` after a cache miss: the two tiers, `pack` and `setCache`. */
  method Resolve(cache: Cache<CacheKey, LookupResult>, key: CacheKey, q: Query, storedAt: int,
                 fast: Outcome, s: Outcome, lf: Outcome, ls: Outcome)
    returns (out: LookupResult, calls: seq<Request>)
    modifies cache
    ensures out == Answer(q, fast, s, lf, ls) && calls == Requests(q, fast)
    ensures cache.entries == old(cache.entries)[key := Entry(storedAt, out)]
  {
    var early := FastTier(q, fast);
    if |early| > 0 {
      out, calls := Pack(early, false), [FastSales];
      cache.Set(key, out, storedAt);
      return;
    }
    calls := [FastSales, FullSales, LettingsFielded, LettingsSearch];
    var anyTransient := AnyTransient(s, lf, ls);
    var candidates := FullTier(q, s, lf, ls);
    out := Pack(candidates, anyTransient);
    cache.Set(key, out, storedAt);
  }

  /** `unifiedLookup(q)` with the configured key `apiKey` (already trimmed), the clock reading
      `now` when the cache is read and `storedAt` when the result is stored, and the responses
      of the fast sales request and of the three full-tier requests. */
  method UnifiedLookup(cache: Cache<CacheKey, LookupResult>, apiKey: string, q: Query,
                       now: int, storedAt: int,
                       fast: Outcome, s: Outcome, lf: Outcome, ls: Outcome)
    returns (res: Response, calls: seq<Request>)
    modifies cache
    ensures apiKey == "" ==>
      res == Thrown(MissingApiKey) && calls == [] && cache.entries == old(cache.entries)
    ensures apiKey != "" && Fresh(old(cache.entries), KeyOf(q), now).Some? ==>
      res == Answered(Fresh(old(cache.entries), KeyOf(q), now).value) && calls == [] &&
      cache.entries == old(cache.entries)
    ensures apiKey != "" && Fresh(old(cache.entries), KeyOf(q), now).None? ==>
      res == Answered(Answer(q, fast, s, lf, ls)) && calls == Requests(q, fast) &&
      cache.entries ==
        AfterGet(old(cache.entries), KeyOf(q), now)[KeyOf(q) := Entry(storedAt, Answer(q, fast, s, lf, ls))]
  {
    if apiKey == "" {
      return Thrown(MissingApiKey), [];
    }
    var key := KeyOf(q);
    var cached := cache.Get(key, now);
    if cached.Some? {
      return Answered(cached.value), [];
    }
    var out;
    out, calls := Resolve(cache, key, q, storedAt, fast, s, lf, ls);
    res := Answered(out);
  }

  // ---------------------------------------------------------------------------
  // What a lookup promises

  lemma SimplifiedMarket(rs: seq<RawListing>, market: Market)
    ensures forall c :: c in SimplifyAll(rs, market) ==> c.market == market
  {
    forall c | c in SimplifyAll(rs, market) ensures c.market == market {
      var i :| 0 <= i < |rs| && SimplifyAll(rs, market)[i] == c;
    }
  }

  lemma FastFromPage(q: Query, fast: Outcome)
    ensures forall c :: c in FastCandidates(q, fast) ==> c in SimplifyAll(Results(fast), Sales)
  {
    if fast.Fetched? && |fast.results| > 0 {
      var list := SimplifyAll(fast.results, Sales);
      DedupFresh(list, {});
    }
  }

  /** The fast tier answers with sales listings of the fast page that pass the strict filter. */
  lemma FastMatches(q: Query, fast: Outcome)
    ensures forall c :: c in FastCandidates(q, fast) ==>
      StrictMatch(q, c) && c.market == Sales && c in SimplifyAll(Results(fast), Sales)
  {
    FastFromPage(q, fast);
    SimplifiedMarket(Results(fast), Sales);
  }

  /** The fallback's candidates pass the strict checks too: it only runs when a town is given,
      and it re-checks street and price. */
  lemma FallbackStrict(de: seq<Candidate>, q: Query)
    requires Norm(q.town) != ""
    ensures forall c :: c in Fallback(de, q) ==> StrictMatch(q, c) && c in de
  {
    FallbackMembers(de, q);
  }

  /** The full tier answers with fetched listings that pass the strict filter, the fallback's
      included. */
  lemma FullMatches(q: Query, s: Outcome, lf: Outcome, ls: Outcome)
    ensures forall c :: c in FullCandidates(q, s, lf, ls) ==>
      StrictMatch(q, c) && c in AllListings(s, lf, ls)
  {
    var all := AllListings(s, lf, ls);
    var de := DedupFrom(all, {});
    DedupFresh(all, {});
    if |FilterCandidates(de, q)| == 0 && Norm(q.town) != "" {
      FallbackStrict(de, q);
    }
  }

  /** Every candidate a lookup returns comes from a fetched record and passes the strict place
      and price checks. */
  lemma AnswerMatches(q: Query, fast: Outcome, s: Outcome, lf: Outcome, ls: Outcome)
    ensures forall c :: c in Answer(q, fast, s, lf, ls).candidates ==>
      StrictMatch(q, c) &&
      (c in SimplifyAll(Results(fast), Sales) || c in AllListings(s, lf, ls))
  {
    FastMatches(q, fast);
    FullMatches(q, s, lf, ls);
  }

  lemma FastDistinct(q: Query, fast: Outcome)
    ensures DistinctKeys(FastCandidates(q, fast))
  {
    if fast.Fetched? && |fast.results| > 0 {
      var list := SimplifyAll(fast.results, Sales);
      DedupDistinct(list, {});
      StrictFilterDistinct(DedupFrom(list, {}), q);
    }
  }

  lemma FullDistinct(q: Query, s: Outcome, lf: Outcome, ls: Outcome)
    ensures DistinctKeys(FullCandidates(q, s, lf, ls))
  {
    var de := DedupFrom(AllListings(s, lf, ls), {});
    DedupDistinct(AllListings(s, lf, ls), {});
    var strict := FilterCandidates(de, q);
    if |strict| == 0 && Norm(q.town) != "" {
      FallbackDistinct(de, q);
      assert FullCandidates(q, s, lf, ls) == Fallback(de, q);
    } else {
      StrictFilterDistinct(de, q);
      assert FullCandidates(q, s, lf, ls) == strict;
    }
  }

  /** No two candidates of a lookup share an identity key. */
  lemma AnswerDistinct(q: Query, fast: Outcome, s: Outcome, lf: Outcome, ls: Outcome)
    ensures DistinctKeys(Answer(q, fast, s, lf, ls).candidates)
  {
    FastDistinct(q, fast);
    FullDistinct(q, s, lf, ls);
  }

  /** When the fast tier finds a match, the answer is that match: sales only, never transient,
      and the full tier is not asked. */
  lemma FastTierShortCircuits(q: Query, fast: Outcome, s: Outcome, lf: Outcome, ls: Outcome)
    requires |FastCandidates(q, fast)| > 0
    ensures Answer(q, fast, s, lf, ls).candidates == FastCandidates(q, fast)
    ensures Answer(q, fast, s, lf, ls).marketsPresent == [Sales]
    ensures Answer(q, fast, s, lf, ls).lettingsCount == 0
    ensures Answer(q, fast, s, lf, ls).salesCount == |FastCandidates(q, fast)|
    ensures !Answer(q, fast, s, lf, ls).transient
    ensures Requests(q, fast) == [FastSales]
  {
    FastMatches(q, fast);
    PackOneMarket(FastCandidates(q, fast), Sales, Lettings, false);
  }

  /** A result is marked transient exactly when the fast tier found nothing and one of the
      three full-tier requests timed out or was aborted. */
  lemma TransientIff(q: Query, fast: Outcome, s: Outcome, lf: Outcome, ls: Outcome)
    ensures Answer(q, fast, s, lf, ls).transient <==>
      |FastCandidates(q, fast)| == 0 && AnyTransient(s, lf, ls)
  {
  }

  /** When the fast tier and the strict filter of the full tier both find nothing, the answer is
      empty: the town-only fallback only re-applies the strict filter's own town, street and
      price checks to some of the same candidates, so it has nothing left to offer. */
  lemma FallbackAnswer(q: Query, fast: Outcome, s: Outcome, lf: Outcome, ls: Outcome)
    requires |FastCandidates(q, fast)| == 0
    requires |FilterCandidates(DedupFrom(AllListings(s, lf, ls), {}), q)| == 0
    ensures Answer(q, fast, s, lf, ls).candidates == []
    ensures Answer(q, fast, s, lf, ls).salesCount == 0 && Answer(q, fast, s, lf, ls).lettingsCount == 0
    ensures Answer(q, fast, s, lf, ls).transient <==> AnyTransient(s, lf, ls)
  {
    var de := DedupFrom(AllListings(s, lf, ls), {});
    if Norm(q.town) != "" {
      FallbackNeverReturns(de, q);
    }
  }

  /** A repeated lookup of the same (normalised) query within sixty seconds of the store is
      served from the cache, with no request. */
  lemma RepeatWithinTtlHits(m: map<CacheKey, Entry<LookupResult>>, q: Query, q2: Query,
                            now: int, storedAt: int, a: LookupResult, later: int)
    requires KeyOf(q2) == KeyOf(q)
    requires later - storedAt <= TTL_MS
    ensures Fresh(AfterGet(m, KeyOf(q), now)[KeyOf(q) := Entry(storedAt, a)], KeyOf(q2), later) == Some(a)
  {
  }
}
