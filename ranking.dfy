/** The strict candidate filter (`filterCandidates`, src/estate.js:147-155) and the town-only
    fallback ranking of src/estate.js:206-221. */
module Ranking {
  import opened Basics
  import opened Text
  import opened Similarity
  import opened Matchers
  import opened Listings

  /** The caller's query; an absent field is "". */
  datatype Query = Query(street: string, town: string, postcode: string, price: string)

  /** `closeTown(t, p.town) || closeTown(t, p.address)` */
  predicate TownMatches(t: string, p: Candidate) {
    CloseTown(t, p.town) || CloseTown(t, p.address)
  }

  /** `!w || streetFuzzyHit(w, p.street) || streetFuzzyHit(w, p.address)` */
  predicate StreetMatches(w: string, p: Candidate) {
    w == "" || StreetFuzzyHit(w, p.street) || StreetFuzzyHit(w, p.address)
  }

  /** The predicate of the first `filter` of `filterCandidates`: each matcher applies only when
      its field of the query is non-empty once normalised. */
  predicate PlaceMatches(q: Query, p: Candidate) {
    var wantT := Norm(q.town);
    var wantS := Norm(q.street);
    (wantT != "" ==> TownMatches(wantT, p)) && StreetMatches(wantS, p)
  }

  predicate StrictMatch(q: Query, p: Candidate) {
    PlaceMatches(q, p) && PriceClose(q.price, p.price)
  }

  /** `filterCandidates(list, q)` (src/estate.js:147-155): the candidates that pass the place
      matchers and then the price matcher, in their original order. */
  function FilterCandidates(list: seq<Candidate>, q: Query): (r: seq<Candidate>)
    ensures SubList(r, list)
    ensures forall p :: p in r ==> StrictMatch(q, p)
    ensures forall p :: p in list && StrictMatch(q, p) ==> p in r
    ensures forall p :: multiset(r)[p] == if StrictMatch(q, p) then multiset(list)[p] else 0
  {
    var placedOk := (p: Candidate) => PlaceMatches(q, p);
    var priceOk := (p: Candidate) => PriceClose(q.price, p.price);
    FilterFilter(list, placedOk, priceOk);
    Filter(Filter(list, placedOk), priceOk)
  }

  /** In the caller's own terms: a kept candidate matches the given town against its town or
      address, the given street against its street or address, and the given price. */
  lemma StrictFilterSpec(list: seq<Candidate>, q: Query, p: Candidate)
    requires p in FilterCandidates(list, q)
    ensures p in list
    ensures HasLetterOrDigit(q.town) ==> CloseTown(q.town, p.town) || CloseTown(q.town, p.address)
    ensures HasLetterOrDigit(q.street) ==> StreetFuzzyHit(q.street, p.street) || StreetFuzzyHit(q.street, p.address)
    ensures PriceClose(q.price, p.price)
  {
    SubListMembers(FilterCandidates(list, q), list);
    NormEmptyIff(q.town);
    NormEmptyIff(q.street);
    MatchersOnNormalisedWant(q.town, p.town);
    MatchersOnNormalisedWant(q.town, p.address);
    MatchersOnNormalisedWant(q.street, p.street);
    MatchersOnNormalisedWant(q.street, p.address);
  }

  /** A strict-filter result keeps the distinct keys of its input. */
  lemma StrictFilterDistinct(list: seq<Candidate>, q: Query)
    requires DistinctKeys(list)
    ensures DistinctKeys(FilterCandidates(list, q))
  {
    SubListDistinct(FilterCandidates(list, q), list);
  }

  // ---------------------------------------------------------------------------
  // Fallback ranking

  /** `{ p, s }`: a candidate with its fallback score. */
  datatype Scored = Scored(p: Candidate, s: int)

  function Min(x: int, y: int): int {
    if x <= y then x else y
  }

  /** The `score(w, g)` helper of the fallback: `lev(w, g)`, one less when the Soundex codes of
      `w` and `g` agree. */
  function Score(w: string, g: string): (r: int)
    ensures r >= -1
    ensures Norm(w) == Norm(g) ==> r <= 0
  {
    DistanceSelf(Norm(w));
    Distance(Norm(w), Norm(g)) + (if SoundexOf(w) == SoundexOf(g) then -1 else 0)
  }

  /** `Math.min(score(w, norm(p.street || "")), score(w, norm(p.address || "")))` */
  function Rank(w: string, p: Candidate): int {
    Min(Score(w, Norm(p.street)), Score(w, Norm(p.address)))
  }

  /** The score function of the fallback for the normalised street `w`. */
  function RankBy(w: string): Candidate -> int {
    p => Rank(w, p)
  }

  /** `.map(p => ({ p, s: f(p) }))` */
  function Scores(ps: seq<Candidate>, f: Candidate -> int): (r: seq<Scored>)
    ensures |r| == |ps|
    ensures forall i :: 0 <= i < |ps| ==> r[i] == Scored(ps[i], f(ps[i]))
  {
    seq(|ps|, i requires 0 <= i < |ps| => Scored(ps[i], f(ps[i])))
  }

  /** Places `x` before the first entry whose score is not smaller than its own. */
  function Insert(x: Scored, s: seq<Scored>): seq<Scored> {
    if s == [] || x.s <= s[0].s then [x] + s
    else [s[0]] + Insert(x, s[1..])
  }

  /** `.sort((a, b) => a.s - b.s)`: a stable sort by ascending score (insertion sort). */
  function SortByScore(s: seq<Scored>): seq<Scored> {
    if s == [] then [] else Insert(s[0], SortByScore(s[1..]))
  }

  predicate SortedByScore(s: seq<Scored>) {
    forall i, j :: 0 <= i < j < |s| ==> s[i].s <= s[j].s
  }

  /** The entries with score `k`, in order: a stable sort leaves this sub-list unchanged. */
  function WithScore(s: seq<Scored>, k: int): seq<Scored> {
    if s == [] then []
    else if s[0].s == k then [s[0]] + WithScore(s[1..], k)
    else WithScore(s[1..], k)
  }

  lemma {:induction false} InsertMultiset(x: Scored, s: seq<Scored>)
    ensures multiset(Insert(x, s)) == multiset(s) + multiset{x}
  {
    if s != [] && x.s > s[0].s {
      InsertMultiset(x, s[1..]);
      assert s == [s[0]] + s[1..];
    }
  }

  lemma InsertMembers(x: Scored, s: seq<Scored>)
    ensures forall e :: e in Insert(x, s) <==> e == x || e in s
  {
    InsertMultiset(x, s);
    forall e ensures e in Insert(x, s) <==> e == x || e in s {
      assert e in Insert(x, s) <==> e in multiset(Insert(x, s));
      assert e in s <==> e in multiset(s);
    }
  }

  lemma {:induction false} InsertSorted(x: Scored, s: seq<Scored>)
    requires SortedByScore(s)
    ensures SortedByScore(Insert(x, s))
  {
    if s != [] && x.s > s[0].s {
      var rest := s[1..];
      var t := Insert(x, rest);
      assert SortedByScore(rest) by {
        assert forall i :: 0 <= i < |rest| ==> rest[i] == s[i + 1];
      }
      InsertSorted(x, rest);
      InsertMembers(x, rest);
      forall j | 0 <= j < |t| ensures s[0].s <= t[j].s {
        assert t[j] in t;
        if t[j] != x {
          var m :| 0 <= m < |rest| && rest[m] == t[j];
          assert s[m + 1] == t[j];
        }
      }
      var u := [s[0]] + t;
      assert Insert(x, s) == u;
      forall i, j | 0 <= i < j < |u| ensures u[i].s <= u[j].s {
        assert u[j] == t[j - 1];
        if i > 0 {
          assert u[i] == t[i - 1];
        }
      }
    }
  }

  lemma {:induction false} InsertWithScore(x: Scored, s: seq<Scored>, k: int)
    ensures WithScore(Insert(x, s), k) == if x.s == k then [x] + WithScore(s, k) else WithScore(s, k)
  {
    if s == [] || x.s <= s[0].s {
      assert ([x] + s)[1..] == s;
    } else {
      var t := Insert(x, s[1..]);
      InsertWithScore(x, s[1..], k);
      assert ([s[0]] + t)[1..] == t;
    }
  }

  /** The fallback's sort orders by score and permutes its input. */
  lemma {:induction false} SortPermutes(s: seq<Scored>)
    ensures SortedByScore(SortByScore(s))
    ensures multiset(SortByScore(s)) == multiset(s)
  {
    if s != [] {
      SortPermutes(s[1..]);
      InsertSorted(s[0], SortByScore(s[1..]));
      InsertMultiset(s[0], SortByScore(s[1..]));
      assert s == [s[0]] + s[1..];
    }
  }

  /** The sort is stable: entries of equal score keep their input order. */
  lemma {:induction false} SortStable(s: seq<Scored>, k: int)
    ensures WithScore(SortByScore(s), k) == WithScore(s, k)
  {
    if s != [] {
      SortStable(s[1..], k);
      InsertWithScore(s[0], SortByScore(s[1..]), k);
    }
  }

  /** `.slice(0, 12)` */
  function Take(s: seq<Scored>, n: nat): (r: seq<Scored>)
    ensures |r| <= n && |r| <= |s| && r == s[..|r|]
    ensures |s| >= n ==> |r| == n
  {
    if |s| <= n then s else s[..n]
  }

  /** `.map(x => x.p)` */
  function Unscored(s: seq<Scored>): (r: seq<Candidate>)
    ensures |r| == |s| && forall i :: 0 <= i < |s| ==> r[i] == s[i].p
  {
    seq(|s|, i requires 0 <= i < |s| => s[i].p)
  }

  /** `ps`, scored by `f` and sorted best first. */
  function Ranked(ps: seq<Candidate>, f: Candidate -> int): seq<Scored> {
    SortByScore(Scores(ps, f))
  }

  /** The twelve best-scored entries of `ps`. */
  function Shortlist(ps: seq<Candidate>, f: Candidate -> int): seq<Candidate> {
    Unscored(Take(Ranked(ps, f), 12))
  }

  lemma RankedEntries(ps: seq<Candidate>, f: Candidate -> int)
    ensures SortedByScore(Ranked(ps, f))
    ensures forall e :: e in Ranked(ps, f) ==> e.s == f(e.p) && e.p in ps
  {
    var scored := Scores(ps, f);
    SortPermutes(scored);
    forall e | e in Ranked(ps, f) ensures e.s == f(e.p) && e.p in ps {
      assert e in multiset(scored);
      var i :| 0 <= i < |scored| && scored[i] == e;
    }
  }

  /** Ranking keeps every entry: the ranked list is as long as its input. */
  lemma RankedLength(ps: seq<Candidate>, f: Candidate -> int)
    ensures |Ranked(ps, f)| == |ps|
  {
    SortPermutes(Scores(ps, f));
    assert |multiset(Ranked(ps, f))| == |multiset(Scores(ps, f))|;
  }

  predicate SortedBy(ps: seq<Candidate>, f: Candidate -> int) {
    forall i, j :: 0 <= i < j < |ps| ==> f(ps[i]) <= f(ps[j])
  }

  /** The shortlist has at most twelve entries of `ps`, best score first. */
  lemma ShortlistSpec(ps: seq<Candidate>, f: Candidate -> int)
    ensures |Shortlist(ps, f)| <= 12
    ensures forall p :: p in Shortlist(ps, f) ==> p in ps
    ensures SortedBy(Shortlist(ps, f), f)
  {
    var ranked := Ranked(ps, f);
    var top := Take(ranked, 12);
    var sl := Shortlist(ps, f);
    RankedEntries(ps, f);
    forall i | 0 <= i < |sl| ensures sl[i] in ps && f(sl[i]) == top[i].s {
      assert top[i] == ranked[i];
      assert ranked[i] in ranked;
    }
  }

  /** Only entries that score no better than all twelve kept are cut from the shortlist. */
  lemma ShortlistCut(ps: seq<Candidate>, f: Candidate -> int, p: Candidate)
    requires p in ps && p !in Shortlist(ps, f)
    ensures |Ranked(ps, f)| > 12
    ensures forall i :: 0 <= i < 12 ==> Ranked(ps, f)[i].s <= f(p)
  {
    var scored := Scores(ps, f);
    var ranked := Ranked(ps, f);
    var i :| 0 <= i < |ps| && ps[i] == p;
    assert scored[i] == Scored(p, f(p));
    SortPermutes(scored);
    assert Scored(p, f(p)) in multiset(ranked);
    var idx :| 0 <= idx < |ranked| && ranked[idx] == Scored(p, f(p));
  }

  lemma {:induction false} InsertDistinct(x: Scored, s: seq<Scored>)
    requires DistinctKeys(Unscored(s))
    requires forall e :: e in s ==> Key(e.p) != Key(x.p)
    ensures DistinctKeys(Unscored(Insert(x, s)))
  {
    if s != [] && x.s > s[0].s {
      var rest := s[1..];
      HeadKeyFresh(s);
      InsertDistinct(x, rest);
      InsertMembers(x, rest);
      ConsDistinct(s[0], Insert(x, rest));
    } else {
      ConsDistinct(x, s);
    }
  }

  /** A list with distinct keys splits into a head whose key is not in its tail, and a tail with
      distinct keys. */
  lemma HeadKeyFresh(s: seq<Scored>)
    requires s != [] && DistinctKeys(Unscored(s))
    ensures forall e :: e in s[1..] ==> Key(e.p) != Key(s[0].p)
    ensures DistinctKeys(Unscored(s[1..]))
  {
    var rest := s[1..];
    assert forall i :: 0 <= i < |rest| ==> Unscored(rest)[i] == Unscored(s)[i + 1];
    forall e | e in rest ensures Key(e.p) != Key(s[0].p) {
      var m :| 0 <= m < |rest| && rest[m] == e;
      assert Unscored(s)[0] == s[0].p && Unscored(s)[m + 1] == e.p;
    }
  }

  /** Putting an entry whose key is new in front of a list with distinct keys keeps them
      distinct. */
  lemma ConsDistinct(y: Scored, t: seq<Scored>)
    requires DistinctKeys(Unscored(t))
    requires forall e :: e in t ==> Key(e.p) != Key(y.p)
    ensures DistinctKeys(Unscored([y] + t))
  {
    var u := Unscored([y] + t);
    forall i, j | 0 <= i < j < |u| ensures Key(u[i]) != Key(u[j]) {
      assert u[j] == Unscored(t)[j - 1];
      if i > 0 {
        assert u[i] == Unscored(t)[i - 1];
      } else {
        assert t[j - 1] in t;
      }
    }
  }

  lemma {:induction false} SortDistinct(s: seq<Scored>)
    requires DistinctKeys(Unscored(s))
    ensures DistinctKeys(Unscored(SortByScore(s)))
  {
    if s != [] {
      var rest := s[1..];
      assert DistinctKeys(Unscored(rest)) by {
        assert forall i :: 0 <= i < |rest| ==> Unscored(rest)[i] == Unscored(s)[i + 1];
      }
      SortDistinct(rest);
      SortPermutes(rest);
      forall e | e in SortByScore(rest) ensures Key(e.p) != Key(s[0].p) {
        assert e in multiset(rest);
        var m :| 0 <= m < |rest| && rest[m] == e;
        assert Unscored(s)[0] == s[0].p && Unscored(s)[m + 1] == e.p;
      }
      InsertDistinct(s[0], SortByScore(rest));
    }
  }

  /** A shortlist of a list with distinct keys has distinct keys. */
  lemma ShortlistDistinct(ps: seq<Candidate>, f: Candidate -> int)
    requires DistinctKeys(ps)
    ensures DistinctKeys(Shortlist(ps, f))
  {
    var scored := Scores(ps, f);
    assert Unscored(scored) == ps;
    SortDistinct(scored);
    var ranked := Ranked(ps, f);
    var sl := Shortlist(ps, f);
    assert forall i :: 0 <= i < |sl| ==> sl[i] == Unscored(ranked)[i];
  }

  /** `de.filter(p => closeTown(norm(town), p.town) || closeTown(norm(town), p.address))` */
  function TownOnly(de: seq<Candidate>, q: Query): (r: seq<Candidate>)
    ensures SubList(r, de)
    ensures forall p :: p in r <==> p in de && TownMatches(Norm(q.town), p)
  {
    Filter(de, p => TownMatches(Norm(q.town), p))
  }

  /** The town-only fallback of src/estate.js:206-221: the twelve best-scored town matches,
      re-validated against the street (when given) and the price. */
  function Fallback(de: seq<Candidate>, q: Query): seq<Candidate> {
    var w := Norm(q.street);
    var shortlist := Shortlist(TownOnly(de, q), RankBy(w));
    var streetOk := Filter(shortlist, p => StreetMatches(w, p));
    Filter(streetOk, (p: Candidate) => PriceClose(q.price, p.price))
  }

  lemma FallbackInShortlist(de: seq<Candidate>, q: Query)
    ensures SubList(Fallback(de, q), Shortlist(TownOnly(de, q), RankBy(Norm(q.street))))
  {
    var w := Norm(q.street);
    var shortlist := Shortlist(TownOnly(de, q), RankBy(w));
    var streetOk := Filter(shortlist, p => StreetMatches(w, p));
    SubListTrans(Fallback(de, q), streetOk, shortlist);
  }

  /** The fallback returns at most twelve candidates, each a town match of the input that also
      passes the street check (when a street was given) and the price check. */
  lemma FallbackMembers(de: seq<Candidate>, q: Query)
    ensures |Fallback(de, q)| <= 12
    ensures forall p :: p in Fallback(de, q) ==>
      p in de && TownMatches(Norm(q.town), p) && StreetMatches(Norm(q.street), p) &&
      PriceClose(q.price, p.price)
  {
    var shortlist := Shortlist(TownOnly(de, q), RankBy(Norm(q.street)));
    FallbackInShortlist(de, q);
    SubListMembers(Fallback(de, q), shortlist);
    ShortlistSpec(TownOnly(de, q), RankBy(Norm(q.street)));
  }

  lemma {:induction false} SubListSortedBy(xs: seq<Candidate>, ys: seq<Candidate>, f: Candidate -> int)
    requires SubList(xs, ys) && SortedBy(ys, f)
    ensures SortedBy(xs, f)
    decreases |ys|
  {
    if xs != [] && ys != [] {
      var rest := ys[1..];
      assert SortedBy(rest, f) by {
        assert forall i :: 0 <= i < |rest| ==> rest[i] == ys[i + 1];
      }
      if xs[0] == ys[0] {
        var tail := xs[1..];
        SubListSortedBy(tail, rest, f);
        SubListMembers(tail, rest);
        forall i, j | 0 <= i < j < |xs| ensures f(xs[i]) <= f(xs[j]) {
          assert xs[j] == tail[j - 1];
          if i > 0 {
            assert xs[i] == tail[i - 1];
          } else {
            assert xs[j] in tail;
            var m :| 0 <= m < |rest| && rest[m] == xs[j];
            assert ys[m + 1] == xs[j];
          }
        }
      } else {
        SubListSortedBy(xs, rest, f);
      }
    }
  }

  /** The fallback's result is in nondecreasing score order, best match first. */
  lemma FallbackOrdered(de: seq<Candidate>, q: Query)
    ensures SortedBy(Fallback(de, q), RankBy(Norm(q.street)))
  {
    var f := RankBy(Norm(q.street));
    ShortlistSpec(TownOnly(de, q), f);
    FallbackInShortlist(de, q);
    SubListSortedBy(Fallback(de, q), Shortlist(TownOnly(de, q), f), f);
  }

  /** A shortlisted candidate that passes the street and price checks is in the result. */
  lemma ShortlistedKept(de: seq<Candidate>, q: Query, p: Candidate)
    requires StreetMatches(Norm(q.street), p) && PriceClose(q.price, p.price)
    ensures p in Shortlist(TownOnly(de, q), RankBy(Norm(q.street))) ==> p in Fallback(de, q)
  {
    var w := Norm(q.street);
    var shortlist := Shortlist(TownOnly(de, q), RankBy(w));
    var streetOk := Filter(shortlist, p => StreetMatches(w, p));
    if p in shortlist {
      assert p in streetOk;
    }
  }

  /** The cut to twelve only drops candidates that rank no better than all twelve kept: a town
      match of the input that passes the street and price checks but is missing from the result
      has twelve town matches scored at least as well ahead of it. */
  lemma FallbackTopTwelve(de: seq<Candidate>, q: Query, p: Candidate)
    requires p in de && TownMatches(Norm(q.town), p)
    requires StreetMatches(Norm(q.street), p) && PriceClose(q.price, p.price)
    requires p !in Fallback(de, q)
    ensures |Ranked(TownOnly(de, q), RankBy(Norm(q.street)))| > 12
    ensures forall i :: 0 <= i < 12 ==>
      Ranked(TownOnly(de, q), RankBy(Norm(q.street)))[i].s <= Rank(Norm(q.street), p)
  {
    var f := RankBy(Norm(q.street));
    var townOnly := TownOnly(de, q);
    assert p in townOnly;
    ShortlistedKept(de, q, p);
    ShortlistCut(townOnly, f, p);
    assert f(p) == Rank(Norm(q.street), p);
  }

  /** When its input has distinct keys, so does the fallback's result. */
  lemma FallbackDistinct(de: seq<Candidate>, q: Query)
    requires DistinctKeys(de)
    ensures DistinctKeys(Fallback(de, q))
  {
    var townOnly := TownOnly(de, q);
    var f := RankBy(Norm(q.street));
    SubListDistinct(townOnly, de);
    ShortlistDistinct(townOnly, f);
    FallbackInShortlist(de, q);
    SubListDistinct(Fallback(de, q), Shortlist(townOnly, f));
  }

  /** The fallback runs only after the strict filter of the same input found nothing, and every
      candidate it could return passes that strict filter: town (given a town), street and price.
      So, as written, the fallback never returns anything. */
  lemma FallbackNeverReturns(de: seq<Candidate>, q: Query)
    requires FilterCandidates(de, q) == [] && Norm(q.town) != ""
    ensures Fallback(de, q) == []
  {
    var w := Norm(q.street);
    var shortlist := Shortlist(TownOnly(de, q), RankBy(w));
    var streetOk := Filter(shortlist, p => StreetMatches(w, p));
    ShortlistSpec(TownOnly(de, q), RankBy(w));
    forall p | p in streetOk ensures !PriceClose(q.price, p.price) {
      assert p in de && TownMatches(Norm(q.town), p) && StreetMatches(w, p);
      assert PriceClose(q.price, p.price) ==> StrictMatch(q, p);
      assert p !in FilterCandidates(de, q);
    }
    FilterNone(streetOk, (p: Candidate) => PriceClose(q.price, p.price));
  }

  /** The town-only fallback as evidently intended: the twelve best-scored town matches that pass
      the price check, with no second street check, so that a town match whose street spelling
      defeats the strict filter can still be offered. */
  function TownFallback(de: seq<Candidate>, q: Query): (r: seq<Candidate>)
    ensures SubList(r, Shortlist(TownOnly(de, q), RankBy(Norm(q.street))))
    ensures forall p :: p in r ==> PriceClose(q.price, p.price)
  {
    var shortlist := Shortlist(TownOnly(de, q), RankBy(Norm(q.street)));
    Filter(shortlist, (p: Candidate) => PriceClose(q.price, p.price))
  }

  /** The intended fallback returns at most twelve candidates of its input, each a town match
      that passes the price check, in nondecreasing score order. */
  lemma TownFallbackMembers(de: seq<Candidate>, q: Query)
    ensures |TownFallback(de, q)| <= 12
    ensures forall p :: p in TownFallback(de, q) ==>
      p in de && TownMatches(Norm(q.town), p) && PriceClose(q.price, p.price)
    ensures SortedBy(TownFallback(de, q), RankBy(Norm(q.street)))
  {
    var f := RankBy(Norm(q.street));
    var shortlist := Shortlist(TownOnly(de, q), f);
    ShortlistSpec(TownOnly(de, q), f);
    SubListMembers(TownFallback(de, q), shortlist);
    SubListSortedBy(TownFallback(de, q), shortlist, f);
  }

  /** A town match of the input that passes the price check is offered, whatever its street,
      unless twelve town matches scored at least as well are ahead of it. */
  lemma TownFallbackTopTwelve(de: seq<Candidate>, q: Query, p: Candidate)
    requires p in de && TownMatches(Norm(q.town), p) && PriceClose(q.price, p.price)
    requires p !in TownFallback(de, q)
    ensures |Ranked(TownOnly(de, q), RankBy(Norm(q.street)))| > 12
    ensures forall i :: 0 <= i < 12 ==>
      Ranked(TownOnly(de, q), RankBy(Norm(q.street)))[i].s <= Rank(Norm(q.street), p)
  {
    var f := RankBy(Norm(q.street));
    var townOnly := TownOnly(de, q);
    assert p in townOnly;
    assert p !in Shortlist(townOnly, f);
    ShortlistCut(townOnly, f, p);
    assert f(p) == Rank(Norm(q.street), p);
  }

  /** Without a price, the intended fallback is the whole shortlist, so it offers something
      whenever some candidate of the input matches the town. */
  lemma TownFallbackRecovers(de: seq<Candidate>, q: Query)
    requires q.price == ""
    ensures TownFallback(de, q) == Shortlist(TownOnly(de, q), RankBy(Norm(q.street)))
    ensures TownOnly(de, q) != [] ==> TownFallback(de, q) != []
  {
    var f := RankBy(Norm(q.street));
    var shortlist := Shortlist(TownOnly(de, q), f);
    FilterAll(shortlist, (p: Candidate) => PriceClose(q.price, p.price));
    var ranked := Ranked(TownOnly(de, q), f);
    RankedLength(TownOnly(de, q), f);
    assert |shortlist| == |Take(ranked, 12)|;
  }

  /** When its input has distinct keys, so does the intended fallback's result. */
  lemma TownFallbackDistinct(de: seq<Candidate>, q: Query)
    requires DistinctKeys(de)
    ensures DistinctKeys(TownFallback(de, q))
  {
    var townOnly := TownOnly(de, q);
    var f := RankBy(Norm(q.street));
    SubListDistinct(townOnly, de);
    ShortlistDistinct(townOnly, f);
    SubListDistinct(TownFallback(de, q), Shortlist(townOnly, f));
  }
}
