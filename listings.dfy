/** Candidate records (`simplify`, src/estate.js:87-99) and the first-occurrence-wins
    deduplication of src/estate.js:175-176 and 199-200. */
module Listings {
  import opened Basics

  datatype Market = Sales | Lettings

  /** An upstream record as far as `simplify` reads it. `None` is a missing or null field;
      `Some(s)` holds the field's value as its String rendering. */
  datatype RawListing = RawListing(
    refId: Option<string>,
    salesLifecycleId: Option<string>,
    lettingsLifecycleId: Option<string>,
    address: Option<string>,
    propertyStreet: Option<string>,
    propertyLocality: Option<string>,
    propertyTown: Option<string>,
    propertyPostcode: Option<string>,
    propertyTypeText: Option<string>,
    price: Option<string>,
    teamEmail: Option<string>,
    teamPhone: Option<string>,
    responsibleAgentName: Option<string>)

  /** One listing as the lookup returns it. */
  datatype Candidate = Candidate(
    refId: string,
    address: string,
    street: string,
    town: string,
    postcode: string,
    propertyTypeText: string,
    price: Option<string>,
    market: Market,
    teamEmail: string,
    teamPhone: string,
    agentName: string)

  /** JavaScript truthiness of a string-valued field. */
  predicate Truthy(f: Option<string>) {
    f.Some? && f.value != ""
  }

  /** `f || ""` */
  function OrEmpty(f: Option<string>): (r: string)
    ensures r == "" <==> !Truthy(f)
  {
    if Truthy(f) then f.value else ""
  }

  /** `a ?? b`: the first operand unless it is null or missing. */
  function Coalesce(a: Option<string>, b: Option<string>): Option<string> {
    if a.Some? then a else b
  }

  /** `parts.join(sep)` */
  function Join(parts: seq<string>, sep: string): (r: string)
    ensures (forall i :: 0 <= i < |parts| ==> parts[i] != "") ==> (r == "" <==> parts == [])
  {
    if parts == [] then ""
    else if |parts| == 1 then parts[0]
    else parts[0] + sep + Join(parts[1..], sep)
  }

  /** `fields.filter(Boolean)`, keeping the values. */
  function TruthyValues(fields: seq<Option<string>>): (r: seq<string>)
    ensures forall i :: 0 <= i < |r| ==> r[i] != ""
    ensures r == [] <==> forall i :: 0 <= i < |fields| ==> !Truthy(fields[i])
  {
    if fields == [] then []
    else
      var rest := TruthyValues(fields[1..]);
      assert forall i :: 0 <= i < |fields[1..]| ==> fields[1..][i] == fields[i + 1];
      if Truthy(fields[0]) then [fields[0].value] + rest else rest
  }

  /** The address `simplify` builds when the record has none. */
  function PartsAddress(r: RawListing): string {
    Join(TruthyValues([r.propertyStreet, r.propertyLocality, r.propertyTown, r.propertyPostcode]), ", ")
  }

  /** `simplify(r, market)` (src/estate.js:87-99). */
  function Simplify(r: RawListing, market: Market): (c: Candidate)
    ensures c.market == market && c.price == r.price
    ensures Truthy(r.address) ==> c.address == r.address.value
    ensures c.address == "" <==>
      !Truthy(r.address) && !Truthy(r.propertyStreet) && !Truthy(r.propertyLocality) &&
      !Truthy(r.propertyTown) && !Truthy(r.propertyPostcode)
    ensures c.refId == "" <==> !Truthy(Coalesce(r.refId, Coalesce(r.salesLifecycleId, r.lettingsLifecycleId)))
  {
    var parts := [r.propertyStreet, r.propertyLocality, r.propertyTown, r.propertyPostcode];
    assert TruthyValues(parts) == [] <==> !Truthy(parts[0]) && !Truthy(parts[1]) && !Truthy(parts[2]) && !Truthy(parts[3]);
    var id := Coalesce(r.refId, Coalesce(r.salesLifecycleId, r.lettingsLifecycleId));
    Candidate(
      refId := if id.Some? then id.value else "",
      address := if Truthy(r.address) then r.address.value else PartsAddress(r),
      street := OrEmpty(r.propertyStreet),
      town := OrEmpty(r.propertyTown),
      postcode := OrEmpty(r.propertyPostcode),
      propertyTypeText := OrEmpty(r.propertyTypeText),
      price := r.price,
      market := market,
      teamEmail := OrEmpty(r.teamEmail),
      teamPhone := OrEmpty(r.teamPhone),
      agentName := OrEmpty(r.responsibleAgentName))
  }

  /** The identity key `p.refId || p.address`. */
  function Key(c: Candidate): string {
    if c.refId != "" then c.refId else c.address
  }

  /** A record with no usable id and no address information gets the empty key, so all such
      records are one listing to the deduplication. */
  lemma SimplifyEmptyKey(r: RawListing, market: Market)
    ensures Key(Simplify(r, market)) == "" <==>
      !Truthy(Coalesce(r.refId, Coalesce(r.salesLifecycleId, r.lettingsLifecycleId))) &&
      !Truthy(r.address) && !Truthy(r.propertyStreet) && !Truthy(r.propertyLocality) &&
      !Truthy(r.propertyTown) && !Truthy(r.propertyPostcode)
  {
  }

  // ---------------------------------------------------------------------------
  // Deduplication

  function Keys(s: seq<Candidate>): set<string> {
    set c | c in s :: Key(c)
  }

  predicate DistinctKeys(s: seq<Candidate>) {
    forall i, j :: 0 <= i < j < |s| ==> Key(s[i]) != Key(s[j])
  }

  /** The position of the first element of `s` whose key is `k` (`|s|` when there is none). */
  function FirstIndex(s: seq<Candidate>, k: string): (r: nat)
    ensures r <= |s|
    ensures forall j :: 0 <= j < r ==> Key(s[j]) != k
    ensures r < |s| ==> Key(s[r]) == k
  {
    if s == [] then 0
    else if Key(s[0]) == k then 0
    else 1 + FirstIndex(s[1..], k)
  }

  /** What the loop `for (const p of list) { const k = ...; if (!seen.has(k)) { seen.add(k);
      de.push(p); } }` leaves in `de` for the rest `s` of the list, given the keys already `seen`. */
  function DedupFrom(s: seq<Candidate>, seen: set<string>): seq<Candidate> {
    if s == [] then []
    else if Key(s[0]) in seen then DedupFrom(s[1..], seen)
    else [s[0]] + DedupFrom(s[1..], seen + {Key(s[0])})
  }

  lemma {:induction false} DedupSubList(s: seq<Candidate>, seen: set<string>)
    ensures SubList(DedupFrom(s, seen), s)
  {
    if s != [] {
      var k := Key(s[0]);
      if k in seen {
        DedupSubList(s[1..], seen);
        SubListDropHeadStep(DedupFrom(s[1..], seen), s);
      } else {
        DedupSubList(s[1..], seen + {k});
      }
    }
  }

  lemma {:induction false} DedupFresh(s: seq<Candidate>, seen: set<string>)
    ensures forall c :: c in DedupFrom(s, seen) ==> c in s && Key(c) !in seen
  {
    if s != [] {
      var k := Key(s[0]);
      if k in seen {
        DedupFresh(s[1..], seen);
      } else {
        DedupFresh(s[1..], seen + {k});
      }
    }
  }

  lemma {:induction false} DedupDistinct(s: seq<Candidate>, seen: set<string>)
    ensures DistinctKeys(DedupFrom(s, seen))
  {
    if s != [] {
      var k := Key(s[0]);
      if k in seen {
        DedupDistinct(s[1..], seen);
      } else {
        var t := DedupFrom(s[1..], seen + {k});
        DedupDistinct(s[1..], seen + {k});
        DedupFresh(s[1..], seen + {k});
        var r := [s[0]] + t;
        forall i, j | 0 <= i < j < |r| ensures Key(r[i]) != Key(r[j]) {
          assert r[j] == t[j - 1] && r[j] in t;
          if i > 0 {
            assert r[i] == t[i - 1];
          }
        }
      }
    }
  }

  lemma {:induction false} DedupKeys(s: seq<Candidate>, seen: set<string>)
    ensures Keys(DedupFrom(s, seen)) == Keys(s) - seen
  {
    if s != [] {
      var k := Key(s[0]);
      assert Keys(s) == Keys(s[1..]) + {k} by {
        assert s == [s[0]] + s[1..];
      }
      if k in seen {
        DedupKeys(s[1..], seen);
      } else {
        var t := DedupFrom(s[1..], seen + {k});
        DedupKeys(s[1..], seen + {k});
        assert Keys([s[0]] + t) == Keys(t) + {k} by {
          assert forall c :: c in [s[0]] + t <==> c == s[0] || c in t;
        }
      }
    }
  }

  lemma {:induction false} DedupFirst(s: seq<Candidate>, seen: set<string>)
    ensures forall c :: c in DedupFrom(s, seen) ==> FirstIndex(s, Key(c)) < |s| && s[FirstIndex(s, Key(c))] == c
  {
    if s != [] {
      var k := Key(s[0]);
      var seen' := if k in seen then seen else seen + {k};
      var t := DedupFrom(s[1..], seen');
      DedupFirst(s[1..], seen');
      DedupFresh(s[1..], seen');
      var r := DedupFrom(s, seen);
      assert r == if k in seen then t else [s[0]] + t;
      forall c | c in r ensures FirstIndex(s, Key(c)) < |s| && s[FirstIndex(s, Key(c))] == c {
        if c in t {
          assert Key(c) != k;
          var j := FirstIndex(s[1..], Key(c));
          assert FirstIndex(s, Key(c)) == 1 + j;
          assert s[1 + j] == s[1..][j];
        } else {
          assert c == s[0] && FirstIndex(s, k) == 0;
        }
      }
    }
  }

  /** The deduplicated list is an order-preserving sub-list with pairwise distinct keys, none of
      them already seen; it has every key of the input that was not seen, and each element it
      keeps is the first input element with that key. */
  lemma DedupFromSpec(s: seq<Candidate>, seen: set<string>)
    ensures var r := DedupFrom(s, seen);
      SubList(r, s) && DistinctKeys(r) &&
      (forall c :: c in r ==> Key(c) !in seen) &&
      Keys(r) == Keys(s) - seen &&
      (forall i :: 0 <= i < |r| ==> FirstIndex(s, Key(r[i])) < |s| && s[FirstIndex(s, Key(r[i]))] == r[i])
  {
    DedupSubList(s, seen);
    DedupFresh(s, seen);
    DedupDistinct(s, seen);
    DedupKeys(s, seen);
    DedupFirst(s, seen);
  }

  /** The dedupe loop of src/estate.js:175-176 and 199-200. */
  method Dedupe(list: seq<Candidate>) returns (de: seq<Candidate>)
    ensures de == DedupFrom(list, {})
    ensures SubList(de, list) && DistinctKeys(de) && Keys(de) == Keys(list)
    ensures forall i :: 0 <= i < |de| ==>
      FirstIndex(list, Key(de[i])) < |list| && list[FirstIndex(list, Key(de[i]))] == de[i]
  {
    var seen: set<string> := {};
    de := [];
    for i := 0 to |list|
      invariant de + DedupFrom(list[i..], seen) == DedupFrom(list, {})
    {
      var p := list[i];
      var k := Key(p);
      assert list[i..] == [p] + list[i + 1..];
      if k !in seen {
        seen := seen + {k};
        de := de + [p];
      }
    }
    DedupFromSpec(list, {});
  }

  /** Two records that carry the same non-empty reference id, however differently their other
      fields are written, leave one candidate: the first. */
  lemma SameRefIdCollapses(r1: RawListing, m1: Market, r2: RawListing, m2: Market)
    requires Simplify(r1, m1).refId != ""
    requires Simplify(r1, m1).refId == Simplify(r2, m2).refId
    ensures DedupFrom([Simplify(r1, m1), Simplify(r2, m2)], {}) == [Simplify(r1, m1)]
  {
    var c1, c2 := Simplify(r1, m1), Simplify(r2, m2);
    assert [c1, c2][1..] == [c2];
    assert [c2][1..] == [];
    assert Key(c1) == Key(c2);
    assert {} + {Key(c1)} == {Key(c1)};
    assert DedupFrom([c2], {Key(c1)}) == [];
    assert DedupFrom([c1, c2], {}) == [c1] + DedupFrom([c2], {Key(c1)});
  }

  /** A sub-list of a list with distinct keys has distinct keys. */
  lemma {:induction false} SubListDistinct(xs: seq<Candidate>, ys: seq<Candidate>)
    requires SubList(xs, ys) && DistinctKeys(ys)
    ensures DistinctKeys(xs)
    decreases |ys|
  {
    if xs != [] && ys != [] {
      assert DistinctKeys(ys[1..]) by {
        assert forall i :: 0 <= i < |ys[1..]| ==> ys[1..][i] == ys[i + 1];
      }
      if xs[0] == ys[0] {
        SubListDistinct(xs[1..], ys[1..]);
        SubListMembers(xs[1..], ys[1..]);
        forall j | 0 < j < |xs| ensures Key(xs[0]) != Key(xs[j]) {
          assert xs[j] == xs[1..][j - 1];
          assert xs[j] in xs[1..];
          var m :| 0 <= m < |ys[1..]| && ys[1..][m] == xs[j];
          assert ys[m + 1] == xs[j];
        }
      } else {
        SubListDistinct(xs, ys[1..]);
      }
    }
  }
}
