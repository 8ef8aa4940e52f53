# estate lookup engine, modelled in Dafny

This project models the property-lookup engine of `src/estate.js`. The engine takes a street,
town, postcode and asking price. It asks an estate-agency API for matching sales and lettings
listings and reduces the answer to a short list of plausible candidates.

Modules, in dependency order:

- `Basics` (basics.dfy): `Option`, order-preserving sub-lists, and `Filter`, which models
  JavaScript's `Array.filter`.
- `Text` (text.dfy): `norm`. It lower-cases the text and turns every character that is not a
  letter, digit or white space into a space (it does not delete it). It then collapses white
  space and trims. Proved: the shape of the result, idempotence, when the result is empty, and
  that any run of white space or punctuation between two words becomes exactly one space.
- `Similarity` (similarity.dfy): edit distance and the simplified Soundex code.
  - `lev` is an imperative method filling a two-dimensional array. It is proved equal to a
    recursive definition, and symmetry, bounds and the zero case are proved about that
    definition.
  - `soundex` is an imperative method with its two loops, proved equal to a functional
    definition whose shape is then proved.
- `Matchers` (matchers.dfy): `closeTown`, `streetFuzzyHit` and `priceClose`, each with an
  if-and-only-if characterisation in the caller's terms.
- `Listings` (listings.dfy): the raw upstream record and `simplify`, the identity key
  `refId || address`, and the first-occurrence-wins dedupe loop. The loop is a method proved
  equal to a recursive definition, and its properties are proved about that definition.
- `Ranking` (ranking.dfy): the strict filter `filterCandidates` and the town-only fallback.
  The fallback scores, stable-sorts, keeps the twelve best, and re-checks street and price.
  Those re-checks, with its town filter, repeat the strict filter, so as written the fallback
  never returns anything (see "Findings"). `TownFallback` is the fallback without the street
  re-check, and its properties are proved.
  Ranking is generic over the score function, so sortedness, stability, permutation, the cut
  at twelve and key-distinctness are proved once.
- `TtlCache` (cache.dfy): the sixty-second cache, a class whose `map` field is updated by `Get`
  (which deletes an expired entry) and `Set`. The clock is a parameter.
- `Lookup` (lookup.dfy): `pack`, and `unifiedLookup` as a method over a cache.
  - The four HTTP responses are parameters (`Outcome`: fetched results, or a failure marked
    transient or not).
  - The clock readings are parameters.
  - The method returns the response and the list of requests it issues.
  - Lemmas state what a lookup returns: strict matches only, no repeated key, the fast tier's
    short circuit, and when a result is flagged transient.

Points about the code's behaviour that its comments do not make plain:

- The comment on src/estate.js:44 presents Soundex as the way "tilehouse" and "tiehouse" are
  related, but their simplified Soundex codes (`T420`, `T200`) differ. Nor does
  `streetFuzzyHit("Tilehouse Street", "Tiehouse St")` hold:
  - the normalised strings differ in length by five, so their edit distance is at least five
    (`Similarity.DistanceBounds`);
  - neither contains the other;
  - their simplified Soundex codes are `T422` and `T223`.
- The cache is read before the fast tier, and before any request is made.
- A missing API key is an error the lookup reports (`Thrown(MissingApiKey)`), not a
  precondition.

## Model

| member | source | states |
|---|---|---|
| Basics.Filter | src/estate.js:149-153 | `Array.filter`: the result is an order-preserving sub-list holding exactly the elements of the input that satisfy the predicate, each as many times as in the input |
| Basics.FilterFilter | src/estate.js:149-153 | two filters in a row keep exactly what passes both predicates |
| Basics.FilterAll | src/estate.js:220 | a filter that every element passes keeps the whole list |
| Basics.FilterNone | src/estate.js:220 | a filter that no element passes keeps nothing |
| Text.ToLower | src/estate.js:22 | lower-casing one character preserves being a letter or digit and being white space |
| Text.Lower | src/estate.js:22 | `toLowerCase` keeps the length |
| Text.Scrub | src/estate.js:23 | the scrub replaces characters one for one (length kept) |
| Text.TrimStart | src/estate.js:25 | `trim`'s left half: the result is a suffix, what was dropped is all white space, and the result does not start with white space |
| Text.TrimEnd | src/estate.js:25 | `trim`'s right half: the result is a prefix, what was dropped is all white space, and the result does not end with white space |
| Text.Norm | src/estate.js:19-25 | `norm` yields only lower-case letters, digits and single inner spaces, with no space at either end |
| Text.Collapse | src/estate.js:24 | collapsing white space never lengthens the text |
| Text.ContainsIff | src/estate.js:64-71 | `h.includes(n)` holds exactly when `n` is the slice of `h` at some position |
| Text.ScrubLowerChars | src/estate.js:22-23 | after lower-casing and scrubbing, each character is the lower-case form of the input character when that is a letter, a digit or white space, and a plain space otherwise; so it is white space exactly where the input had no letter or digit |
| Text.CollapseShape | src/estate.js:24 | collapsing white space leaves word characters and single spaces; it starts with a space exactly when the input starts with white space; it is empty only for the empty input |
| Text.CollapseChars | src/estate.js:24 | every character of the collapsed text is a plain space or a word character |
| Text.CollapseKeeps | src/estate.js:24 | any character property that holds of the space and of every non-white-space input character holds of every collapsed character |
| Text.CollapseHead | src/estate.js:24 | the collapsed text starts with a space exactly when the input starts with white space, and is empty exactly when the input is |
| Text.CollapseSingleSpaced | src/estate.js:24 | the collapsed text never holds two spaces in a row |
| Text.CollapseAllSpace | src/estate.js:24 | the collapsed text is all white space exactly when the input is |
| Text.NormIsNormal | src/estate.js:19-25 | the chain lower-case, scrub, collapse, trim produces a normal string |
| Text.CollapseFixed | src/estate.js:24 | text with word characters and single spaces only is unchanged by collapsing |
| Text.ScrubLowerFixed | src/estate.js:22-23 | text of lower-case letters, digits and spaces is unchanged by lower-casing and scrubbing |
| Text.TrimsFixed | src/estate.js:25 | text with no white space at either end is unchanged by trimming |
| Text.NormFixed | src/estate.js:19-25 | a normal string is its own normalisation |
| Text.NormIdempotent | src/estate.js:19-25 | `norm(norm(s)) == norm(s)` |
| Text.NormEmpty | src/estate.js:19-25 | `norm(s)` is empty exactly when `s` has no letter and no digit |
| Text.ScrubAllSpace | src/estate.js:22-23 | the scrubbed text is all white space exactly when the input has no letter or digit |
| Text.TrimsEmpty | src/estate.js:25 | trimming leaves nothing exactly when the text is all white space |
| Text.TrimStartAllSpace | src/estate.js:25 | the text left after trimming the front is all white space exactly when the whole text is |
| Text.NormWords | src/estate.js:19-25 | with its spaces removed, `norm(s)` is exactly the lower-cased letters and digits of `s` in their order: nothing else survives and none of them is lost |
| Text.ScrubNonSpace | src/estate.js:23 | the non-white-space characters left by the scrub are exactly the letters and digits of the input, in order |
| Text.CollapseNonSpace | src/estate.js:24 | collapsing white space leaves the non-white-space characters, in order, unchanged |
| Text.TrimStartNonSpace | src/estate.js:25 | trimming the front drops only white space |
| Text.TrimEndNonSpace | src/estate.js:25 | trimming the end drops only white space |
| Text.TrimStartConcat | src/estate.js:25 | trimming the front of `p + q` removes all of `p` when `p` is white space only, and otherwise trims `p` alone |
| Text.TrimStartSpacePrefix | src/estate.js:25 | a front made only of white space is trimmed away entirely |
| Text.TrimStartDrop | src/estate.js:25 | trimming the front gets past any number of leading white space characters |
| Text.TrimStartWordPrefix | src/estate.js:25 | once the front of `p` is trimmed to a word, whatever follows `p` is left untouched |
| Text.TrimStartKeepsLast | src/estate.js:25 | trimming the front of text that holds something other than white space leaves a non-empty text ending as the input does |
| Text.TrimEndConcat | src/estate.js:25 | trimming the end of `p + q` removes all of `q` when `q` is white space only, and otherwise trims `q` alone |
| Text.CollapseSpaceHead | src/estate.js:24 | a leading white space run becomes one space followed by the collapsed rest |
| Text.CollapseWordHead | src/estate.js:24 | a leading character other than white space is kept as it is |
| Text.CollapseConcat | src/estate.js:24 | text ending in something other than white space collapses independently of what follows it |
| Text.CollapseSpaceRun | src/estate.js:24 | a non-empty white space run before a word collapses to exactly one space |
| Text.CollapseAround | src/estate.js:24 | a white space run between two pieces of text becomes exactly one space, and each piece collapses on its own |
| Text.CollapseLast | src/estate.js:24 | text ending in something other than white space collapses to a non-empty text that does too |
| Text.TidyLeft | src/estate.js:24-25 | collapsing and trimming a text with a word in it ignores its trailing white space |
| Text.TidyRight | src/estate.js:24-25 | collapsing and trimming a text with a word in it ignores its leading white space, and its collapsed words start with a word character |
| Text.TidyRightFront | src/estate.js:24-25 | the leading white space of a text with a word in it collapses to at most one space, which the front trim drops |
| Text.TidyJoin | src/estate.js:25 | trimming two collapsed words joined by one space trims only the outer ends |
| Text.TidySeparates | src/estate.js:24-25 | collapsing and trimming two texts with words in them, joined by any non-empty white space run, gives the two results joined by exactly one space |
| Text.ScrubLowerConcat | src/estate.js:22-23 | lower-casing and scrubbing work character by character, so they distribute over concatenation |
| Text.NormSeparates | src/estate.js:19-25 | between two texts that each normalise to something, any non-empty run of non-letters and non-digits (white space, punctuation or both) normalises to exactly one space: `norm(x + m + y) == norm(x) + " " + norm(y)` |
| Text.NormSameSeparation | src/estate.js:19-25 | two words separated by different runs of white space and punctuation normalise alike |
| Text.NormIgnoresCase | src/estate.js:22 | normalising lower-cased text gives the same result as normalising the original |
| Similarity.Min3 | src/estate.js:34-38 | `Math.min` of three is below each argument and equal to one of them |
| Similarity.EditDistance | src/estate.js:29-41 | the table-filling loops return the Levenshtein distance of the two strings |
| Similarity.FillRow | src/estate.js:33-39 | the inner loop fills row `i` with the prefix distances, keeping all earlier rows and the first column |
| Similarity.Lev | src/estate.js:27-42 | `lev(a, b)` is the Levenshtein distance of `norm(a)` and `norm(b)` |
| Similarity.DistSelf | src/estate.js:27-42 | every diagonal cell of the table for a string against itself is 0 |
| Similarity.DistanceSelf | src/estate.js:27-42 | `lev(a, a) == 0` |
| Similarity.DistSymmetric | src/estate.js:27-42 | cell `(i, j)` for `(a, b)` equals cell `(j, i)` for `(b, a)` |
| Similarity.DistanceSymmetric | src/estate.js:27-42 | `lev(a, b) == lev(b, a)` |
| Similarity.DistBounds | src/estate.js:27-42 | each cell lies between the difference and the maximum of the prefix lengths |
| Similarity.DistanceBounds | src/estate.js:27-42 | the length difference is a lower bound on the distance and the longer length an upper bound |
| Similarity.DistZero | src/estate.js:27-42 | a zero cell means equal prefix lengths and equal prefixes |
| Similarity.DistanceZeroIff | src/estate.js:27-42 | the distance is zero exactly on equal strings |
| Similarity.DistEqualPrefix | src/estate.js:27-42 | equal prefixes are at distance zero |
| Similarity.DistInsertPrefix | src/estate.js:27-42 | after one insertion at position `k`, each longer prefix is at most one edit from the prefix of the other string one character longer |
| Similarity.DistanceInsert | src/estate.js:27-42 | inserting one character is a single edit: the distance is at most one |
| Similarity.UpperLetters | src/estate.js:46 | the letters kept are all A-Z; none are kept exactly when the input has no letter A-Z once upper-cased; the first kept is the upper case of the first input character that is a letter once upper-cased |
| Similarity.UpperCase | src/estate.js:46 | `toUpperCase` keeps the length and upper-cases each character in place |
| Similarity.UpperLettersFilter | src/estate.js:46 | the kept letters are exactly the A-Z characters of the upper-cased input, in order and with their multiplicities |
| Similarity.Encode | src/estate.js:50-56 | the scanning loop appends at most the room left, and only digits 1-6 |
| Similarity.PadZeros | src/estate.js:57 | padding keeps the code as a prefix, reaches the target length and appends only zeros |
| Similarity.Soundex | src/estate.js:45-59 | the method with both loops computes the simplified Soundex code |
| Similarity.ScanCodes | src/estate.js:48-56 | the scanning loop produces the first letter followed by the class digits that `Encode` describes |
| Similarity.SoundexShape | src/estate.js:45-59 | the code is empty exactly when there is no letter A-Z; otherwise it has four characters: the first letter, then digits 0-6, with zeros only as trailing padding |
| Similarity.PaddedShape | src/estate.js:57-58 | a letter plus at most three digits 1-6, padded, has length four with zeros only at the end |
| Matchers.NormEmptyIff | src/estate.js:63 | the empty-side test of both matchers fires exactly for a side with no letter or digit |
| Matchers.CloseTownSpec | src/estate.js:61-66 | `closeTown` holds iff both sides have a letter or digit and, once normalised, one contains the other or they are at most two edits apart |
| Matchers.CloseTownSymmetric | src/estate.js:61-66 | `closeTown(a, b) == closeTown(b, a)` |
| Matchers.CloseTown | src/estate.js:61-66 | `closeTown` fails when either side has no letter or digit, and holds for two sides with the same non-empty normal form |
| Matchers.CloseTownInsert | src/estate.js:61-66 | two non-empty normal town names one inserted character apart match, in either order |
| Matchers.CloseTownColville | src/estate.js:65 | "colville" and "coalville" match, in either order |
| Matchers.StreetFuzzyHitSpec | src/estate.js:68-75 | `streetFuzzyHit` holds iff both sides have a letter or digit and, once normalised, the listing's contains the caller's, they are at most two edits apart, or their Soundex codes agree |
| Matchers.StreetFuzzyHit | src/estate.js:68-75 | `streetFuzzyHit` fails when either side has no letter or digit, and holds for two sides with the same non-empty normal form |
| Matchers.MatchersOnNormalisedWant | src/estate.js:148-151 | passing the already normalised want-string, as the filter and the fallback do, gives the same answer as passing the raw one |
| Matchers.StreetFuzzyHitSymmetricUnlessContained | src/estate.js:68-75 | street matching is symmetric whenever neither side contains the other |
| Matchers.ContainsSelf | src/estate.js:64 | every string includes itself |
| Matchers.MatchersReflexive | src/estate.js:61-75 | both matchers accept a string against itself exactly when it has a letter or digit |
| Matchers.StreetHitWithoutLetters | src/estate.js:68-75 | two street strings with digits but no letter A-Z always match, because both Soundex codes are empty |
| Matchers.NormKeepsNoLetters | src/estate.js:19-25 | normalisation introduces no letter A-Z |
| Matchers.ScrubLowerKeepsNoLetters | src/estate.js:22-23 | lower-casing and scrubbing introduce no letter A-Z |
| Matchers.CollapseKeepsNoLetters | src/estate.js:24 | collapsing white space introduces no letter A-Z |
| Matchers.DigitsOnly | src/estate.js:80-81 | `replace(/[^\d]/g, "")` leaves only digits |
| Matchers.DigitsOnlyFilter | src/estate.js:80-81 | the digits kept are exactly the digits of the input, in order and with their multiplicities |
| Matchers.DecimalValueZero | src/estate.js:80-81 | a digit string has value zero exactly when every digit is `0` |
| Matchers.PriceValueZero | src/estate.js:80-82 | a price reads as zero, so that `priceClose` lets everything through, exactly when it has no digit other than `0` |
| Matchers.PriceCloseSpec | src/estate.js:78-85 | prices never filter when either side is missing or has digit-value 0; otherwise the listing price lies within 15000 of the caller's when that is at most 125000, and within 12% above that |
| Matchers.PriceClose | src/estate.js:78-85 | a missing price on either side never filters, and two prices of the same digit-value are always close |
| Matchers.PriceCloseReflexive | src/estate.js:78-85 | a price is close to itself |
| Matchers.Value200000 | src/estate.js:80 | "200000" has digit-value 200000 |
| Matchers.Value215000 | src/estate.js:80 | "215000" has digit-value 215000 |
| Matchers.Value260000 | src/estate.js:80 | "260000" has digit-value 260000 |
| Matchers.PoundsIgnored | src/estate.js:80 | "£200,000" has digit-value 200000 |
| Matchers.PriceCloseNear | src/estate.js:77-85 | 215000 is close to 200000 |
| Matchers.PriceCloseFar | src/estate.js:77-85 | 260000 is not close to 200000 |
| Matchers.PriceCloseIgnoresSymbols | src/estate.js:77-85 | "£200,000" is close to 215000 |
| Listings.OrEmpty | src/estate.js:90-98 | a string field defaulted to "" is empty exactly when the field is falsy |
| Listings.Join | src/estate.js:89 | joining non-empty parts is empty exactly when there are none |
| Listings.TruthyValues | src/estate.js:89 | `filter(Boolean)` keeps only non-empty values and is empty exactly when every field is falsy |
| Listings.Simplify | src/estate.js:87-99 | the candidate has the given market and the record's price; the record's own address when it has one; an empty address exactly when the record has no address and no street, locality, town or postcode; an empty `refId` exactly when the first non-null id is falsy |
| Listings.SimplifyEmptyKey | src/estate.js:88-89 | the identity key is empty exactly when the record has no usable id and no address information |
| Listings.FirstIndex | src/estate.js:176 | the first position with a given key, or the length when there is none |
| Listings.DedupSubList | src/estate.js:175-176 | the deduplicated list is an order-preserving sub-list of the input |
| Listings.DedupFresh | src/estate.js:175-176 | every kept element comes from the input and has a key not yet seen |
| Listings.DedupDistinct | src/estate.js:175-176 | kept keys are pairwise distinct |
| Listings.DedupKeys | src/estate.js:175-176 | the kept keys are exactly the input keys not yet seen |
| Listings.DedupFirst | src/estate.js:175-176 | each kept element is the first input element with its key |
| Listings.DedupFromSpec | src/estate.js:175-176 | all five of the above together |
| Listings.Dedupe | src/estate.js:199-200 | the seen-set loop returns an order-preserving sub-list with distinct keys, every input key, and the first element of each key |
| Listings.SameRefIdCollapses | src/estate.js:176 | two records with the same non-empty reference id leave only the first |
| Listings.SubListDistinct | src/estate.js:149-153 | dropping elements keeps keys distinct |
| Ranking.FilterCandidates | src/estate.js:147-155 | the strict filter returns an order-preserving sub-list of exactly the candidates that pass the place matchers and the price matcher, each as many times as in the input |
| Ranking.StrictFilterSpec | src/estate.js:147-155 | a kept candidate matches the given town against its town or address, the given street against its street or address, and the given price |
| Ranking.StrictFilterDistinct | src/estate.js:147-155 | the strict filter keeps distinct keys distinct |
| Ranking.Scores | src/estate.js:215 | each candidate is paired with its score, in order |
| Ranking.Score | src/estate.js:208-212 | a score is never below -1, and two strings with the same normal form score at most 0 |
| Ranking.InsertMultiset | src/estate.js:216 | one insertion step adds exactly the inserted entry |
| Ranking.InsertMembers | src/estate.js:216 | after insertion, the members are the inserted entry and the old ones |
| Ranking.InsertSorted | src/estate.js:216 | insertion into a sorted list keeps it sorted by score |
| Ranking.InsertWithScore | src/estate.js:216 | insertion keeps the order of entries of equal score, the inserted one going first |
| Ranking.SortPermutes | src/estate.js:216 | `sort((a, b) => a.s - b.s)` yields an ascending permutation of its input |
| Ranking.SortStable | src/estate.js:216 | the sort is stable: entries of equal score keep their input order |
| Ranking.Take | src/estate.js:217 | `slice(0, 12)` is the prefix of length at most twelve, and exactly twelve when there are that many |
| Ranking.Unscored | src/estate.js:218 | `map(x => x.p)` keeps the candidates in order |
| Ranking.RankedEntries | src/estate.js:214-216 | the ranked list is sorted and every entry carries its candidate's score and comes from the input |
| Ranking.ShortlistSpec | src/estate.js:214-218 | the shortlist has at most twelve candidates of the input, in ascending score order |
| Ranking.ShortlistCut | src/estate.js:216-217 | an input candidate missing from the shortlist has twelve entries ahead of it, each scored no worse |
| Ranking.InsertDistinct | src/estate.js:216 | inserting an entry with a new key keeps keys distinct |
| Ranking.HeadKeyFresh | src/estate.js:216 | in a list with distinct keys the head's key is not in the tail, and the tail's keys are distinct |
| Ranking.ConsDistinct | src/estate.js:216 | putting an entry with a new key in front keeps keys distinct |
| Ranking.SortDistinct | src/estate.js:216 | sorting keeps keys distinct |
| Ranking.ShortlistDistinct | src/estate.js:214-218 | the shortlist of a list with distinct keys has distinct keys |
| Ranking.FallbackInShortlist | src/estate.js:214-220 | the fallback's result is an order-preserving sub-list of the shortlist |
| Ranking.TownOnly | src/estate.js:207 | the town-only list is an order-preserving sub-list holding exactly the deduplicated listings that match the town |
| Ranking.FallbackMembers | src/estate.js:206-221 | the fallback returns at most twelve candidates, each a town match from the input that passes the street check (when a street is given) and the price check |
| Ranking.SubListSortedBy | src/estate.js:219-220 | filtering a sorted list keeps it sorted |
| Ranking.FallbackOrdered | src/estate.js:214-220 | the fallback's result is in ascending score order |
| Ranking.ShortlistedKept | src/estate.js:217-220 | a shortlisted candidate that passes the street and price checks is returned |
| Ranking.FallbackTopTwelve | src/estate.js:206-221 | a town match that passes street and price but is not returned had twelve town matches scored no worse ahead of it |
| Ranking.FallbackDistinct | src/estate.js:206-221 | the fallback keeps distinct keys distinct |
| Ranking.FallbackNeverReturns | src/estate.js:205-221 | as written, the fallback returns nothing: whenever the strict filter of the same listings is empty and a town is given, so is the fallback's result, because its town filter and its street and price re-checks are the strict filter's own checks |
| Ranking.RankedLength | src/estate.js:215-216 | scoring and sorting keep every town match |
| Ranking.TownFallback | src/estate.js:206-221 | the corrected fallback keeps an order-preserving sub-list of the shortlist, each member within the price band |
| Ranking.TownFallbackMembers | src/estate.js:206-221 | the corrected fallback returns at most twelve candidates from the input, each a town match within the price band, in ascending score order |
| Ranking.TownFallbackTopTwelve | src/estate.js:206-221 | a town match within the price band is left out of the corrected fallback only when twelve town matches scored no worse are ahead of it, whatever its street |
| Ranking.TownFallbackRecovers | src/estate.js:206-221 | without a price, the corrected fallback is the whole shortlist, so it returns something whenever some listing matches the town |
| Ranking.TownFallbackDistinct | src/estate.js:206-221 | the corrected fallback keeps distinct keys distinct |
| TtlCache.Fresh | src/estate.js:15 | `getCache` returns the stored data iff there is an entry at most sixty seconds old |
| TtlCache.AfterGet | src/estate.js:15 | after a read only an expired entry for that key is gone; all else is unchanged |
| TtlCache.Cache.constructor | src/estate.js:14 | the cache starts empty |
| TtlCache.Cache.Get | src/estate.js:15 | a read returns `Fresh` of the old entries and deletes the key when it has expired |
| TtlCache.Cache.Set | src/estate.js:16 | a write stores the data with the current time under the key, and changes nothing else |
| TtlCache.SetThenGet | src/estate.js:15-16 | a value written at time `at` reads back until sixty seconds have passed, and not after |
| TtlCache.SetKeepsOthers | src/estate.js:15-16 | a write leaves every other key's read unchanged |
| TtlCache.GetInvisibleLater | src/estate.js:15 | deleting an expired entry on read changes no later read |
| Lookup.KeyOfNormalised | src/estate.js:162 | a query and its normalised form share one cache key |
| Lookup.KeyOf | src/estate.js:162 | each of the four fields of the cache key is in normal form |
| Lookup.Markets | src/estate.js:231 | `map(c => c.market)` keeps order |
| Lookup.Uniq | src/estate.js:231 | `Array.from(new Set(...))` holds each market present exactly once, the first one first |
| Lookup.CountsAddUp | src/estate.js:229-230 | `sales_count + lettings_count == candidates.length` |
| Lookup.Count | src/estate.js:229-230 | a market count never exceeds the number of candidates and is zero exactly when no candidate is of that market |
| Lookup.PackSpec | src/estate.js:228-233 | `pack` keeps the candidates and the flag; the counts add up; the markets present are exactly the candidates' markets, at most two, the first candidate's first |
| Lookup.ThreeMarketsRepeat | src/estate.js:231 | two of any three markets coincide |
| Lookup.PackOneMarket | src/estate.js:228-233 | a non-empty list all of one market packs as that market alone, counted in full |
| Lookup.CountOtherMarket | src/estate.js:229-230 | a list all of one market counts none of the other |
| Lookup.SimplifyAll | src/estate.js:193-195 | `results.map(r => simplify(r, market))` simplifies each record in order |
| Lookup.FastTier | src/estate.js:172-177 | the fast tier simplifies, dedupes and strictly filters the fast page, and yields nothing when that page failed or was empty |
| Lookup.FullTier | src/estate.js:193-221 | the full tier dedupes the three result lists and filters strictly, falling back when that finds nothing and the town normalises to something |
| Lookup.Resolve | src/estate.js:166-225 | after a cache miss the lookup answers with the fast tier when it finds a match, else with the full tier; it issues one or four requests accordingly and stores the answer |
| Lookup.UnifiedLookup | src/estate.js:158-226 | with no API key it throws and issues nothing; on a fresh cache entry it returns it and issues nothing; otherwise it answers as `Resolve` and stores the answer over the post-read entries |
| Lookup.SimplifiedMarket | src/estate.js:193-195 | simplified records carry the market they were simplified with |
| Lookup.FastFromPage | src/estate.js:172-177 | fast-tier candidates come from the fast page |
| Lookup.FastMatches | src/estate.js:172-178 | fast-tier candidates are sales listings of the fast page that pass the strict filter |
| Lookup.FallbackStrict | src/estate.js:205-221 | the fallback's candidates pass the strict checks too, since it runs only when a town is given |
| Lookup.FullMatches | src/estate.js:193-221 | full-tier candidates are fetched listings that pass the strict filter |
| Lookup.AnswerMatches | src/estate.js:166-225 | every returned candidate comes from a fetched record and passes the strict place and price checks |
| Lookup.FastDistinct | src/estate.js:175-177 | fast-tier candidates have distinct keys |
| Lookup.FullDistinct | src/estate.js:199-221 | full-tier candidates have distinct keys |
| Lookup.AnswerDistinct | src/estate.js:166-225 | no two returned candidates share an identity key |
| Lookup.FastTierShortCircuits | src/estate.js:178-181 | when the fast tier finds a match, the answer is that match: sales only, counted in full, not transient, and no full-tier request |
| Lookup.TransientIff | src/estate.js:191 | the result is transient iff the fast tier found nothing and some full-tier request failed transiently |
| Lookup.AnyTransient | src/estate.js:191 | the flag can only be raised when one of the three full-tier requests failed |
| Lookup.Answer | src/estate.js:166-225 | the answer's two counts add up to its number of candidates, and it is transient only when the fast tier found nothing and a full-tier request failed transiently |
| Lookup.AllRequests | src/estate.js:167-190 | the four requests of a full lookup start with the fast sales page and repeat none |
| Lookup.Requests | src/estate.js:166-190 | a lookup always requests the fast sales page first, repeats no request, and issues the full-tier requests exactly when the fast tier finds nothing |
| Lookup.FallbackAnswer | src/estate.js:205-221 | when the fast tier and the strict filter both find nothing, the answer has no candidates and zero counts, and is transient exactly when a full-tier request timed out or was aborted |
| Lookup.RepeatWithinTtlHits | src/estate.js:162-164 | repeating the same normalised query within sixty seconds of the store hits the cache |

## Left out

- `fetchWithTimeout` (src/estate.js:101-117), its timer and `AbortController`, and the HTTP
  client are not modelled. Each response is an `Outcome` parameter. How an error is classed as
  transient (an abort or timeout message) is not modelled; it is a field of the outcome.
- `Promise.all` (src/estate.js:186-190): the three full-tier requests are taken as given
  outcomes, in order. Concurrency is not modelled.
- The URL builders `salesURL`, `lettingsFieldedURL` and `lettingsSearchURL`
  (src/estate.js:120-144) are not modelled, because they depend on the `URL` class and on
  configuration. A request is named by a `Request` value.
- Configuration (src/estate.js:4-10) is not modelled. This covers the base URL, the key header,
  the timeouts and the page sizes. The key is an `apiKey` parameter, already trimmed.
- `Date.now()` is not modelled. The reading taken when the cache is read (`now`) and the one
  taken when the result is stored (`storedAt`) are parameters.
- `JSON.stringify` of the cache key (src/estate.js:162) is not modelled. The key is a datatype
  of the four normalised fields.
- Characters are ASCII only. `\p{L}`, `\p{N}`, `toLowerCase` and `toUpperCase` are modelled
  on ASCII letters and digits, so other Unicode letters and digits count as non-letters.
  `\s` is modelled in full.
- Numbers are not modelled in floating point. A price is modelled by its `String` rendering:
  `None` for null or missing, `""` for an absent query price. Its digits are read as an
  unbounded natural number, so precision loss on very long digit strings is not modelled.
  The 12% band is compared exactly in integers.
- Raw records are not untyped objects. They are a datatype whose fields are `Option<string>`,
  each value given as its `String` rendering. A non-string `address` or `propertyStreet`
  value is not distinguished from its rendering.
- `index.js` (routing, e-mail, HTML) is not part of this model.

## Findings

| source | as written | input that shows it | evidently intended | confidence | as-written member | corrected member |
|---|---|---|---|---|---|---|
| src/estate.js:205-221 | the fallback runs only when `filterCandidates` (src/estate.js:147-155) returned nothing for the deduplicated listings; its town filter (:207) and its street and price re-checks (:219-220) are that function's own checks, applied to some of the same listings, so its result is always empty | any lookup with a town whose fast tier finds nothing and whose full-tier listings include town matches but none whose street is close to the query's street | offer the best-ranked town matches within the price band when the street spelling matches nothing | not executed; follows from the proved lemma for every input | Ranking.FallbackNeverReturns | Ranking.TownFallback |

`Lookup.FallbackAnswer` carries the as-written behaviour through to the answer: its candidate
list is empty. The lookup itself keeps the code as written. `Ranking.TownFallbackMembers`,
`Ranking.TownFallbackTopTwelve`, `Ranking.TownFallbackRecovers` and
`Ranking.TownFallbackDistinct` state the corrected fallback's bound, order, town, price and
key properties, and show that it does return town matches.
