/** The town, street and price matchers of src/estate.js:61-85. */
module Matchers {
  import opened Basics
  import opened Text
  import opened Similarity

  predicate HasLetterOrDigit(s: string) {
    exists i :: 0 <= i < |s| && IsLetterOrDigit(s[i])
  }

  /** `closeTown(want, got)` (src/estate.js:61-66). Its `lev(w, g)` normalises `w` and `g`
      a second time. */
  function CloseTown(want: string, got: string): (r: bool)
    ensures r ==> HasLetterOrDigit(want) && HasLetterOrDigit(got)
    ensures HasLetterOrDigit(want) && Norm(want) == Norm(got) ==> r
  {
    NormEmptyIff(want);
    NormEmptyIff(got);
    ContainsSelf(Norm(want));
    var w := Norm(want);
    var g := Norm(got);
    if w == [] || g == [] then false
    else if Contains(g, w) || Contains(w, g) then true
    else Distance(Norm(w), Norm(g)) <= 2
  }

  /** `streetFuzzyHit(want, got)` (src/estate.js:68-75). */
  function StreetFuzzyHit(want: string, got: string): (r: bool)
    ensures r ==> HasLetterOrDigit(want) && HasLetterOrDigit(got)
    ensures HasLetterOrDigit(want) && Norm(want) == Norm(got) ==> r
  {
    NormEmptyIff(want);
    NormEmptyIff(got);
    ContainsSelf(Norm(want));
    var w := Norm(want);
    var g := Norm(got);
    if w == [] || g == [] then false
    else if Contains(g, w) then true
    else if Distance(Norm(w), Norm(g)) <= 2 then true
    else if SoundexOf(w) == SoundexOf(g) then true
    else false
  }

  lemma NormEmptyIff(s: string)
    ensures Norm(s) == [] <==> !HasLetterOrDigit(s)
  {
    NormEmpty(s);
  }

  /** A town matches when both sides have a letter or digit and, once normalised, one
      contains the other or they are at most two edits apart. */
  lemma CloseTownSpec(want: string, got: string)
    ensures CloseTown(want, got) <==>
      HasLetterOrDigit(want) && HasLetterOrDigit(got) &&
      (Contains(Norm(got), Norm(want)) || Contains(Norm(want), Norm(got)) ||
       Distance(Norm(want), Norm(got)) <= 2)
  {
    NormEmptyIff(want);
    NormEmptyIff(got);
    NormIdempotent(want);
    NormIdempotent(got);
  }

  /** The town matcher does not care which side is the caller's. */
  lemma CloseTownSymmetric(a: string, b: string)
    ensures CloseTown(a, b) == CloseTown(b, a)
  {
    CloseTownSpec(a, b);
    CloseTownSpec(b, a);
    DistanceSymmetric(Norm(a), Norm(b));
  }

  /** Two non-empty normal town names one inserted character apart match, in either order. */
  lemma CloseTownInsert(a: string, c: char, k: nat)
    requires k <= |a| && a != []
    requires IsNormal(a) && IsNormal(a[..k] + [c] + a[k..])
    ensures CloseTown(a, a[..k] + [c] + a[k..]) && CloseTown(a[..k] + [c] + a[k..], a)
  {
    var b := a[..k] + [c] + a[k..];
    NormFixed(a);
    NormFixed(b);
    DistanceInsert(a, c, k);
    DistanceSymmetric(a, b);
  }

  /** "colville" matches "coalville" (the example of src/estate.js:65), in either order. */
  lemma CloseTownColville()
    ensures CloseTown("colville", "coalville") && CloseTown("coalville", "colville")
  {
    var a := "colville";
    assert "coalville" == a[..2] + ['a'] + a[2..];
    assert IsNormal(a);
    assert IsNormal("coalville");
    CloseTownInsert(a, 'a', 2);
  }

  /** A street matches when both sides have a letter or digit and, once normalised, the
      listing's contains the caller's, they are at most two edits apart, or their Soundex
      codes are equal. */
  lemma StreetFuzzyHitSpec(want: string, got: string)
    ensures StreetFuzzyHit(want, got) <==>
      HasLetterOrDigit(want) && HasLetterOrDigit(got) &&
      (Contains(Norm(got), Norm(want)) || Distance(Norm(want), Norm(got)) <= 2 ||
       SoundexOf(Norm(want)) == SoundexOf(Norm(got)))
  {
    NormEmptyIff(want);
    NormEmptyIff(got);
    NormIdempotent(want);
    NormIdempotent(got);
  }

  /** The fallback and the strict filter pass an already normalised want-string; that is the
      same as passing the caller's text. */
  lemma MatchersOnNormalisedWant(want: string, got: string)
    ensures CloseTown(Norm(want), got) == CloseTown(want, got)
    ensures StreetFuzzyHit(Norm(want), got) == StreetFuzzyHit(want, got)
  {
    NormIdempotent(want);
  }

  /** Street matching is symmetric whenever containment is not what decides it. */
  lemma StreetFuzzyHitSymmetricUnlessContained(a: string, b: string)
    requires !Contains(Norm(a), Norm(b)) && !Contains(Norm(b), Norm(a))
    ensures StreetFuzzyHit(a, b) == StreetFuzzyHit(b, a)
  {
    StreetFuzzyHitSpec(a, b);
    StreetFuzzyHitSpec(b, a);
    DistanceSymmetric(Norm(a), Norm(b));
  }

  lemma ContainsSelf(s: string)
    ensures Contains(s, s)
  {
  }

  /** Both matchers accept a string against itself exactly when it has a letter or digit. */
  lemma MatchersReflexive(s: string)
    ensures CloseTown(s, s) <==> HasLetterOrDigit(s)
    ensures StreetFuzzyHit(s, s) <==> HasLetterOrDigit(s)
  {
    CloseTownSpec(s, s);
    StreetFuzzyHitSpec(s, s);
    ContainsSelf(Norm(s));
  }

  /** Two street strings that both have digits but no letter A-Z always match: their Soundex
      codes are both empty, hence equal (`streetFuzzyHit("12", "345")` holds). */
  lemma StreetHitWithoutLetters(want: string, got: string)
    requires HasLetterOrDigit(want) && HasLetterOrDigit(got)
    requires NoUpperLetter(want) && NoUpperLetter(got)
    ensures StreetFuzzyHit(want, got)
  {
    StreetFuzzyHitSpec(want, got);
    NormKeepsNoLetters(want);
    NormKeepsNoLetters(got);
    SoundexShape(Norm(want));
    SoundexShape(Norm(got));
  }

  predicate NoUpperLetter(s: string) {
    forall i :: 0 <= i < |s| ==> !IsUpperLetter(ToUpper(s[i]))
  }

  /** Normalisation introduces no letter A-Z. */
  lemma NormKeepsNoLetters(s: string)
    requires NoUpperLetter(s)
    ensures NoUpperLetter(Norm(s))
  {
    var u := Scrub(Lower(s));
    ScrubLowerKeepsNoLetters(s);
    var v := Collapse(u);
    CollapseKeepsNoLetters(u);
    var w := TrimStart(v);
    assert NoUpperLetter(w) by {
      assert forall i :: 0 <= i < |w| ==> w[i] == v[|v| - |w| + i];
    }
    var x := TrimEnd(w);
    assert NoUpperLetter(x) by {
      assert forall i :: 0 <= i < |x| ==> x[i] == w[i];
    }
  }

  lemma ScrubLowerKeepsNoLetters(s: string)
    requires NoUpperLetter(s)
    ensures NoUpperLetter(Scrub(Lower(s)))
  {
  }

  lemma CollapseKeepsNoLetters(t: string)
    requires NoUpperLetter(t)
    ensures NoUpperLetter(Collapse(t))
  {
    CollapseKeeps(t, c => !IsUpperLetter(ToUpper(c)));
  }

  // ---------------------------------------------------------------------------
  // Prices

  predicate IsDigit(c: char) {
    '0' <= c <= '9'
  }

  /** `s.replace(/[^\d]/g, "")` */
  function DigitsOnly(s: string): (r: string)
    ensures forall i :: 0 <= i < |r| ==> '0' <= r[i] <= '9'
  {
    if s == [] then []
    else if '0' <= s[0] <= '9' then [s[0]] + DigitsOnly(s[1..])
    else DigitsOnly(s[1..])
  }

  /** `DigitsOnly` keeps exactly the digits of `s`, in order and with their multiplicities. */
  lemma {:induction false} DigitsOnlyFilter(s: string)
    ensures DigitsOnly(s) == Filter(s, IsDigit)
  {
    if s != [] {
      DigitsOnlyFilter(s[1..]);
    }
  }

  /** The value of a string of decimal digits (`+ds`, with `+"" == 0`). */
  function DecimalValue(ds: string): nat
    requires forall i :: 0 <= i < |ds| ==> '0' <= ds[i] <= '9'
  {
    if ds == [] then 0
    else DecimalValue(ds[..|ds| - 1]) * 10 + (ds[|ds| - 1] as int - '0' as int)
  }

  /** A string of digits has value zero exactly when every digit is `0`. */
  lemma {:induction false} DecimalValueZero(ds: string)
    requires forall i :: 0 <= i < |ds| ==> '0' <= ds[i] <= '9'
    ensures DecimalValue(ds) == 0 <==> forall i :: 0 <= i < |ds| ==> ds[i] == '0'
  {
    if ds != [] {
      var init := ds[..|ds| - 1];
      assert forall i :: 0 <= i < |init| ==> init[i] == ds[i];
      DecimalValueZero(init);
    }
  }

  /** A price reads as zero (so `priceClose` lets everything through) exactly when it has no
      digit other than `0`. */
  lemma PriceValueZero(s: string)
    ensures PriceValue(s) == 0 <==> forall i :: 0 <= i < |s| && IsDigit(s[i]) ==> s[i] == '0'
  {
    var ds := DigitsOnly(s);
    DigitsOnlyFilter(s);
    DecimalValueZero(ds);
    if forall i :: 0 <= i < |s| && IsDigit(s[i]) ==> s[i] == '0' {
      forall i | 0 <= i < |ds| ensures ds[i] == '0' {
        assert ds[i] in ds;
      }
    }
    if forall i :: 0 <= i < |ds| ==> ds[i] == '0' {
      forall i | 0 <= i < |s| && IsDigit(s[i]) ensures s[i] == '0' {
        assert s[i] in s;
        var j :| 0 <= j < |ds| && ds[j] == s[i];
      }
    }
  }

  /** `+String(x).replace(/[^\d]/g, "") || 0`, on the String rendering of a price. */
  function PriceValue(s: string): nat {
    DecimalValue(DigitsOnly(s))
  }

  function Abs(x: int): nat {
    if x < 0 then -x else x
  }

  function Max(x: int, y: int): int {
    if x < y then y else x
  }

  /** `priceClose(want, got)` (src/estate.js:78-85). `want` is the caller's price as text
      ("" when absent); `got` is the listing's price as its String rendering, `None` for null.
      The band `max(w * 0.12, 15000)` is compared in hundredths, in integers. */
  function PriceClose(want: string, got: Option<string>): (r: bool)
    ensures want == "" || got.None? ==> r
    ensures got.Some? && PriceValue(want) == PriceValue(got.value) ==> r
  {
    if want == "" || got.None? || got.value == "" then true
    else
      var w := PriceValue(want);
      var g := PriceValue(got.value);
      if w == 0 || g == 0 then true
      else 100 * Abs(w - g) <= Max(12 * w, 1500000)
  }

  /** Price matching never filters when either side is missing or has no non-zero digits;
      otherwise the listing price must lie within 12% of the caller's, or within 15000 when
      that is wider. */
  lemma PriceCloseSpec(want: string, got: Option<string>)
    ensures got.None? || PriceValue(want) == 0 || PriceValue(got.value) == 0 ==> PriceClose(want, got)
    ensures got.Some? && PriceValue(want) != 0 && PriceValue(got.value) != 0 ==>
      (PriceClose(want, got) <==>
        var w, g := PriceValue(want), PriceValue(got.value);
        if w <= 125000 then w - 15000 <= g <= w + 15000
        else 100 * w - 12 * w <= 100 * g <= 100 * w + 12 * w)
  {
    if want == "" {
      assert DigitsOnly(want) == [];
    }
    if got.Some? && got.value == "" {
      assert DigitsOnly(got.value) == [];
    }
  }

  /** A listing always matches its own price. */
  lemma PriceCloseReflexive(p: string)
    ensures PriceClose(p, Some(p))
  {
  }

  lemma Value200000()
    ensures DigitsOnly("200000") == "200000" && DecimalValue("200000") == 200000
  {
    assert DigitsOnly("200000") == "200000";
    assert "200000"[..5] == "20000" && "20000"[..4] == "2000" && "2000"[..3] == "200";
    assert "200"[..2] == "20" && "20"[..1] == "2" && "2"[..0] == "";
  }

  lemma Value215000()
    ensures DigitsOnly("215000") == "215000" && DecimalValue("215000") == 215000
  {
    assert DigitsOnly("215000") == "215000";
    assert "215000"[..5] == "21500" && "21500"[..4] == "2150" && "2150"[..3] == "215";
    assert "215"[..2] == "21" && "21"[..1] == "2" && "2"[..0] == "";
  }

  lemma Value260000()
    ensures DigitsOnly("260000") == "260000" && DecimalValue("260000") == 260000
  {
    assert DigitsOnly("260000") == "260000";
    assert "260000"[..5] == "26000" && "26000"[..4] == "2600" && "2600"[..3] == "260";
    assert "260"[..2] == "26" && "26"[..1] == "2" && "2"[..0] == "";
  }

  lemma PoundsIgnored()
    ensures PriceValue("£200,000") == 200000
  {
    assert DigitsOnly("£200,000") == "200000";
    Value200000();
  }

  /** 215000 is within 12% of 200000 (the band named by the comment on src/estate.js:77). */
  lemma PriceCloseNear()
    ensures PriceClose("200000", Some("215000"))
  {
    Value200000();
    Value215000();
  }

  /** 260000 is outside both the 12% band and the 15000 floor around 200000. */
  lemma PriceCloseFar()
    ensures !PriceClose("200000", Some("260000"))
  {
    Value200000();
    Value260000();
  }

  /** Currency symbols and separators are ignored: "£200,000" is close to 215000. */
  lemma PriceCloseIgnoresSymbols()
    ensures PriceClose("£200,000", Some("215000"))
  {
    PoundsIgnored();
    Value215000();
  }
}
