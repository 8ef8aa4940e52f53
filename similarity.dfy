/** Similarity primitives of src/estate.js: Levenshtein distance (`lev`) and the simplified
    Soundex code (`soundex`). */
module Similarity {
  import opened Basics
  import opened Text

  // ---------------------------------------------------------------------------
  // Edit distance

  /** `Math.min(x, y, z)` */
  function Min3(x: int, y: int, z: int): (r: int)
    ensures r <= x && r <= y && r <= z
    ensures r == x || r == y || r == z
  {
    if x <= y && x <= z then x else if y <= z then y else z
  }

  /** The cell `m[i][j]` of the table `lev` fills: the unit-cost edit distance between the
      prefixes `a[..i]` and `b[..j]`. */
  function Dist(a: string, b: string, i: nat, j: nat): nat
    requires i <= |a| && j <= |b|
    decreases i + j
  {
    if i == 0 then j
    else if j == 0 then i
    else Min3(Dist(a, b, i - 1, j) + 1,
              Dist(a, b, i, j - 1) + 1,
              Dist(a, b, i - 1, j - 1) + (if a[i - 1] == b[j - 1] then 0 else 1))
  }

  /** Levenshtein distance between two whole strings. */
  function Distance(a: string, b: string): nat {
    Dist(a, b, |a|, |b|)
  }

  /** The dynamic-programming loops of `lev` (src/estate.js:29-41) on already normalised input. */
  method EditDistance(a: string, b: string) returns (d: nat)
    ensures d == Distance(a, b)
  {
    var m := new nat[|a| + 1, |b| + 1];
    var i := 0;
    while i <= |a|
      invariant 0 <= i <= |a| + 1
      invariant forall k :: 0 <= k < i ==> m[k, 0] == k
    {
      m[i, 0] := i;
      i := i + 1;
    }
    var j := 0;
    while j <= |b|
      invariant 0 <= j <= |b| + 1
      invariant forall l :: 0 <= l < j ==> m[0, l] == Dist(a, b, 0, l)
      invariant forall k :: 0 <= k <= |a| ==> m[k, 0] == k
    {
      m[0, j] := j;
      j := j + 1;
    }
    i := 1;
    while i <= |a|
      invariant 1 <= i <= |a| + 1
      invariant forall k, l {:trigger m[k, l]} :: 0 <= k < i && 0 <= l <= |b| ==> m[k, l] == Dist(a, b, k, l)
      invariant forall k :: i <= k <= |a| ==> m[k, 0] == k
    {
      FillRow(m, a, b, i);
      i := i + 1;
    }
    d := m[|a|, |b|];
  }

  /** One pass of the inner loop of `lev`: row `i` of the table from row `i - 1`. */
  method FillRow(m: array2<nat>, a: string, b: string, i: nat)
    requires m.Length0 == |a| + 1 && m.Length1 == |b| + 1
    requires 1 <= i <= |a|
    requires forall k, l {:trigger m[k, l]} :: 0 <= k < i && 0 <= l <= |b| ==> m[k, l] == Dist(a, b, k, l)
    requires forall k :: i <= k <= |a| ==> m[k, 0] == k
    modifies m
    ensures forall k, l {:trigger m[k, l]} :: 0 <= k <= i && 0 <= l <= |b| ==> m[k, l] == Dist(a, b, k, l)
    ensures forall k :: i < k <= |a| ==> m[k, 0] == k
  {
    var j := 1;
    while j <= |b|
      invariant 1 <= j <= |b| + 1
      invariant forall k, l {:trigger m[k, l]} :: 0 <= k < i && 0 <= l <= |b| ==> m[k, l] == Dist(a, b, k, l)
      invariant forall l {:trigger m[i, l]} :: 0 <= l < j ==> m[i, l] == Dist(a, b, i, l)
      invariant forall k :: i < k <= |a| ==> m[k, 0] == k
    {
      var del, ins, sub := m[i - 1, j] + 1, m[i, j - 1] + 1,
                           m[i - 1, j - 1] + (if a[i - 1] == b[j - 1] then 0 else 1);
      assert Dist(a, b, i, j) == Min3(del, ins, sub);
      m[i, j] := Min3(del, ins, sub);
      j := j + 1;
    }
  }

  /** `lev(a, b)` (src/estate.js:27-42): both sides are normalised before the table is filled. */
  method Lev(a: string, b: string) returns (d: nat)
    ensures d == Distance(Norm(a), Norm(b))
  {
    var x := Norm(a);
    var y := Norm(b);
    d := EditDistance(x, y);
  }

  lemma {:induction false} DistSelf(a: string, i: nat)
    requires i <= |a|
    ensures Dist(a, a, i, i) == 0
  {
    if i > 0 {
      DistSelf(a, i - 1);
    }
  }

  /** `lev(a, a) == 0` */
  lemma DistanceSelf(a: string)
    ensures Distance(a, a) == 0
  {
    DistSelf(a, |a|);
  }

  lemma {:induction false} DistSymmetric(a: string, b: string, i: nat, j: nat)
    requires i <= |a| && j <= |b|
    ensures Dist(a, b, i, j) == Dist(b, a, j, i)
    decreases i + j
  {
    if i > 0 && j > 0 {
      DistSymmetric(a, b, i - 1, j);
      DistSymmetric(a, b, i, j - 1);
      DistSymmetric(a, b, i - 1, j - 1);
    }
  }

  /** `lev(a, b) == lev(b, a)` */
  lemma DistanceSymmetric(a: string, b: string)
    ensures Distance(a, b) == Distance(b, a)
  {
    DistSymmetric(a, b, |a|, |b|);
  }

  lemma {:induction false} DistBounds(a: string, b: string, i: nat, j: nat)
    requires i <= |a| && j <= |b|
    ensures i - j <= Dist(a, b, i, j) && j - i <= Dist(a, b, i, j)
    ensures Dist(a, b, i, j) <= if i < j then j else i
    decreases i + j
  {
    if i > 0 && j > 0 {
      DistBounds(a, b, i - 1, j);
      DistBounds(a, b, i, j - 1);
      DistBounds(a, b, i - 1, j - 1);
    }
  }

  /** The length difference bounds the distance from below, the longer length from above. */
  lemma DistanceBounds(a: string, b: string)
    ensures |a| - |b| <= Distance(a, b) && |b| - |a| <= Distance(a, b)
    ensures Distance(a, b) <= if |a| < |b| then |b| else |a|
  {
    DistBounds(a, b, |a|, |b|);
  }

  lemma {:induction false} DistZero(a: string, b: string, i: nat, j: nat)
    requires i <= |a| && j <= |b|
    requires Dist(a, b, i, j) == 0
    ensures i == j && a[..i] == b[..j]
    decreases i + j
  {
    DistBounds(a, b, i, j);
    if i > 0 {
      DistBounds(a, b, i - 1, j);
      DistBounds(a, b, i, j - 1);
      DistZero(a, b, i - 1, j - 1);
      assert a[..i] == a[..i - 1] + [a[i - 1]];
      assert b[..j] == b[..j - 1] + [b[j - 1]];
    }
  }

  /** The distance is zero exactly on equal strings. */
  lemma DistanceZeroIff(a: string, b: string)
    ensures Distance(a, b) == 0 <==> a == b
  {
    if Distance(a, b) == 0 {
      DistZero(a, b, |a|, |b|);
      assert a == a[..|a|] && b == b[..|b|];
    } else {
      DistanceSelf(a);
    }
  }

  /** Equal prefixes are at distance zero. */
  lemma {:induction false} DistEqualPrefix(a: string, b: string, i: nat)
    requires i <= |a| && i <= |b| && a[..i] == b[..i]
    ensures Dist(a, b, i, i) == 0
  {
    if i > 0 {
      assert a[..i - 1] == a[..i][..i - 1] && b[..i - 1] == b[..i][..i - 1];
      assert a[i - 1] == a[..i][i - 1] && b[i - 1] == b[..i][i - 1];
      DistEqualPrefix(a, b, i - 1);
    }
  }

  /** After an insertion at position `k`, the prefix `a[..i]` (for `i >= k`) is at most one
      edit away from the prefix of `b` one longer. */
  lemma {:induction false} DistInsertPrefix(a: string, c: char, k: nat, i: nat)
    requires k <= i <= |a|
    ensures Dist(a, a[..k] + [c] + a[k..], i, i + 1) <= 1
  {
    var b := a[..k] + [c] + a[k..];
    if i == k {
      if k > 0 {
        assert a[..k] == b[..k];
        DistEqualPrefix(a, b, k);
      }
    } else {
      DistInsertPrefix(a, c, k, i - 1);
      assert b[i] == a[i - 1];
    }
  }

  /** Inserting one character is a single edit: `lev(a, b) <= 1`. */
  lemma DistanceInsert(a: string, c: char, k: nat)
    requires k <= |a|
    ensures Distance(a, a[..k] + [c] + a[k..]) <= 1
  {
    DistInsertPrefix(a, c, k, |a|);
  }

  // ---------------------------------------------------------------------------
  // Soundex

  /** `toUpperCase` on one character (ASCII case mapping). */
  function ToUpper(c: char): char {
    if 'a' <= c <= 'z' then (c as int - 32) as char else c
  }

  predicate IsUpperLetter(c: char) {
    'A' <= c <= 'Z'
  }

  /** `s.toUpperCase()` (ASCII case mapping). */
  function UpperCase(s: string): (r: string)
    ensures |r| == |s|
    ensures forall i :: 0 <= i < |s| ==> r[i] == ToUpper(s[i])
  {
    seq(|s|, i requires 0 <= i < |s| => ToUpper(s[i]))
  }

  /** `s.toUpperCase().replace(/[^A-Z]/g, "")` */
  function UpperLetters(s: string): (r: string)
    ensures forall i :: 0 <= i < |r| ==> IsUpperLetter(r[i])
    ensures r == [] <==> forall i :: 0 <= i < |s| ==> !IsUpperLetter(ToUpper(s[i]))
    ensures r != [] ==>
      exists k :: 0 <= k < |s| && r[0] == ToUpper(s[k]) &&
        forall j :: 0 <= j < k ==> !IsUpperLetter(ToUpper(s[j]))
  {
    if s == [] then []
    else if IsUpperLetter(ToUpper(s[0])) then
      var r := [ToUpper(s[0])] + UpperLetters(s[1..]);
      assert r[0] == ToUpper(s[0]);
      r
    else
      var r := UpperLetters(s[1..]);
      assert forall i :: 0 <= i < |s[1..]| ==> s[1..][i] == s[i + 1];
      if r == [] then r
      else
        var k :| 0 <= k < |s[1..]| && r[0] == ToUpper(s[1..][k]) &&
          forall j :: 0 <= j < k ==> !IsUpperLetter(ToUpper(s[1..][j]));
        assert forall j :: 0 <= j < k + 1 ==> !IsUpperLetter(ToUpper(s[j]));
        r
  }

  /** `UpperLetters` keeps exactly the letters of the upper-cased string, in order and
      with their multiplicities. */
  lemma {:induction false} UpperLettersFilter(s: string)
    ensures UpperLetters(s) == Filter(UpperCase(s), IsUpperLetter)
  {
    if s != [] {
      UpperLettersFilter(s[1..]);
      assert UpperCase(s)[1..] == UpperCase(s[1..]);
    }
  }

  /** The consonant classes of the `map` object in `soundex`; vowels, H, W and Y (and any
      letter the object does not list) are 0. */
  function ClassOf(c: char): nat {
    if c == 'B' || c == 'F' || c == 'P' || c == 'V' then 1
    else if c == 'C' || c == 'G' || c == 'J' || c == 'K' || c == 'Q' || c == 'S' || c == 'X' || c == 'Z' then 2
    else if c == 'D' || c == 'T' then 3
    else if c == 'L' then 4
    else if c == 'M' || c == 'N' then 5
    else if c == 'R' then 6
    else 0
  }

  /** The decimal digit of a class 1..6, as `out += code` appends it. */
  function DigitChar(code: nat): char
    requires 1 <= code <= 6
  {
    ('0' as int + code) as char
  }

  /** The digits the loop of `soundex` appends while scanning `t` from index `i`, with the class
      of the previous letter in `prev` and `room` characters left before `out` is 4 long. A class is
      appended when it is non-zero and differs from the previous letter's; a zero class
      (vowel, H, W, Y) resets `prev`, so a class repeated across a vowel is appended again. */
  function Encode(t: string, i: nat, prev: nat, room: nat): (r: string)
    ensures |r| <= room
    ensures forall k :: 0 <= k < |r| ==> '1' <= r[k] <= '6'
    decreases |t| - i
  {
    if i >= |t| || room == 0 then []
    else
      var code := ClassOf(t[i]);
      if code != 0 && code != prev then [DigitChar(code)] + Encode(t, i + 1, code, room - 1)
      else Encode(t, i + 1, code, room)
  }

  /** `while (out.length < n) out += "0"` */
  function PadZeros(out: string, n: nat): (r: string)
    ensures |out| <= n ==> |r| == n && r[..|out|] == out
    ensures forall i :: |out| <= i < |r| ==> r[i] == '0'
    decreases n - |out|
  {
    if |out| < n then PadZeros(out + "0", n) else out
  }

  /** The simplified Soundex code of src/estate.js:45-59. */
  function SoundexOf(s: string): string {
    var t := UpperLetters(s);
    if t == [] then "" else PadZeros([t[0]] + Encode(t, 1, ClassOf(t[0]), 3), 4)
  }

  /** `soundex(s)` (src/estate.js:45-59), with its scanning loop and its padding loop. */
  method Soundex(s: string) returns (r: string)
    ensures r == SoundexOf(s)
  {
    var t := UpperLetters(s);
    if t == [] {
      return "";
    }
    var out := ScanCodes(t);
    while |out| < 4
      invariant PadZeros(out, 4) == SoundexOf(s)
      decreases 4 - |out|
    {
      out := out + "0";
    }
    r := out;
  }

  /** The scanning loop of `soundex`: the first letter, then class digits until `out` is four
      characters long or the letters run out. */
  method ScanCodes(t: string) returns (out: string)
    requires t != []
    ensures out == [t[0]] + Encode(t, 1, ClassOf(t[0]), 3)
  {
    ghost var target := [t[0]] + Encode(t, 1, ClassOf(t[0]), 3);
    out := [t[0]];
    var prev := ClassOf(t[0]);
    var i := 1;
    ghost var room := 3;
    while i < |t| && |out| < 4
      invariant 1 <= i <= |t|
      invariant room == 4 - |out| && 0 <= room <= 3
      invariant out + Encode(t, i, prev, room) == target
    {
      var code := ClassOf(t[i]);
      if code != 0 && code != prev {
        ghost var rest := Encode(t, i + 1, code, room - 1);
        assert Encode(t, i, prev, room) == [DigitChar(code)] + rest;
        assert (out + [DigitChar(code)]) + rest == out + ([DigitChar(code)] + rest);
        out := out + [DigitChar(code)];
        room := room - 1;
      } else {
        assert Encode(t, i, prev, room) == Encode(t, i + 1, code, room);
      }
      prev := code;
      i := i + 1;
    }
    assert Encode(t, i, prev, room) == [];
  }

  /** The shape of a code: empty when the input has no A-Z letter; otherwise four characters,
      the first letter followed by class digits 1-6 and then '0' padding. */
  lemma SoundexShape(s: string)
    ensures SoundexOf(s) == "" <==> forall i :: 0 <= i < |s| ==> !IsUpperLetter(ToUpper(s[i]))
    ensures SoundexOf(s) != "" ==>
      var r := SoundexOf(s);
      |r| == 4 && r[0] == UpperLetters(s)[0] && IsUpperLetter(r[0]) &&
      (forall i :: 1 <= i < 4 ==> '0' <= r[i] <= '6') &&
      (forall i, j :: 1 <= i < j < 4 && r[i] == '0' ==> r[j] == '0')
  {
    var t := UpperLetters(s);
    if t != [] {
      PaddedShape(t[0], Encode(t, 1, ClassOf(t[0]), 3));
    }
  }

  /** A first letter followed by at most three digits 1-6, padded with zeros to four. */
  lemma PaddedShape(c: char, e: string)
    requires |e| <= 3 && forall i :: 0 <= i < |e| ==> '1' <= e[i] <= '6'
    ensures var r := PadZeros([c] + e, 4);
      |r| == 4 && r[0] == c &&
      (forall i :: 1 <= i < 4 ==> '0' <= r[i] <= '6') &&
      (forall i, j :: 1 <= i < j < 4 && r[i] == '0' ==> r[j] == '0')
  {
    var core := [c] + e;
    var r := PadZeros(core, 4);
    assert r[..|core|] == core;
    assert forall i :: 0 <= i < |core| ==> r[i] == core[i];
    assert forall i :: 1 <= i < |core| ==> r[i] == e[i - 1];
  }
}
