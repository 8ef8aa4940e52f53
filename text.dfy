/** Text normalisation (`norm` in src/estate.js) and substring search. */
module Text {
  import opened Basics

  /** ASCII letters and digits: the part of the Unicode classes \p{L} and \p{N} this model covers. */
  predicate IsLetterOrDigit(c: char) {
    'a' <= c <= 'z' || 'A' <= c <= 'Z' || '0' <= c <= '9'
  }

  /** The characters matched by the ECMAScript class `\s`, which is also what `trim` removes. */
  predicate IsSpace(c: char) {
    c == ' ' || c == '\t' || c == '\n' || c == '\r' || c == '\U{000B}' || c == '\U{000C}' ||
    c == '\U{00A0}' || c == '\U{1680}' || ('\U{2000}' <= c <= '\U{200A}') ||
    c == '\U{2028}' || c == '\U{2029}' || c == '\U{202F}' || c == '\U{205F}' ||
    c == '\U{3000}' || c == '\U{FEFF}'
  }

  /** `toLowerCase` on one character (ASCII case mapping). */
  function ToLower(c: char): (r: char)
    ensures IsLetterOrDigit(r) <==> IsLetterOrDigit(c)
    ensures IsSpace(r) <==> IsSpace(c)
  {
    if 'A' <= c <= 'Z' then (c as int + 32) as char else c
  }

  /** A character that can survive normalisation other than the single space: a lower-case letter or a digit. */
  predicate IsWordChar(c: char) {
    IsLetterOrDigit(c) && ToLower(c) == c
  }

  predicate AllSpace(t: string) {
    forall i :: 0 <= i < |t| ==> IsSpace(t[i])
  }

  /** No two consecutive single spaces. */
  predicate SingleSpaced(t: string) {
    forall i :: 0 < i < |t| && t[i] == ' ' ==> t[i - 1] != ' '
  }

  /** The shape of every normalised string: lower-case letters, digits and single inner spaces. */
  predicate IsNormal(t: string) {
    (forall i :: 0 <= i < |t| ==> t[i] == ' ' || IsWordChar(t[i])) &&
    SingleSpaced(t) &&
    (t != [] ==> t[0] != ' ' && t[|t| - 1] != ' ')
  }

  /** `s.toLowerCase()` */
  function Lower(s: string): (r: string)
    ensures |r| == |s|
  {
    seq(|s|, i requires 0 <= i < |s| => ToLower(s[i]))
  }

  /** `s.replace(/[^\p{L}\p{N}\s]/gu, " ")`: every character that is neither a letter, a digit
      nor white space becomes one space (it is not deleted). */
  function Scrub(s: string): (r: string)
    ensures |r| == |s|
  {
    seq(|s|, i requires 0 <= i < |s| => if IsLetterOrDigit(s[i]) || IsSpace(s[i]) then s[i] else ' ')
  }

  /** Drops the white space at the front of `s` (`trimStart`). */
  function TrimStart(s: string): (r: string)
    ensures |r| <= |s| && r == s[|s| - |r|..]
    ensures AllSpace(s[..|s| - |r|])
    ensures r == [] || !IsSpace(r[0])
  {
    if s != [] && IsSpace(s[0]) then
      var rest := s[1..];
      var r := TrimStart(rest);
      var pre := rest[..|rest| - |r|];
      assert rest[|rest| - |r|..] == s[|s| - |r|..];
      assert s[..|s| - |r|] == [s[0]] + pre;
      AllSpaceConcat([s[0]], pre);
      r
    else
      assert s[..0] == [];
      s
  }

  /** Drops the white space at the end of `s` (`trimEnd`). */
  function TrimEnd(s: string): (r: string)
    ensures |r| <= |s| && r == s[..|r|]
    ensures AllSpace(s[|r|..])
    ensures r == [] || !IsSpace(r[|r| - 1])
  {
    if s != [] && IsSpace(s[|s| - 1]) then
      var init := s[..|s| - 1];
      var r := TrimEnd(init);
      assert init[..|r|] == s[..|r|];
      assert s[|r|..] == init[|r|..] + [s[|s| - 1]];
      r
    else s
  }

  /** `s.replace(/\s+/g, " ")`: each maximal run of white space becomes one space. */
  function Collapse(s: string): (r: string)
    ensures |r| <= |s|
    decreases |s|
  {
    if s == [] then []
    else if IsSpace(s[0]) then [' '] + Collapse(TrimStart(s[1..]))
    else [s[0]] + Collapse(s[1..])
  }

  /** `norm` (src/estate.js:19-25): lower-case, scrub, collapse white space, trim. */
  function Norm(s: string): (r: string)
    ensures IsNormal(r)
  {
    NormIsNormal(s);
    TrimEnd(TrimStart(Collapse(Scrub(Lower(s)))))
  }

  /** `h.includes(n)`: `n` occurs in `h` at some position. */
  predicate Contains(h: string, n: string)
    decreases |h|
  {
    n <= h || (h != [] && Contains(h[1..], n))
  }

  /** `n` is the slice of `h` that starts at position `k`. */
  predicate OccursAt(h: string, n: string, k: int) {
    0 <= k && k + |n| <= |h| && h[k..k + |n|] == n
  }

  /** `h.includes(n)` holds exactly when `n` occurs in `h` at some position. */
  lemma {:induction false} ContainsIff(h: string, n: string)
    ensures Contains(h, n) <==> exists k :: OccursAt(h, n, k)
    decreases |h|
  {
    if n <= h {
      assert OccursAt(h, n, 0);
    }
    if h != [] {
      var t := h[1..];
      ContainsIff(t, n);
      if Contains(t, n) {
        var k :| OccursAt(t, n, k);
        assert h[k + 1..k + 1 + |n|] == t[k..k + |n|];
        assert OccursAt(h, n, k + 1);
      }
      if exists k :: OccursAt(h, n, k) {
        var k :| OccursAt(h, n, k);
        if k > 0 {
          assert t[k - 1..k - 1 + |n|] == h[k..k + |n|];
          assert OccursAt(t, n, k - 1);
        }
      }
    }
  }

  // ---------------------------------------------------------------------------
  // Shape of the normalised string

  /** Each character of `s` becomes its lower-case form when it is a letter, a digit or white
      space, and a plain space otherwise; so it is a word character exactly when `s[i]` is a
      letter or digit, and white space otherwise. */
  lemma ScrubLowerChars(s: string)
    ensures forall i :: 0 <= i < |s| ==>
      Scrub(Lower(s))[i] == (if IsLetterOrDigit(s[i]) || IsSpace(s[i]) then ToLower(s[i]) else ' ')
    ensures forall i :: 0 <= i < |s| ==>
      (IsWordChar(Scrub(Lower(s))[i]) || IsSpace(Scrub(Lower(s))[i])) &&
      (IsSpace(Scrub(Lower(s))[i]) <==> !IsLetterOrDigit(s[i]))
  {
  }

  /** After lower-casing and scrubbing, every character is a word character or white space. */
  lemma ScrubLowerWordOrSpace(s: string)
    ensures forall i :: 0 <= i < |s| ==> IsWordChar(Scrub(Lower(s))[i]) || IsSpace(Scrub(Lower(s))[i])
  {
    ScrubLowerChars(s);
  }

  lemma CollapseShape(t: string)
    requires forall i :: 0 <= i < |t| ==> IsWordChar(t[i]) || IsSpace(t[i])
    ensures forall i :: 0 <= i < |Collapse(t)| ==> Collapse(t)[i] == ' ' || IsWordChar(Collapse(t)[i])
    ensures SingleSpaced(Collapse(t))
    ensures Collapse(t) != [] ==> (Collapse(t)[0] == ' ' <==> IsSpace(t[0]))
    ensures Collapse(t) == [] <==> t == []
  {
    CollapseChars(t);
    CollapseSingleSpaced(t);
    CollapseHead(t);
  }

  /** Collapsing keeps word characters and turns white space into plain spaces. */
  lemma CollapseChars(t: string)
    requires forall i :: 0 <= i < |t| ==> IsWordChar(t[i]) || IsSpace(t[i])
    ensures forall i :: 0 <= i < |Collapse(t)| ==> Collapse(t)[i] == ' ' || IsWordChar(Collapse(t)[i])
  {
    CollapseKeeps(t, c => c == ' ' || IsWordChar(c));
  }

  /** Any property of characters that holds of the plain space and of every character of the
      input that is not white space holds of every character of the collapsed string. */
  lemma {:induction false} CollapseKeeps(t: string, P: char -> bool)
    requires P(' ')
    requires forall i :: 0 <= i < |t| ==> IsSpace(t[i]) || P(t[i])
    ensures forall i :: 0 <= i < |Collapse(t)| ==> P(Collapse(t)[i])
    decreases |t|
  {
    if t != [] {
      var rest := t[1..];
      var head, from;
      if IsSpace(t[0]) {
        head, from := ' ', TrimStart(rest);
      } else {
        head, from := t[0], rest;
      }
      assert from == t[|t| - |from|..];
      forall i | 0 <= i < |from|
        ensures IsSpace(from[i]) || P(from[i])
      {
        assert from[i] == t[|t| - |from| + i];
      }
      CollapseKeeps(from, P);
      var c := Collapse(from);
      assert Collapse(t) == [head] + c;
      forall i | 0 <= i < |Collapse(t)|
        ensures P(Collapse(t)[i])
      {
        if i > 0 {
          assert Collapse(t)[i] == c[i - 1];
        }
      }
    }
  }

  /** The first character of a collapsed string is a space exactly when the input starts with
      white space; only the empty string collapses to the empty string. */
  lemma CollapseHead(t: string)
    requires forall i :: 0 <= i < |t| ==> IsWordChar(t[i]) || IsSpace(t[i])
    ensures Collapse(t) != [] ==> (Collapse(t)[0] == ' ' <==> IsSpace(t[0]))
    ensures Collapse(t) == [] <==> t == []
  {
    if t != [] && !IsSpace(t[0]) {
      WordCharNotSpace(t[0]);
    }
  }

  /** A collapsed string never holds two spaces in a row. */
  lemma {:induction false} CollapseSingleSpaced(t: string)
    requires forall i :: 0 <= i < |t| ==> IsWordChar(t[i]) || IsSpace(t[i])
    ensures SingleSpaced(Collapse(t))
    decreases |t|
  {
    if t != [] {
      var rest := t[1..];
      var head, from;
      if IsSpace(t[0]) {
        head, from := ' ', TrimStart(rest);
      } else {
        head, from := t[0], rest;
        WordCharNotSpace(t[0]);
      }
      assert from == t[|t| - |from|..];
      forall i | 0 <= i < |from|
        ensures IsWordChar(from[i]) || IsSpace(from[i])
      {
        assert from[i] == t[|t| - |from| + i];
      }
      CollapseSingleSpaced(from);
      CollapseHead(from);
      assert Collapse(t) == [head] + Collapse(from);
      ConsShape(head, Collapse(from));
    }
  }

  /** Putting `h` in front of a single-spaced string keeps it single-spaced unless both are
      spaces. */
  lemma ConsShape(h: char, c: string)
    requires SingleSpaced(c)
    requires h == ' ' ==> c == [] || c[0] != ' '
    ensures SingleSpaced([h] + c)
    ensures forall i :: 1 <= i < |[h] + c| ==> ([h] + c)[i] == c[i - 1]
  {
  }

  lemma AllSpaceConcat(x: string, y: string)
    ensures AllSpace(x + y) <==> AllSpace(x) && AllSpace(y)
  {
    assert forall i :: 0 <= i < |x| ==> (x + y)[i] == x[i];
    assert forall i :: 0 <= i < |y| ==> (x + y)[|x| + i] == y[i];
    if AllSpace(x) && AllSpace(y) {
      forall i | 0 <= i < |x + y| ensures IsSpace((x + y)[i]) {
        if i >= |x| {
          assert (x + y)[i] == y[i - |x|];
        }
      }
    }
  }

  lemma {:induction false} CollapseAllSpace(t: string)
    ensures AllSpace(Collapse(t)) <==> AllSpace(t)
    decreases |t|
  {
    if t != [] {
      var rest := t[1..];
      assert t == [t[0]] + rest;
      AllSpaceConcat([t[0]], rest);
      if IsSpace(t[0]) {
        var u := TrimStart(rest);
        CollapseAllSpace(u);
        TrimStartAllSpace(rest);
        assert Collapse(t) == [' '] + Collapse(u);
        AllSpaceConcat([' '], Collapse(u));
      } else {
        assert Collapse(t) == [t[0]] + Collapse(rest);
        assert !AllSpace(Collapse(t)) by { assert !IsSpace(Collapse(t)[0]); }
        assert !AllSpace(t) by { assert !IsSpace(t[0]); }
      }
    }
  }

  /** Trimming the front keeps the text all white space, or not. */
  lemma TrimStartAllSpace(x: string)
    ensures AllSpace(TrimStart(x)) <==> AllSpace(x)
  {
    var u := TrimStart(x);
    assert x == x[..|x| - |u|] + u;
    AllSpaceConcat(x[..|x| - |u|], u);
  }

  lemma NormIsNormal(s: string)
    ensures IsNormal(TrimEnd(TrimStart(Collapse(Scrub(Lower(s))))))
  {
    var v := Collapse(Scrub(Lower(s)));
    CollapsedScrubShape(s);
    var w := TrimStart(v);
    SuffixShape(v, w);
    var x := TrimEnd(w);
    PrefixShape(w, x);
  }

  /** Before trimming, the normalised text holds only word characters and single spaces. */
  lemma CollapsedScrubShape(s: string)
    ensures var v := Collapse(Scrub(Lower(s)));
      (forall i :: 0 <= i < |v| ==> v[i] == ' ' || IsWordChar(v[i])) && SingleSpaced(v)
  {
    var u := Scrub(Lower(s));
    ScrubLowerWordOrSpace(s);
    CollapseChars(u);
    CollapseSingleSpaced(u);
  }

  lemma SuffixShape(v: string, w: string)
    requires |w| <= |v| && w == v[|v| - |w|..]
    requires forall i :: 0 <= i < |v| ==> v[i] == ' ' || IsWordChar(v[i])
    requires SingleSpaced(v)
    ensures forall i :: 0 <= i < |w| ==> w[i] == ' ' || IsWordChar(w[i])
    ensures SingleSpaced(w)
  {
    var d := |v| - |w|;
    assert forall i :: 0 <= i < |w| ==> w[i] == v[d + i];
    forall i | 0 < i < |w| && w[i] == ' ' ensures w[i - 1] != ' ' {
      assert v[d + i] == ' ';
    }
  }

  lemma PrefixShape(w: string, x: string)
    requires |x| <= |w| && x == w[..|x|]
    requires forall i :: 0 <= i < |w| ==> w[i] == ' ' || IsWordChar(w[i])
    requires SingleSpaced(w)
    requires w == [] || !IsSpace(w[0])
    requires x == [] || !IsSpace(x[|x| - 1])
    ensures IsNormal(x)
  {
    assert forall i :: 0 <= i < |x| ==> x[i] == w[i];
  }

  // ---------------------------------------------------------------------------
  // Idempotence

  /** A lower-case letter or digit is not white space. */
  lemma WordCharNotSpace(c: char)
    requires IsWordChar(c)
    ensures !IsSpace(c) && c != ' '
  {
  }

  lemma {:induction false} CollapseFixed(t: string)
    requires forall i :: 0 <= i < |t| ==> t[i] == ' ' || IsWordChar(t[i])
    requires SingleSpaced(t)
    ensures Collapse(t) == t
    decreases |t|
  {
    if t != [] {
      var rest := t[1..];
      assert forall i :: 0 <= i < |rest| ==> rest[i] == t[i + 1];
      assert SingleSpaced(rest) by {
        forall i | 0 < i < |rest| && rest[i] == ' ' ensures rest[i - 1] != ' ' {
          assert t[i + 1] == ' ';
        }
      }
      CollapseFixed(rest);
      if IsSpace(t[0]) {
        if t[0] != ' ' {
          WordCharNotSpace(t[0]);
        }
        if rest != [] {
          assert rest[0] != ' ' by {
            assert t[1] == rest[0];
          }
          WordCharNotSpace(rest[0]);
        }
        assert TrimStart(rest) == rest;
        assert Collapse(t) == [' '] + rest;
      } else {
        assert Collapse(t) == [t[0]] + rest;
      }
      assert t == [t[0]] + rest;
    }
  }

  lemma ScrubLowerFixed(t: string)
    requires forall i :: 0 <= i < |t| ==> t[i] == ' ' || IsWordChar(t[i])
    ensures Scrub(Lower(t)) == t
  {
    forall i | 0 <= i < |t| ensures Lower(t)[i] == t[i] {
      if t[i] != ' ' {
        assert IsWordChar(t[i]);
      }
    }
    assert Lower(t) == t;
  }

  lemma TrimsFixed(t: string)
    requires t == [] || (!IsSpace(t[0]) && !IsSpace(t[|t| - 1]))
    ensures TrimEnd(TrimStart(t)) == t
  {
    assert TrimStart(t) == t;
  }

  /** A string already in normal form is left unchanged by `norm`. */
  lemma NormFixed(t: string)
    requires IsNormal(t)
    ensures Norm(t) == t
  {
    ScrubLowerFixed(t);
    CollapseFixed(t);
    if t != [] {
      WordCharNotSpace(t[0]);
      WordCharNotSpace(t[|t| - 1]);
    }
    TrimsFixed(t);
  }

  /** `norm` is idempotent. */
  lemma NormIdempotent(s: string)
    ensures Norm(Norm(s)) == Norm(s)
  {
    NormFixed(Norm(s));
  }

  /** `norm(s)` is empty exactly when `s` has no letter and no digit (this is the `!w || !g`
      guard of the matchers). */
  lemma NormEmpty(s: string)
    ensures Norm(s) == [] <==> forall i :: 0 <= i < |s| ==> !IsLetterOrDigit(s[i])
  {
    var u := Scrub(Lower(s));
    ScrubAllSpace(s);
    CollapseAllSpace(u);
    TrimsEmpty(Collapse(u));
  }

  lemma ScrubAllSpace(s: string)
    ensures AllSpace(Scrub(Lower(s))) <==> forall i :: 0 <= i < |s| ==> !IsLetterOrDigit(s[i])
  {
    ScrubLowerChars(s);
  }

  /** Trimming both ends leaves nothing exactly when everything is white space. */
  lemma TrimsEmpty(x: string)
    ensures TrimEnd(TrimStart(x)) == [] <==> AllSpace(x)
  {
    var w := TrimStart(x);
    var p := x[..|x| - |w|];
    assert x == p + w;
    AllSpaceConcat(p, w);
    var y := TrimEnd(w);
    if y == [] {
      assert w[|y|..] == w;
    }
    if w != [] {
      assert !AllSpace(w) by {
        assert !IsSpace(w[0]);
      }
    }
  }

  // ---------------------------------------------------------------------------
  // What survives normalisation

  predicate NotSpace(c: char) {
    !IsSpace(c)
  }

  /** The characters of `t` that are not white space, in order. */
  function NonSpace(t: string): string {
    Filter(t, NotSpace)
  }

  /** The letters and digits of `s`, lower-cased, in order. */
  function Words(s: string): string {
    Filter(Lower(s), IsLetterOrDigit)
  }

  /** Apart from its single separating spaces, `norm(s)` is exactly the lower-cased letters and
      digits of `s`, in their order: nothing else survives and none of them is lost. */
  lemma NormWords(s: string)
    ensures NonSpace(Norm(s)) == Words(s)
  {
    var u := Scrub(Lower(s));
    var v := Collapse(u);
    var w := TrimStart(v);
    ScrubNonSpace(Lower(s));
    CollapseNonSpace(u);
    TrimStartNonSpace(v);
    TrimEndNonSpace(w);
  }

  lemma {:induction false} ScrubNonSpace(t: string)
    ensures NonSpace(Scrub(t)) == Filter(t, IsLetterOrDigit)
  {
    if t != [] {
      ScrubNonSpace(t[1..]);
      ScrubNonSpaceStep(t);
      assert t == [t[0]] + t[1..];
      FilterCons(t[0], t[1..], IsLetterOrDigit);
    }
  }

  lemma ScrubNonSpaceStep(t: string)
    requires t != []
    ensures NonSpace(Scrub(t)) ==
      if IsLetterOrDigit(t[0]) then [t[0]] + NonSpace(Scrub(t[1..])) else NonSpace(Scrub(t[1..]))
  {
    var d := Scrub(t)[0];
    assert Scrub(t) == [d] + Scrub(t[1..]);
    ScrubChar(t[0]);
    FilterCons(d, Scrub(t[1..]), NotSpace);
  }

  /** A scrubbed character is kept by `NonSpace` exactly when it was a letter or digit, and then
      it is unchanged. */
  lemma ScrubChar(c: char)
    ensures var d := if IsLetterOrDigit(c) || IsSpace(c) then c else ' ';
      NotSpace(d) == IsLetterOrDigit(c) && (IsLetterOrDigit(c) ==> d == c)
  {
  }

  lemma {:induction false} AllSpaceNonSpace(t: string)
    requires AllSpace(t)
    ensures NonSpace(t) == []
  {
    if t != [] {
      var rest := t[1..];
      assert forall i :: 0 <= i < |rest| ==> rest[i] == t[i + 1];
      AllSpaceNonSpace(rest);
      assert t == [t[0]] + rest;
      FilterCons(t[0], rest, NotSpace);
    }
  }

  lemma TrimStartNonSpace(x: string)
    ensures NonSpace(TrimStart(x)) == NonSpace(x)
  {
    var w := TrimStart(x);
    var p := x[..|x| - |w|];
    assert x == p + w;
    FilterConcat(p, w, NotSpace);
    AllSpaceNonSpace(p);
  }

  lemma TrimEndNonSpace(x: string)
    ensures NonSpace(TrimEnd(x)) == NonSpace(x)
  {
    var w := TrimEnd(x);
    var p := x[|w|..];
    assert x == w + p;
    FilterConcat(w, p, NotSpace);
    AllSpaceNonSpace(p);
  }

  /** Collapsing white space changes only white space. */
  lemma {:induction false} CollapseNonSpace(t: string)
    ensures NonSpace(Collapse(t)) == NonSpace(t)
    decreases |t|
  {
    if t != [] {
      var rest := t[1..];
      assert t == [t[0]] + rest;
      FilterConcat([t[0]], rest, NotSpace);
      if IsSpace(t[0]) {
        var from := TrimStart(rest);
        CollapseNonSpace(from);
        TrimStartNonSpace(rest);
        FilterConcat([' '], Collapse(from), NotSpace);
      } else {
        CollapseNonSpace(rest);
        FilterConcat([t[0]], Collapse(rest), NotSpace);
      }
    }
  }

  // ---------------------------------------------------------------------------
  // What separates two words

  /** Trimming the front of a concatenation: a prefix that is all white space goes entirely,
      otherwise only the prefix is trimmed. */
  lemma TrimStartConcat(p: string, q: string)
    ensures TrimStart(p + q) == if AllSpace(p) then TrimStart(q) else TrimStart(p) + q
  {
    if AllSpace(p) {
      TrimStartSpacePrefix(p, q);
    } else {
      TrimStartKeepsLast(p);
      TrimStartWordPrefix(p, q);
    }
  }

  /** A prefix that is all white space is trimmed away entirely. */
  lemma TrimStartSpacePrefix(p: string, q: string)
    requires AllSpace(p)
    ensures TrimStart(p + q) == TrimStart(q)
  {
    assert (p + q)[..|p|] == p && (p + q)[|p|..] == q;
    TrimStartDrop(p + q, |p|);
  }

  /** Trimming the front gets past any number of leading white space characters. */
  lemma {:induction false} TrimStartDrop(t: string, n: nat)
    requires n <= |t| && AllSpace(t[..n])
    ensures TrimStart(t) == TrimStart(t[n..])
    decreases n
  {
    if n == 0 {
      assert t[0..] == t;
    } else {
      var rest := t[1..];
      assert t[..n][0] == t[0];
      TrimStartSpaceHead(t[0], t);
      var pre, whole := rest[..n - 1], t[..n];
      forall i | 0 <= i < |pre| ensures IsSpace(pre[i]) {
        assert pre[i] == whole[i + 1];
      }
      TrimStartDrop(rest, n - 1);
      assert rest[n - 1..] == t[n..];
    }
  }

  /** Once the front of `p` is trimmed down to a word, what follows `p` is untouched. */
  lemma TrimStartWordPrefix(p: string, q: string)
    requires TrimStart(p) != []
    ensures TrimStart(p + q) == TrimStart(p) + q
  {
    var u := TrimStart(p);
    var pre := p[..|p| - |u|];
    assert p == pre + u;
    ConcatAssoc(pre, u, q);
    TrimStartSpacePrefix(pre, u + q);
    TrimStartWordHead(u, q);
  }

  /** A string is its prefix followed by its suffix. */
  lemma SplitAt(s: string, k: nat)
    requires k <= |s|
    ensures s == s[..k] + s[k..]
  {
  }

  /** Concatenation is associative. */
  lemma ConcatAssoc(a: string, b: string, c: string)
    ensures (a + b) + c == a + (b + c)
  {
  }

  /** A leading white space character is trimmed. */
  lemma TrimStartSpaceHead(c: char, t: string)
    requires t != [] && t[0] == c && IsSpace(c)
    ensures TrimStart(t) == TrimStart(t[1..])
  {
  }

  /** Nothing is trimmed from text that starts with a character other than white space. */
  lemma TrimStartWordHead(u: string, q: string)
    requires u != [] && !IsSpace(u[0])
    ensures TrimStart(u + q) == u + q
  {
    assert (u + q)[0] == u[0];
  }

  /** Trimming the end of a concatenation: a suffix that is all white space goes entirely,
      otherwise only the suffix is trimmed. */
  lemma {:induction false} TrimEndConcat(p: string, q: string)
    ensures TrimEnd(p + q) == if AllSpace(q) then TrimEnd(p) else p + TrimEnd(q)
    decreases |q|
  {
    if q == [] {
      assert p + q == p;
    } else {
      var init := q[..|q| - 1];
      assert (p + q)[|p + q| - 1] == q[|q| - 1];
      if IsSpace(q[|q| - 1]) {
        TrimEndConcat(p, init);
        assert (p + q)[..|p + q| - 1] == p + init;
        assert AllSpace(q) <==> AllSpace(init) by {
          assert q == init + [q[|q| - 1]];
          AllSpaceConcat(init, [q[|q| - 1]]);
        }
      }
    }
  }

  /** What is left after trimming the front of text that is not all white space is not empty,
      and ends as the text does. */
  lemma TrimStartKeepsLast(p: string)
    requires !AllSpace(p)
    ensures TrimStart(p) != [] && TrimStart(p)[|TrimStart(p)| - 1] == p[|p| - 1]
  {
    var u := TrimStart(p);
    var k := |p| - |u|;
    assert AllSpace(p[..k]);
    assert p[..|p|] == p;
    assert u[|u| - 1] == p[k + |u| - 1];
  }

  /** Text that ends with a character other than white space collapses piecewise: the white
      space runs of `a` and of `b` cannot join. */
  lemma {:induction false} CollapseConcat(a: string, b: string)
    requires a == [] || !IsSpace(a[|a| - 1])
    ensures Collapse(a + b) == Collapse(a) + Collapse(b)
    decreases |a|
  {
    if a == [] {
      assert a + b == b;
    } else {
      var rest := a[1..];
      assert (a + b)[0] == a[0] && (a + b)[1..] == rest + b;
      if IsSpace(a[0]) {
        assert rest[|rest| - 1] == a[|a| - 1];
        TrimStartKeepsLast(rest);
        var u := TrimStart(rest);
        TrimStartWordPrefix(rest, b);
        CollapseConcat(u, b);
        CollapseSpaceHead(a + b);
        CollapseSpaceHead(a);
        ConcatAssoc([' '], Collapse(u), Collapse(b));
      } else {
        assert rest != [] ==> rest[|rest| - 1] == a[|a| - 1];
        CollapseConcat(rest, b);
        CollapseWordHead(a + b);
        CollapseWordHead(a);
        ConcatAssoc([a[0]], Collapse(rest), Collapse(b));
      }
    }
  }

  /** One step of `Collapse` on text that starts with white space. */
  lemma CollapseSpaceHead(t: string)
    requires t != [] && IsSpace(t[0])
    ensures Collapse(t) == [' '] + Collapse(TrimStart(t[1..]))
  {
  }

  /** One step of `Collapse` on text that starts with any other character. */
  lemma CollapseWordHead(t: string)
    requires t != [] && !IsSpace(t[0])
    ensures Collapse(t) == [t[0]] + Collapse(t[1..])
  {
  }

  /** A white space run in front of text that starts with a character other than white space
      collapses to one space. */
  lemma CollapseSpaceRun(m: string, b: string)
    requires m != [] && AllSpace(m)
    requires b == [] || !IsSpace(b[0])
    ensures Collapse(m + b) == [' '] + Collapse(b)
  {
    assert (m + b)[0] == m[0] && (m + b)[1..] == m[1..] + b;
    assert AllSpace(m[1..]);
    TrimStartConcat(m[1..], b);
  }

  /** Text that ends with a character other than white space collapses to text that does. */
  lemma {:induction false} CollapseLast(a: string)
    requires a != [] && !IsSpace(a[|a| - 1])
    ensures Collapse(a) != [] && !IsSpace(Collapse(a)[|Collapse(a)| - 1])
    decreases |a|
  {
    var rest := a[1..];
    if IsSpace(a[0]) {
      assert !AllSpace(rest) by {
        assert rest[|rest| - 1] == a[|a| - 1];
      }
      TrimStartKeepsLast(rest);
      CollapseLast(TrimStart(rest));
    } else if rest != [] {
      assert rest[|rest| - 1] == a[|a| - 1];
      CollapseLast(rest);
    }
  }

  /** The left word: trimming and collapsing `x` gives what trimming the front of the collapsed
      `x` without its trailing white space gives, and that is not all white space. */
  lemma TidyLeft(x: string)
    requires !AllSpace(x)
    ensures TrimEnd(TrimStart(Collapse(x))) == TrimStart(Collapse(TrimEnd(x)))
    ensures TrimEnd(x) != [] && !AllSpace(Collapse(TrimEnd(x)))
  {
    var a := TrimEnd(x);
    var sa := x[|a|..];
    SplitAt(x, |a|);
    assert x[0..] == x;
    CollapseConcat(a, sa);
    var c := Collapse(a);
    CollapseAllSpace(a);
    CollapseAllSpace(sa);
    TrimStartConcat(c, Collapse(sa));
    TrimEndConcat(TrimStart(c), Collapse(sa));
    CollapseLast(a);
    TrimStartKeepsLast(c);
    var u := TrimStart(c);
    assert TrimEnd(u) == u;
  }

  /** The right word: trimming and collapsing `y` gives what trimming the end of the collapsed
      `y` without its leading white space gives, and that starts with a word. */
  lemma TidyRight(y: string)
    requires !AllSpace(y)
    ensures TrimEnd(TrimStart(Collapse(y))) == TrimEnd(Collapse(TrimStart(y)))
    ensures Collapse(TrimStart(y)) != [] && !IsSpace(Collapse(TrimStart(y))[0])
  {
    var b := TrimStart(y);
    TrimStartKeepsLast(y);
    CollapseWordHead(b);
    TidyRightFront(y);
  }

  /** Text with a word in it: its leading white space collapses to at most one space, which the
      front trim then drops. */
  lemma TidyRightFront(y: string)
    requires TrimStart(y) != []
    ensures TrimStart(Collapse(y)) == Collapse(TrimStart(y))
  {
    var b := TrimStart(y);
    var sb := y[..|y| - |b|];
    var d := Collapse(b);
    CollapseWordHead(b);
    assert TrimStart(d) == d by {
      assert d + [] == d;
      TrimStartWordHead(d, []);
    }
    SplitAt(y, |y| - |b|);
    if sb == [] {
      assert y == b;
    } else {
      CollapseSpaceRun(sb, b);
      TrimStartSpaceHead(' ', [' '] + d);
      assert ([' '] + d)[1..] == d;
    }
  }

  /** Collapsing and trimming text made of two parts that are not all white space, with a
      non-empty white space run between them, joins the two tidied parts with one space. */
  lemma TidySeparates(x: string, m: string, y: string)
    requires !AllSpace(x) && !AllSpace(y)
    requires m != [] && AllSpace(m)
    ensures TrimEnd(TrimStart(Collapse(x + m + y))) ==
      TrimEnd(TrimStart(Collapse(x))) + [' '] + TrimEnd(TrimStart(Collapse(y)))
  {
    var a := TrimEnd(x);
    var b := TrimStart(y);
    var sa := x[|a|..];
    var sb := y[..|y| - |b|];
    AllSpaceConcat(sa, m);
    AllSpaceConcat(sa + m, sb);
    CollapseAround(a, sa + m + sb, b);
    TidyLeft(x);
    TidyRight(y);
    TidyJoin(Collapse(a), Collapse(b));
    SplitAround(x, m, y);
  }

  /** `x + m + y` cut after the last word of `x` and before the first word of `y`. */
  lemma SplitAround(x: string, m: string, y: string)
    ensures x + m + y == TrimEnd(x) +
      ((x[|TrimEnd(x)|..] + m + y[..|y| - |TrimStart(y)|]) + TrimStart(y))
  {
    var a := TrimEnd(x);
    var b := TrimStart(y);
    SplitAt(x, |a|);
    SplitAt(y, |y| - |b|);
    Regroup(a, x[|a|..], m, y[..|y| - |b|], b);
  }

  /** Collapsing two pieces of text around a white space run: the run becomes one space. */
  lemma CollapseAround(a: string, run: string, b: string)
    requires a == [] || !IsSpace(a[|a| - 1])
    requires run != [] && AllSpace(run)
    requires b == [] || !IsSpace(b[0])
    ensures Collapse(a + (run + b)) == Collapse(a) + ([' '] + Collapse(b))
  {
    CollapseConcat(a, run + b);
    CollapseSpaceRun(run, b);
  }

  /** Five pieces regrouped around the middle three. */
  lemma Regroup(a: string, sa: string, m: string, sb: string, b: string)
    ensures (a + sa) + m + (sb + b) == a + ((sa + m + sb) + b)
  {
  }

  /** Trimming two collapsed words joined by one space trims the outer ends only. */
  lemma TidyJoin(c: string, d: string)
    requires !AllSpace(c) && d != [] && !IsSpace(d[0])
    ensures TrimEnd(TrimStart(c + ([' '] + d))) == TrimStart(c) + [' '] + TrimEnd(d)
  {
    TrimStartConcat(c, [' '] + d);
    ConcatAssoc(TrimStart(c), [' '], d);
    assert !AllSpace(d) by {
      assert !IsSpace(d[0]);
    }
    TrimEndConcat(TrimStart(c) + [' '], d);
  }

  /** Lower-casing and scrubbing work character by character. */
  lemma ScrubLowerConcat(a: string, b: string)
    ensures Scrub(Lower(a + b)) == Scrub(Lower(a)) + Scrub(Lower(b))
  {
    ScrubLowerChars(a + b);
    ScrubLowerChars(a);
    ScrubLowerChars(b);
    assert forall i :: 0 <= i < |a| ==> (a + b)[i] == a[i];
    assert forall i :: |a| <= i < |a + b| ==> (a + b)[i] == b[i - |a|];
  }

  /** Between two words, any non-empty run of characters that are neither letters nor digits
      (white space, punctuation or both) normalises to exactly one space. */
  lemma NormSeparates(x: string, m: string, y: string)
    requires m != [] && forall i :: 0 <= i < |m| ==> !IsLetterOrDigit(m[i])
    requires Norm(x) != "" && Norm(y) != ""
    ensures Norm(x + m + y) == Norm(x) + " " + Norm(y)
  {
    ScrubLowerConcat(x + m, y);
    ScrubLowerConcat(x, m);
    NormEmpty(x);
    NormEmpty(y);
    ScrubAllSpace(x);
    ScrubAllSpace(m);
    ScrubAllSpace(y);
    TidySeparates(Scrub(Lower(x)), Scrub(Lower(m)), Scrub(Lower(y)));
  }

  /** Two words separated by different runs of white space and punctuation normalise alike. */
  lemma NormSameSeparation(x: string, m1: string, m2: string, y: string)
    requires m1 != [] && forall i :: 0 <= i < |m1| ==> !IsLetterOrDigit(m1[i])
    requires m2 != [] && forall i :: 0 <= i < |m2| ==> !IsLetterOrDigit(m2[i])
    requires Norm(x) != "" && Norm(y) != ""
    ensures Norm(x + m1 + y) == Norm(x + m2 + y)
  {
    NormSeparates(x, m1, y);
    NormSeparates(x, m2, y);
  }

  /** Normalisation ignores case. */
  lemma NormIgnoresCase(s: string)
    ensures Norm(Lower(s)) == Norm(s)
  {
    assert Lower(Lower(s)) == Lower(s);
  }
}
