/** The Python (2) `str` built-ins the query engine relies on: `in`,
    `startswith`, `replace`, `strip`, `split`, `join`, `int()` and `str()` of an
    integer, each with the facts about it that the rest of the model uses. */
module PyStr {
  import opened Wrappers

  // ---------------------------------------------------------------------------
  // Substrings: `t in s`
  // ---------------------------------------------------------------------------

  /** `t in s`: t occurs in s as a contiguous substring (`t <= s` is "t is a prefix of s"). */
  predicate Contains(s: string, t: string)
    decreases |s|
  {
    t <= s || (s != [] && Contains(s[1..], t))
  }

  /** An occurrence at a known index is enough for `t in s`. */
  lemma {:induction false} ContainsAt(s: string, t: string, i: nat)
    requires i + |t| <= |s| && s[i..i + |t|] == t
    ensures Contains(s, t)
    decreases i
  {
    if i == 0 {
      assert s[..|t|] == t;
    } else {
      assert s[1..][i - 1..i - 1 + |t|] == s[i..i + |t|];
      ContainsAt(s[1..], t, i - 1);
    }
  }

  /** Conversely, `t in s` yields the index of an occurrence. */
  lemma {:induction false} ContainsIndex(s: string, t: string) returns (i: nat)
    requires Contains(s, t)
    ensures i + |t| <= |s| && s[i..i + |t|] == t
    decreases |s|
  {
    if t <= s {
      i := 0;
    } else {
      var j := ContainsIndex(s[1..], t);
      assert s[1..][j..j + |t|] == s[j + 1..j + 1 + |t|];
      i := j + 1;
    }
  }

  /** A substring of a substring: `a + b in s` implies `b in s`. */
  /** Dropping the first character cannot create an occurrence. */
  lemma ContainsDropFirst(s: string, t: string)
    requires s != [] && !Contains(s, t)
    ensures !Contains(s[1..], t)
  {
  }

  lemma ContainsSuffix(s: string, a: string, b: string)
    requires Contains(s, a + b)
    ensures Contains(s, b)
  {
    var i := ContainsIndex(s, a + b);
    assert s[i + |a|..i + |a| + |b|] == (a + b)[|a|..];
    ContainsAt(s, b, i + |a|);
  }

  /** A prefix of a substring: `t in s` implies `u in s` for every prefix u of t. */
  lemma ContainsPrefixOf(s: string, t: string, u: string)
    requires Contains(s, t) && u <= t
    ensures Contains(s, u)
  {
    var i := ContainsIndex(s, t);
    assert s[i..i + |u|] == t[..|u|];
    ContainsAt(s, u, i);
  }

  /** Every character of a substring is a character of the text. */
  lemma ContainsChar(s: string, t: string, j: nat)
    requires Contains(s, t) && j < |t|
    ensures t[j] in s
  {
    var i := ContainsIndex(s, t);
    assert s[i + j] == t[j];
  }

  /** Whatever is written between two texts occurs in their concatenation. */
  lemma ContainsMiddle(a: string, b: string, c: string)
    ensures Contains(a + b + c, b)
  {
    assert (a + b + c)[|a|..|a| + |b|] == b;
    ContainsAt(a + b + c, b, |a|);
  }

  /** `ab in s` for a two-character pattern is "some adjacent pair of s is a, b". */
  lemma ContainsPair(s: string, a: char, b: char)
    ensures Contains(s, [a, b]) <==> exists i :: 0 < i < |s| && s[i - 1] == a && s[i] == b
  {
    if Contains(s, [a, b]) {
      var i := ContainsIndex(s, [a, b]);
      assert s[i] == s[i..i + 2][0] == a;
      assert s[i + 1] == s[i..i + 2][1] == b;
      assert 0 < i + 1 < |s| && s[(i + 1) - 1] == a && s[i + 1] == b;
    }
    if i :| 0 < i < |s| && s[i - 1] == a && s[i] == b {
      assert s[i - 1..i + 1] == [a, b];
      ContainsAt(s, [a, b], i - 1);
    }
  }

  // ---------------------------------------------------------------------------
  // `s.replace(pat, rep)`: every non-overlapping occurrence, left to right
  // ---------------------------------------------------------------------------

  function ReplaceAll(s: string, pat: string, rep: string): (r: string)
    requires pat != []
    ensures |rep| == |pat| ==> |r| == |s|
    ensures |rep| <= |pat| ==> |r| <= |s|
    decreases |s|
  {
    if |s| < |pat| then s
    else if pat <= s then rep + ReplaceAll(s[|pat|..], pat, rep)
    else [s[0]] + ReplaceAll(s[1..], pat, rep)
  }

  /** No occurrence can start inside a prefix that lacks the pattern's first
      character, so that prefix is copied as it is. */
  lemma {:induction false} ReplaceSkip(lit: string, rest: string, pat: string, rep: string)
    requires pat != [] && pat[0] !in lit
    ensures ReplaceAll(lit + rest, pat, rep) == lit + ReplaceAll(rest, pat, rep)
    decreases |lit|
  {
    var s := lit + rest;
    if lit == [] {
      assert s == rest;
    } else if |s| < |pat| {
      assert ReplaceAll(rest, pat, rep) == rest;
    } else {
      assert s[0] == lit[0];
      assert !(pat <= s);
      assert s[1..] == lit[1..] + rest;
      ReplaceSkip(lit[1..], rest, pat, rep);
      calc {
        ReplaceAll(s, pat, rep);
        [s[0]] + ReplaceAll(s[1..], pat, rep);
        [lit[0]] + (lit[1..] + ReplaceAll(rest, pat, rep));
        { assert [lit[0]] + lit[1..] == lit; }
        lit + ReplaceAll(rest, pat, rep);
      }
    }
  }

  /** Replacing a pattern that does not occur changes nothing. */
  lemma {:induction false} ReplaceAbsent(s: string, pat: string, rep: string)
    requires pat != [] && !Contains(s, pat)
    ensures ReplaceAll(s, pat, rep) == s
    decreases |s|
  {
    if |s| >= |pat| {
      ReplaceAbsent(s[1..], pat, rep);
      assert [s[0]] + s[1..] == s;
    }
  }

  /** Replacing a two-character pattern `ab` by `az` (a != b, so occurrences
      never overlap) rewrites exactly the second character of every adjacent
      pair `a`, `b` of the input and leaves every other position alone. */
  lemma {:induction false} ReplacePairAt(s: string, a: char, b: char, z: char, i: nat)
    requires a != b && i < |s|
    ensures |ReplaceAll(s, [a, b], [a, z])| == |s|
    ensures ReplaceAll(s, [a, b], [a, z])[i] == if 0 < i && s[i - 1] == a && s[i] == b then z else s[i]
    decreases |s|
  {
    var r := ReplaceAll(s, [a, b], [a, z]);
    if |s| < 2 {
    } else if [a, b] <= s {
      assert s[0] == a && s[1] == b;
      assert r == [a, z] + ReplaceAll(s[2..], [a, b], [a, z]);
      if i >= 2 {
        ReplacePairAt(s[2..], a, b, z, i - 2);
      }
    } else {
      assert r == [s[0]] + ReplaceAll(s[1..], [a, b], [a, z]);
      if i >= 1 {
        ReplacePairAt(s[1..], a, b, z, i - 1);
      }
    }
  }

  /** A replacement whose text lacks the character c does not introduce it. */
  lemma {:induction false} ReplaceNoNewChar(s: string, pat: string, rep: string, c: char)
    requires pat != [] && c !in s && c !in rep
    ensures c !in ReplaceAll(s, pat, rep)
    decreases |s|
  {
    if |s| < |pat| {
    } else if pat <= s {
      ReplaceNoNewChar(s[|pat|..], pat, rep, c);
    } else {
      ReplaceNoNewChar(s[1..], pat, rep, c);
    }
  }

  /** `s` with every occurrence of the character c deleted. */
  function Without(s: string, c: char): (r: string)
    ensures c !in r
    ensures |r| <= |s|
  {
    if s == [] then [] else (if s[0] == c then [] else [s[0]]) + Without(s[1..], c)
  }

  lemma {:induction false} WithoutConcat(a: string, b: string, c: char)
    ensures Without(a + b, c) == Without(a, c) + Without(b, c)
    decreases |a|
  {
    if a == [] {
      assert a + b == b;
    } else {
      assert (a + b)[0] == a[0] && (a + b)[1..] == a[1..] + b;
      WithoutConcat(a[1..], b, c);
      var h := if a[0] == c then [] else [a[0]];
      calc {
        Without(a + b, c);
        h + Without(a[1..] + b, c);
        h + (Without(a[1..], c) + Without(b, c));
        (h + Without(a[1..], c)) + Without(b, c);
        Without(a, c) + Without(b, c);
      }
    }
  }

  /** A replacement that only adds or deletes the character c, as `,)` -> `)`
      does for c = ',', leaves every other character of the text, in order, as it was. */
  lemma {:induction false} ReplaceKeepsOthers(s: string, pat: string, rep: string, c: char)
    requires pat != [] && Without(pat, c) == Without(rep, c)
    ensures Without(ReplaceAll(s, pat, rep), c) == Without(s, c)
    decreases |s|
  {
    if |s| < |pat| {
    } else if pat <= s {
      var rest := s[|pat|..];
      assert s == pat + rest;
      ReplaceKeepsOthers(rest, pat, rep, c);
      WithoutConcat(pat, rest, c);
      WithoutConcat(rep, ReplaceAll(rest, pat, rep), c);
    } else {
      assert s == [s[0]] + s[1..];
      ReplaceKeepsOthers(s[1..], pat, rep, c);
      WithoutConcat([s[0]], s[1..], c);
      WithoutConcat([s[0]], ReplaceAll(s[1..], pat, rep), c);
    }
  }

  // ---------------------------------------------------------------------------
  // `s.strip()`
  // ---------------------------------------------------------------------------

  /** The characters Python 2.7's `unicode.isspace()` accepts (its Unicode
      5.2 table): what `unicode.strip()` removes and what `int()` of a
      `unicode` value skips. Request values and rendered SQL are `unicode`. */
  predicate IsSpace(c: char)
  {
    || '\t' <= c <= '\r'
    || '\U{1C}' <= c <= ' '
    || c == '\U{85}' || c == '\U{A0}' || c == '\U{1680}' || c == '\U{180E}'
    || '\U{2000}' <= c <= '\U{200A}'
    || c == '\U{2028}' || c == '\U{2029}' || c == '\U{202F}' || c == '\U{205F}' || c == '\U{3000}'
  }

  predicate AllSpace(s: string)
  {
    forall i :: 0 <= i < |s| ==> IsSpace(s[i])
  }

  /** Neither the first nor the last character is whitespace. */
  predicate Trimmed(s: string)
  {
    s == [] || (!IsSpace(s[0]) && !IsSpace(s[|s| - 1]))
  }

  /** Length of the whitespace run at the start of s. */
  function LeadingSpaces(s: string): (n: nat)
    ensures n <= |s|
    ensures forall i :: 0 <= i < n ==> IsSpace(s[i])
    ensures n < |s| ==> !IsSpace(s[n])
  {
    if s != [] && IsSpace(s[0]) then 1 + LeadingSpaces(s[1..]) else 0
  }

  /** Length of the whitespace run at the end of s. */
  function TrailingSpaces(s: string): (n: nat)
    ensures n <= |s|
    ensures forall i :: |s| - n <= i < |s| ==> IsSpace(s[i])
    ensures n < |s| ==> !IsSpace(s[|s| - 1 - n])
  {
    if s != [] && IsSpace(s[|s| - 1]) then 1 + TrailingSpaces(s[..|s| - 1]) else 0
  }

  /** `s.strip()`: s without its leading and trailing whitespace. */
  function Strip(s: string): (r: string)
    ensures |r| <= |s|
    ensures forall c :: c in r ==> c in s
    ensures Trimmed(r)
    ensures r == [] <==> AllSpace(s)
    ensures Trimmed(s) ==> r == s
  {
    var a := LeadingSpaces(s);
    var rest := s[a..];
    var r := rest[..|rest| - TrailingSpaces(rest)];
    assert r != [] ==> r[0] == s[a];
    assert AllSpace(s) ==> a == |s|;
    assert r == [] ==> a == |s|;
    r
  }

  // ---------------------------------------------------------------------------
  // `s.split(sep)` and `sep.join(pieces)`
  // ---------------------------------------------------------------------------

  /** Splits s at every character of `seps`; like Python's `s.split(",")`
      (seps = {','}) there is always one more piece than separators, and empty
      pieces are kept. */
  function Split(s: string, seps: set<char>): (r: seq<string>)
    ensures |r| >= 1
    ensures forall k :: 0 <= k < |r| ==> forall j :: 0 <= j < |r[k]| ==> r[k][j] !in seps
    decreases |s|
  {
    if s == [] then [""]
    else
      var rest := Split(s[1..], seps);
      if s[0] in seps then [""] + rest
      else [[s[0]] + rest[0]] + rest[1..]
  }

  /** `sep.join(pieces)`. */
  function Join(pieces: seq<string>, sep: string): string
  {
    if |pieces| == 0 then ""
    else if |pieces| == 1 then pieces[0]
    else pieces[0] + sep + Join(pieces[1..], sep)
  }

  /** Joining the pieces of a split with the separator gives back the text. */
  lemma {:induction false} JoinSplit(s: string, c: char)
    ensures Join(Split(s, {c}), [c]) == s
    decreases |s|
  {
    if s != [] {
      var rest := Split(s[1..], {c});
      JoinSplit(s[1..], c);
      if s[0] == c {
        JoinAfterEmpty(rest, [c]);
      } else {
        JoinAfterChar(s[0], rest, [c]);
      }
      assert [s[0]] + s[1..] == s;
    }
  }

  /** An empty first piece puts the separator in front. */
  lemma JoinAfterEmpty(rest: seq<string>, sep: string)
    requires |rest| >= 1
    ensures Join([""] + rest, sep) == sep + Join(rest, sep)
  {
    assert ([""] + rest)[1..] == rest;
  }

  /** A character prefixed to the first piece is prefixed to the join. */
  lemma JoinAfterChar(x: char, rest: seq<string>, sep: string)
    requires |rest| >= 1
    ensures Join([[x] + rest[0]] + rest[1..], sep) == [x] + Join(rest, sep)
  {
    var ps := [[x] + rest[0]] + rest[1..];
    if |rest| > 1 {
      assert ps[1..] == rest[1..];
    }
  }

  /** Splitting at a set of separators a join of pieces free of all of
      them, joined with one of them, gives back the pieces. */
  lemma {:induction false} SplitJoin(pieces: seq<string>, c: char, seps: set<char>)
    requires c in seps
    requires |pieces| >= 1
    requires forall k :: 0 <= k < |pieces| ==> forall x :: x in pieces[k] ==> x !in seps
    ensures Split(Join(pieces, [c]), seps) == pieces
    decreases |pieces|, |pieces[0]|
  {
    var p := pieces[0];
    if |pieces| == 1 {
      SplitPiece(p, seps);
    } else if p == [] {
      var tail := Join(pieces[1..], [c]);
      assert Join(pieces, [c]) == [c] + tail;
      assert ([c] + tail)[1..] == tail;
      SplitJoin(pieces[1..], c, seps);
      assert pieces == [""] + pieces[1..];
    } else {
      var shorter := [p[1..]] + pieces[1..];
      assert shorter[1..] == pieces[1..];
      assert forall x :: x in p[1..] ==> x in p;
      SplitJoin(shorter, c, seps);
      var s := Join(pieces, [c]);
      assert s == [p[0]] + Join(shorter, [c]);
      assert s[1..] == Join(shorter, [c]);
      assert [p[0]] + p[1..] == p;
    }
  }

  /** A piece with no separator splits to itself. */
  lemma {:induction false} SplitPiece(p: string, seps: set<char>)
    requires forall i :: 0 <= i < |p| ==> p[i] !in seps
    ensures Split(p, seps) == [p]
    decreases |p|
  {
    if p != [] {
      SplitPiece(p[1..], seps);
      assert [p[0]] + p[1..] == p;
    }
  }

  /** Joining non-empty pieces: the text starts with the first piece's first
      character, ends with the last piece's last character, and holds only
      characters of the pieces and of the separator. */
  lemma {:induction false} JoinNonEmpty(pieces: seq<string>, sep: string)
    requires |pieces| >= 1
    requires forall k :: 0 <= k < |pieces| ==> pieces[k] != []
    ensures Join(pieces, sep) != []
    ensures Join(pieces, sep)[0] == pieces[0][0]
    ensures Join(pieces, sep)[|Join(pieces, sep)| - 1] == pieces[|pieces| - 1][|pieces[|pieces| - 1]| - 1]
    decreases |pieces|
  {
    if |pieces| > 1 {
      JoinNonEmpty(pieces[1..], sep);
    }
  }

  lemma {:induction false} JoinChars(pieces: seq<string>, sep: string, c: char)
    requires c in Join(pieces, sep)
    ensures c in sep || exists k :: 0 <= k < |pieces| && c in pieces[k]
    decreases |pieces|
  {
    if |pieces| > 1 {
      var rest := Join(pieces[1..], sep);
      assert Join(pieces, sep) == pieces[0] + sep + rest;
      if c in rest {
        JoinChars(pieces[1..], sep, c);
        if !(c in sep) {
          var k :| 0 <= k < |pieces| - 1 && c in pieces[1..][k];
          assert c in pieces[k + 1];
        }
      }
    }
  }

  // ---------------------------------------------------------------------------
  // `str(n)` and `int(s)` for base-10 integers
  // ---------------------------------------------------------------------------

  predicate IsDigit(c: char)
  {
    '0' <= c <= '9'
  }

  predicate AllDigits(s: string)
  {
    forall i :: 0 <= i < |s| ==> IsDigit(s[i])
  }

  function DigitChar(d: nat): (c: char)
    requires d < 10
    ensures IsDigit(c)
  {
    ('0' as int + d) as char
  }

  /** The value of a string of decimal digits, most significant first. */
  function DigitsValue(s: string): nat
    requires AllDigits(s)
  {
    if s == [] then 0 else DigitsValue(s[..|s| - 1]) * 10 + ((s[|s| - 1] as int) - ('0' as int))
  }

  /** `str(n)` for a non-negative integer: its decimal digits, no leading zero. */
  function NatToString(n: nat): (r: string)
    ensures r != [] && AllDigits(r)
    ensures |r| > 1 ==> r[0] != '0'
  {
    if n < 10 then [DigitChar(n)] else NatToString(n / 10) + [DigitChar(n % 10)]
  }

  lemma {:induction false} NatToStringValue(n: nat)
    ensures DigitsValue(NatToString(n)) == n
  {
    if n >= 10 {
      NatToStringValue(n / 10);
      var s := NatToString(n);
      assert s[..|s| - 1] == NatToString(n / 10);
    }
  }

  /** Decimal strings of different numbers differ. */
  lemma NatToStringInjective(m: nat, n: nat)
    requires NatToString(m) == NatToString(n)
    ensures m == n
  {
    NatToStringValue(m);
    NatToStringValue(n);
  }

  /** `str(i)` for any integer. */
  function IntToString(i: int): string
  {
    if i < 0 then "-" + NatToString(-i) else NatToString(i)
  }

  /** What `int()` accepts once the surrounding whitespace is stripped: an
      optional sign, then (as `PyOS_strtoul` skips it) optional whitespace,
      then a non-empty run of digits. */
  function ParseSigned(t: string): Option<int>
  {
    if t != [] && (t[0] == '-' || t[0] == '+') then
      var digits := t[1 + LeadingSpaces(t[1..])..];
      if digits != [] && AllDigits(digits) then
        Some(if t[0] == '-' then -(DigitsValue(digits) as int) else DigitsValue(digits))
      else None
    else if t != [] && AllDigits(t) then Some(DigitsValue(t))
    else None
  }

  /** Python 2's `int(s)`: surrounding whitespace is ignored, then an optional
      sign, optional whitespace and at least one decimal digit; anything else
      raises ValueError, modelled as None. */
  function ParseInt(s: string): (r: Option<int>)
    ensures r.Some? ==> exists i :: 0 <= i < |s| && IsDigit(s[i])
  {
    var t := Strip(s);
    var r := ParseSigned(t);
    assert r.Some? ==> IsDigit(t[|t| - 1]);
    ghost var a := LeadingSpaces(s);
    assert r.Some? ==> s[a + |t| - 1] == t[|t| - 1];
    r
  }

  /** `int(str(i)) == i`, also with whitespace around the digits. */
  lemma ParseIntRoundTrip(i: int, pre: string, post: string)
    requires AllSpace(pre) && AllSpace(post)
    ensures ParseInt(pre + IntToString(i) + post) == Some(i)
  {
    var t := IntToString(i);
    assert Trimmed(t);
    StripPadded(pre, t, post);
    ParseSignedRoundTrip(i);
  }

  /** `int()` also reads a sign separated from its digits by whitespace:
      `int(" - 5")` is -5. */
  lemma ParseIntSignGap(n: nat, sign: char, pre: string, gap: string, post: string)
    requires sign == '-' || sign == '+'
    requires AllSpace(pre) && AllSpace(gap) && AllSpace(post)
    ensures ParseInt(pre + [sign] + gap + NatToString(n) + post)
            == Some(if sign == '-' then -(n as int) else n as int)
  {
    var d := NatToString(n);
    var t := [sign] + gap + d;
    assert pre + [sign] + gap + d + post == pre + t + post;
    assert t[|t| - 1] == d[|d| - 1];
    StripPadded(pre, t, post);
    ParseSignedGap(n, sign, gap);
  }

  lemma ParseSignedGap(n: nat, sign: char, gap: string)
    requires sign == '-' || sign == '+'
    requires AllSpace(gap)
    ensures ParseSigned([sign] + gap + NatToString(n))
            == Some(if sign == '-' then -(n as int) else n as int)
  {
    var d := NatToString(n);
    var t := [sign] + gap + d;
    assert t[1..] == gap + d;
    LeadingIsPrefix(gap, d);
    assert t[1 + |gap|..] == d;
    NatToStringValue(n);
  }

  lemma ParseSignedRoundTrip(i: int)
    ensures ParseSigned(IntToString(i)) == Some(i)
  {
    if i < 0 {
      ParseSignedNeg(-i);
      assert IntToString(i) == "-" + NatToString(-i);
    } else {
      ParseSignedNat(i);
      assert IntToString(i) == NatToString(i);
    }
  }

  lemma ParseSignedNeg(n: nat)
    ensures ParseSigned("-" + NatToString(n)) == Some(-(n as int))
  {
    ParseSignedGap(n, '-', "");
    assert ['-'] + "" + NatToString(n) == "-" + NatToString(n);
  }

  lemma ParseSignedNat(n: nat)
    ensures ParseSigned(NatToString(n)) == Some(n)
  {
    var d := NatToString(n);
    assert IsDigit(d[0]);
    NatToStringValue(n);
  }

  /** Stripping a trimmed text padded with whitespace recovers the text. */
  lemma StripPadded(pre: string, t: string, post: string)
    requires AllSpace(pre) && AllSpace(post) && Trimmed(t) && t != []
    ensures Strip(pre + t + post) == t
  {
    var s := pre + t + post;
    LeadingIsPrefix(pre, t + post);
    assert s == pre + (t + post);
    var rest := s[|pre|..];
    assert rest == t + post;
    TrailingIsSuffix(t, post);
  }

  lemma {:induction false} LeadingIsPrefix(pre: string, rest: string)
    requires AllSpace(pre) && rest != [] && !IsSpace(rest[0])
    ensures LeadingSpaces(pre + rest) == |pre|
    decreases |pre|
  {
    if pre != [] {
      assert (pre + rest)[1..] == pre[1..] + rest;
      LeadingIsPrefix(pre[1..], rest);
    }
  }

  lemma {:induction false} TrailingIsSuffix(t: string, post: string)
    requires AllSpace(post) && t != [] && !IsSpace(t[|t| - 1])
    ensures TrailingSpaces(t + post) == |post|
    decreases |post|
  {
    if post != [] {
      assert (t + post)[..|t + post| - 1] == t + post[..|post| - 1];
      TrailingIsSuffix(t, post[..|post| - 1]);
    }
  }
}
