/**
 Censoring known secrets out of bytes: each secret and its four base64 forms are
 replaced, one after the other, everywhere they occur.
 */
module Scrub {
  import opened Protocol

  type Byte = x: int | 0 <= x < 256

  type Bytes = seq<Byte>

  const OPEN: Byte := 91
  const CLOSE: Byte := 93
  const WORD: Bytes := [114, 101, 100, 97, 99, 116, 101, 100]

  /** "[redacted]" */
  const REDACTED: Bytes := [OPEN] + WORD + [CLOSE]

  // ---- searching and replacing ----

  predicate OccursAt(p: Bytes, t: Bytes, i: nat) {
    i + |p| <= |t| && t[i..i + |p|] == p
  }

  ghost predicate Occurs(p: Bytes, t: Bytes) {
    exists i: nat :: OccursAt(p, t, i)
  }

  /** Every non-overlapping occurrence from the left, as the standard library replaces. */
  function ReplaceAll(t: Bytes, p: Bytes): Bytes
    requires p != []
  {
    if |t| < |p| then t
    else if t[..|p|] == p then REDACTED + ReplaceAll(t[|p|..], p)
    else [t[0]] + ReplaceAll(t[1..], p)
  }

  predicate BracketFree(p: Bytes) {
    OPEN !in p && CLOSE !in p
  }

  lemma Shift(p: Bytes, t: Bytes, u: Bytes, i: nat)
    ensures OccursAt(p, t + u, |t| + i) <==> OccursAt(p, u, i)
    ensures OccursAt(p, u, i) ==> Occurs(p, t + u)
  {
    if i + |p| <= |u| {
      assert (t + u)[|t| + i..|t| + i + |p|] == u[i..i + |p|];
      assert OccursAt(p, t + u, |t| + i) <==> OccursAt(p, u, i);
    }
  }

  /** Laid over the marker with its first byte at d, p agrees with it wherever the two overlap. */
  predicate Meets(p: Bytes, d: int) {
    forall k :: 0 <= k < |p| && 0 <= d + k < |REDACTED| ==> p[k] == REDACTED[d + k]
  }

  /** No way of laying p over a marker fits: p is no part of it, does not hold it, and does not run into or out of it. */
  ghost predicate Clear(p: Bytes) {
    p != [] && forall d :: -|p| < d < |REDACTED| ==> !Meets(p, d)
  }

  /** The rest of p at the front of the output was at the front of the input. */
  lemma {:induction false} FrontIsText(t: Bytes, q: Bytes, p: Bytes, m: nat)
    requires q != [] && Clear(p) && m <= |p|
    requires OccursAt(p[m..], ReplaceAll(t, q), 0)
    ensures OccursAt(p[m..], t, 0)
    decreases |t|
  {
    var out := ReplaceAll(t, q);
    if m < |p| && |t| >= |q| {
      if t[..|q|] == q {
        var left: int := m;
        MarkerMeets(p, m, -left, ReplaceAll(t[|q|..], q));
        assert false;
      } else {
        assert out[1..] == ReplaceAll(t[1..], q);
        assert out[0] == p[m..][0] && p[m..][1..] == p[m + 1..];
        assert out[0..|p| - m][1..] == out[1..][0..|p| - m - 1];
        FrontIsText(t[1..], q, p, m + 1);
        assert t[1..][0..|p| - m - 1] == p[m + 1..];
        assert t[0..|p| - m] == [t[0]] + t[1..][0..|p| - m - 1];
      }
    }
  }

  /** The part of p from m on, found over a marker at the front, fits it there. */
  lemma MarkerMeets(p: Bytes, m: nat, d: int, rest: Bytes)
    requires m < |p| && 0 <= d + m < |REDACTED| && (m > 0 ==> d + m == 0)
    requires OccursAt(p[m..], REDACTED + rest, d + m)
    ensures Meets(p, d)
  {
    forall k: nat | k < |p| && 0 <= d + k < |REDACTED|
      ensures p[k] == REDACTED[d + k]
    {
      assert p[m..][k - m] == (REDACTED + rest)[d + m..d + |p|][k - m];
    }
  }

  /** Replacing q makes no new occurrence of a pattern that is clear of the marker. */
  lemma {:induction false} NothingNew(t: Bytes, q: Bytes, p: Bytes, i: nat)
    requires q != [] && Clear(p)
    requires OccursAt(p, ReplaceAll(t, q), i)
    ensures Occurs(p, t)
    decreases |t|
  {
    assert p[0..] == p;
    if |t| < |q| {
    } else if t[..|q|] == q {
      var rest := ReplaceAll(t[|q|..], q);
      if i < |REDACTED| {
        MarkerMeets(p, 0, i, rest);
        assert false;
      } else {
        Shift(p, REDACTED, rest, i - |REDACTED|);
        NothingNew(t[|q|..], q, p, i - |REDACTED|);
        var j: nat :| OccursAt(p, t[|q|..], j);
        Shift(p, t[..|q|], t[|q|..], j);
        assert t[..|q|] + t[|q|..] == t;
      }
    } else if i == 0 {
      FrontIsText(t, q, p, 0);
    } else {
      Shift(p, [t[0]], ReplaceAll(t[1..], q), i - 1);
      NothingNew(t[1..], q, p, i - 1);
      var j: nat :| OccursAt(p, t[1..], j);
      Shift(p, [t[0]], t[1..], j);
      assert [t[0]] + t[1..] == t;
    }
  }

  /** Replacing a pattern that is clear of the marker leaves none of it. */
  lemma {:induction false} NoneLeft(t: Bytes, q: Bytes, i: nat)
    requires Clear(q)
    ensures !OccursAt(q, ReplaceAll(t, q), i)
    decreases |t|
  {
    assert q[0..] == q;
    if |t| < |q| {
    } else if t[..|q|] == q {
      var rest := ReplaceAll(t[|q|..], q);
      if i < |REDACTED| {
        if OccursAt(q, REDACTED + rest, i) {
          MarkerMeets(q, 0, i, rest);
          assert false;
        }
      } else {
        Shift(q, REDACTED, rest, i - |REDACTED|);
        NoneLeft(t[|q|..], q, i - |REDACTED|);
      }
    } else if i == 0 {
      if OccursAt(q, ReplaceAll(t, q), 0) {
        FrontIsText(t, q, q, 0);
        assert false;
      }
    } else {
      Shift(q, [t[0]], ReplaceAll(t[1..], q), i - 1);
      NoneLeft(t[1..], q, i - 1);
    }
  }

  /** Without brackets, being clear of the marker is being no part of its word. */
  lemma BracketFreeIsClear(p: Bytes)
    requires p != [] && BracketFree(p)
    ensures Clear(p) <==> !Occurs(p, WORD)
  {
    if Occurs(p, WORD) {
      var i: nat :| OccursAt(p, WORD, i);
      forall k: nat | k < |p| && 0 <= i + 1 + k < |REDACTED|
        ensures p[k] == REDACTED[i + 1 + k]
      {
        assert WORD[i..i + |p|][k] == WORD[i + k];
      }
      assert Meets(p, i + 1);
    } else {
      forall d | -|p| < d < |REDACTED|
        ensures !Meets(p, d)
      {
        if d <= 0 {
          assert p[-d] in p && p[-d] != REDACTED[0];
        } else if d + |p| > 9 {
          assert p[9 - d] in p && p[9 - d] != REDACTED[9];
        } else if Meets(p, d) {
          assert WORD[d - 1..d - 1 + |p|] == p;
          assert OccursAt(p, WORD, d - 1);
        }
      }
    }
  }

  /** When t does not begin with q, q occurs in t exactly where it occurs in what follows the first byte. */
  lemma OccursLater(t: Bytes, q: Bytes)
    requires q != [] && |q| <= |t| && t[..|q|] != q
    ensures Occurs(q, t) <==> Occurs(q, t[1..])
  {
    assert t == [t[0]] + t[1..];
    if Occurs(q, t) {
      var i: nat :| OccursAt(q, t, i);
      assert i != 0;
      Shift(q, [t[0]], t[1..], i - 1);
    }
    if Occurs(q, t[1..]) {
      var j: nat :| OccursAt(q, t[1..], j);
      Shift(q, [t[0]], t[1..], j);
    }
  }

  /** A replacement changes nothing when there is nothing to replace, and otherwise shows its marker. */
  lemma {:induction false} SameOrMarked(t: Bytes, q: Bytes)
    requires q != []
    ensures Occurs(q, t) ==> Occurs(REDACTED, ReplaceAll(t, q))
    ensures !Occurs(q, t) ==> ReplaceAll(t, q) == t
    decreases |t|
  {
    if |t| < |q| {
    } else if t[..|q|] == q {
      assert OccursAt(q, t, 0);
      Shift(REDACTED, [], REDACTED + ReplaceAll(t[|q|..], q), 0);
      assert OccursAt(REDACTED, ReplaceAll(t, q), 0);
    } else {
      SameOrMarked(t[1..], q);
      OccursLater(t, q);
      if Occurs(q, t) {
        var j: nat :| OccursAt(REDACTED, ReplaceAll(t[1..], q), j);
        Shift(REDACTED, [t[0]], ReplaceAll(t[1..], q), j);
      }
    }
  }

  lemma OccursWithin(p: Bytes, q: Bytes, t: Bytes)
    requires Occurs(p, q) && Occurs(q, t)
    ensures Occurs(p, t)
  {
    var i: nat :| OccursAt(p, q, i);
    var j: nat :| OccursAt(q, t, j);
    forall k: nat | k < |p|
      ensures t[j + i + k] == p[k]
    {
      assert q[i..i + |p|][k] == q[i + k] == t[j..j + |q|][i + k];
    }
    assert t[j + i..j + i + |p|] == p;
    assert OccursAt(p, t, j + i);
  }

  /** A pattern that is part of the word survives every replacement, whatever is replaced. */
  lemma PartOfWordSurvives(t: Bytes, q: Bytes, p: Bytes)
    requires q != [] && Occurs(p, t) && Occurs(p, WORD)
    ensures Occurs(p, ReplaceAll(t, q))
  {
    SameOrMarked(t, q);
    if Occurs(q, t) {
      assert OccursAt(WORD, REDACTED, 1);
      OccursWithin(p, WORD, REDACTED);
      OccursWithin(p, REDACTED, ReplaceAll(t, q));
    }
  }

  // ---- what a replacement is ----

  /** Pieces of text with the same separator between them. */
  function Strung(pieces: seq<Bytes>, between: Bytes): Bytes {
    if pieces == [] then []
    else if |pieces| == 1 then pieces[0]
    else pieces[0] + between + Strung(pieces[1..], between)
  }

  /** The pieces are the text between occurrences of p, each of which is the first one left to right. */
  ghost predicate CutAt(pieces: seq<Bytes>, p: Bytes) {
    && pieces != []
    && (forall n :: 0 <= n < |pieces| - 1 ==> FirstAt(p, pieces[n] + p, |pieces[n]|))
    && !Occurs(p, pieces[|pieces| - 1])
  }

  ghost predicate FirstAt(p: Bytes, t: Bytes, i: nat) {
    OccursAt(p, t, i) && forall j: nat :: j < i ==> !OccursAt(p, t, j)
  }

  /**
   A replacement cuts the text at p, from the left and without overlaps, and strings the pieces together again
   with "[redacted]" in between.
   */
  lemma {:induction false} ReplacementIsCutAndStrung(t: Bytes, p: Bytes) returns (pieces: seq<Bytes>)
    requires p != []
    ensures pieces != [] && CutAt(pieces, p) && Strung(pieces, p) == t
    ensures Strung(pieces, [91, 114, 101, 100, 97, 99, 116, 101, 100, 93]) == ReplaceAll(t, p)
    decreases |t|
  {
    hide CutAt, Strung;
    assert REDACTED == [91, 114, 101, 100, 97, 99, 116, 101, 100, 93];
    if |t| < |p| {
      pieces := [t];
      OnePiece(t, p);
    } else if t[..|p|] == p {
      var rest := ReplacementIsCutAndStrung(t[|p|..], p);
      pieces := [[]] + rest;
      CutAtOnce(rest, p);
      StrungOnce(rest, p);
      StrungOnce(rest, REDACTED);
      assert t == p + t[|p|..];
    } else {
      var rest := ReplacementIsCutAndStrung(t[1..], p);
      pieces := Longer(t[0], rest);
      assert [t[0]] + t[1..] == t;
      CutLater(t[0], rest, p);
      StrungLonger(t[0], rest, p);
      StrungLonger(t[0], rest, REDACTED);
    }
  }

  /** The same pieces, the first one longer by a byte at its front. */
  function Longer(c: Byte, rest: seq<Bytes>): seq<Bytes>
    requires rest != []
  {
    [[c] + rest[0]] + rest[1..]
  }

  lemma StrungLonger(c: Byte, rest: seq<Bytes>, m: Bytes)
    requires rest != []
    ensures Strung(Longer(c, rest), m) == [c] + Strung(rest, m)
  {
    var pieces := Longer(c, rest);
    assert pieces[1..] == rest[1..];
    if |rest| > 1 {
      assert pieces[0] + m + Strung(rest[1..], m) == [c] + (rest[0] + m + Strung(rest[1..], m));
    }
  }

  lemma OnePiece(t: Bytes, p: Bytes)
    requires |t| < |p|
    ensures CutAt([t], p) && forall m :: Strung([t], m) == t
  {
  }

  lemma StrungOnce(rest: seq<Bytes>, m: Bytes)
    requires rest != []
    ensures Strung([[]] + rest, m) == m + Strung(rest, m)
  {
    assert ([[]] + rest)[1..] == rest;
    assert [] + m == m;
  }

  lemma CutAtOnce(rest: seq<Bytes>, p: Bytes)
    requires p != [] && CutAt(rest, p)
    ensures CutAt([[]] + rest, p)
  {
    hide Occurs;
    var pieces := [[]] + rest;
    assert [] + p == p;
    assert OccursAt(p, p, 0);
    forall n: nat | 0 < n < |pieces| - 1
      ensures FirstAt(p, pieces[n] + p, |pieces[n]|)
    {
      assert pieces[n] == rest[n - 1];
    }
  }

  lemma FirstIsLater(c: Byte, piece: Bytes, p: Bytes)
    requires FirstAt(p, piece + p, |piece|) && !OccursAt(p, [c] + piece + p, 0)
    ensures FirstAt(p, [c] + piece + p, |piece| + 1)
  {
    assert [c] + piece + p == [c] + (piece + p);
    Shift(p, [c], piece + p, |piece|);
    forall j: nat | 0 < j < |piece| + 1
      ensures !OccursAt(p, [c] + piece + p, j)
    {
      Shift(p, [c], piece + p, j - 1);
    }
  }

  lemma CutLater(c: Byte, rest: seq<Bytes>, p: Bytes)
    requires CutAt(rest, p) && p != []
    requires !OccursAt(p, [c] + Strung(rest, p), 0)
    ensures CutAt(Longer(c, rest), p)
  {
    hide OccursAt, FirstAt, Occurs;
    var pieces := Longer(c, rest);
    StrungLonger(c, rest, p);
    if |rest| > 1 {
      assert pieces[1..] == rest[1..];
      FrontDecides(p, pieces[0] + p, Strung(rest[1..], p));
      FirstIsLater(c, rest[0], p);
      forall n: nat | 0 < n < |pieces| - 1
        ensures FirstAt(p, pieces[n] + p, |pieces[n]|)
      {
        assert pieces[n] == rest[n];
      }
      assert pieces[|pieces| - 1] == rest[|rest| - 1];
    } else {
      NotInFront(c, rest[0], p);
    }
  }

  lemma FrontDecides(p: Bytes, front: Bytes, tail: Bytes)
    requires |p| <= |front|
    ensures OccursAt(p, front + tail, 0) <==> OccursAt(p, front, 0)
  {
    assert (front + tail)[0..|p|] == front[0..|p|];
  }

  lemma NotInFront(c: Byte, t: Bytes, p: Bytes)
    requires !OccursAt(p, [c] + t, 0) && !Occurs(p, t)
    ensures !Occurs(p, [c] + t)
  {
    forall i: nat | i > 0
      ensures !OccursAt(p, [c] + t, i)
    {
      Shift(p, [c], t, i - 1);
    }
  }

  // ---- base64, sections 4 and 5 of RFC 4648 ----

  type Sextet = x: int | 0 <= x < 64

  function Letter(v: Sextet, url: bool): Byte {
    if v < 26 then 65 + v
    else if v < 52 then 97 + (v - 26)
    else if v < 62 then 48 + (v - 52)
    else if v == 62 then (if url then 45 else 43)
    else (if url then 95 else 47)
  }

  const PAD: Byte := 61

  function Base64(s: Bytes, url: bool, padded: bool): Bytes {
    if s == [] then []
    else if |s| == 1 then
      [Letter(s[0] / 4, url), Letter(s[0] % 4 * 16, url)] + (if padded then [PAD, PAD] else [])
    else if |s| == 2 then
      [Letter(s[0] / 4, url), Letter(s[0] % 4 * 16 + s[1] / 16, url), Letter(s[1] % 16 * 4, url)]
      + (if padded then [PAD] else [])
    else
      [Letter(s[0] / 4, url), Letter(s[0] % 4 * 16 + s[1] / 16, url),
       Letter(s[1] % 16 * 4 + s[2] / 64, url), Letter(s[2] % 64, url)]
      + Base64(s[3..], url, padded)
  }

  function Value(c: Byte, url: bool): Sextet {
    if 65 <= c <= 90 then c - 65
    else if 97 <= c <= 122 then c - 97 + 26
    else if 48 <= c <= 57 then c - 48 + 52
    else if c == (if url then 45 else 43) then 62
    else 63
  }

  /** Four letters carry three bytes, three carry two, two carry one. */
  function Decoded(t: Bytes, url: bool): Bytes {
    if |t| < 2 then []
    else
      var a, b := Value(t[0], url), Value(t[1], url);
      if |t| == 2 then [a * 4 + b / 16]
      else
        var c := Value(t[2], url);
        if |t| == 3 then [a * 4 + b / 16, b % 16 * 16 + c / 4]
        else [a * 4 + b / 16, b % 16 * 16 + c / 4, c % 4 * 64 + Value(t[3], url)] + Decoded(t[4..], url)
  }

  lemma ValueOfLetter(v: Sextet, url: bool)
    ensures Value(Letter(v, url), url) == v && Letter(v, url) != PAD
    ensures Letter(v, url) != OPEN && Letter(v, url) != CLOSE
  {
  }

  /** How the bits of three bytes come back out of the four values that carry them. */
  lemma BitsReturn(a: Byte, b: Byte, c: Byte)
    ensures a / 4 * 4 + (a % 4 * 16 + b / 16) / 16 == a
    ensures (a % 4 * 16 + b / 16) % 16 * 16 + (b % 16 * 4 + c / 64) / 4 == b
    ensures (b % 16 * 4 + c / 64) % 4 * 64 + c % 64 == c
  {
  }

  lemma GroupReturns(a: Byte, b: Byte, c: Byte, url: bool)
    ensures
      var v, w, x, y := Value(Letter(a / 4, url), url), Value(Letter(a % 4 * 16 + b / 16, url), url),
        Value(Letter(b % 16 * 4 + c / 64, url), url), Value(Letter(c % 64, url), url);
      v * 4 + w / 16 == a && w % 16 * 16 + x / 4 == b && x % 4 * 64 + y == c
  {
    hide *;
    ValueOfLetter(a / 4, url);
    ValueOfLetter(a % 4 * 16 + b / 16, url);
    ValueOfLetter(b % 16 * 4 + c / 64, url);
    ValueOfLetter(c % 64, url);
    BitsReturn(a, b, c);
  }

  lemma LastGroupReturns(s: Bytes, url: bool)
    requires |s| < 3
    ensures Decoded(Base64(s, url, false), url) == s
  {
    hide Letter, Value;
    if |s| == 1 {
      GroupReturns(s[0], 0, 0, url);
    } else if |s| == 2 {
      GroupReturns(s[0], s[1], 0, url);
    }
  }

  lemma FirstGroupReturns(s: Bytes, url: bool)
    requires |s| >= 3
    ensures Decoded(Base64(s, url, false), url) == [s[0], s[1], s[2]] + Decoded(Base64(s[3..], url, false), url)
  {
    hide Letter, Value;
    GroupReturns(s[0], s[1], s[2], url);
    assert Base64(s, url, false)[4..] == Base64(s[3..], url, false);
  }

  /** The unpadded form decodes to the bytes it was made from, in both alphabets. */
  lemma {:induction false} Base64RoundTrips(s: Bytes, url: bool)
    ensures Decoded(Base64(s, url, false), url) == s
    decreases |s|
  {
    hide Decoded, Base64;
    if |s| < 3 {
      LastGroupReturns(s, url);
    } else {
      FirstGroupReturns(s, url);
      Base64RoundTrips(s[3..], url);
      assert s == [s[0], s[1], s[2]] + s[3..];
    }
  }

  /** The pads that bring n bytes' letters to a multiple of four. */
  function Pads(n: nat): Bytes {
    if n % 3 == 0 then [] else if n % 3 == 1 then [PAD, PAD] else [PAD]
  }

  lemma OneGroupMore(s: Bytes, url: bool, padded: bool)
    requires |s| >= 3
    ensures |Base64(s, url, padded)| == 4 + |Base64(s[3..], url, padded)|
    ensures Base64(s, url, padded)[..4] == Base64(s, url, true)[..4]
    ensures Base64(s, url, padded) == Base64(s, url, padded)[..4] + Base64(s[3..], url, padded)
  {
    hide Letter;
    assert Base64(s, url, padded)[4..] == Base64(s[3..], url, padded);
  }

  lemma LastGroupPads(s: Bytes, url: bool)
    requires |s| < 3
    ensures Base64(s, url, true) == Base64(s, url, false) + Pads(|s|)
    ensures |Base64(s, url, true)| == 0 || |Base64(s, url, true)| == 4
  {
    hide Letter;
  }

  lemma PadsRepeat(n: nat)
    ensures Pads(n + 3) == Pads(n)
  {
  }

  /** Padding only adds trailing pad bytes, to a multiple of four letters. */
  lemma {:induction false} PaddingOnlyAppends(s: Bytes, url: bool)
    ensures Base64(s, url, true) == Base64(s, url, false) + Pads(|s|)
    ensures |Base64(s, url, true)| % 4 == 0
    decreases |s|
  {
    hide Letter, Base64, Pads;
    if |s| < 3 {
      LastGroupPads(s, url);
    } else {
      PaddingOnlyAppends(s[3..], url);
      OneGroupMore(s, url, true);
      OneGroupMore(s, url, false);
      PadsRepeat(|s| - 3);
      Regroup(Base64(s, url, false)[..4], Base64(s[3..], url, false), Pads(|s|));
    }
  }

  /** The two alphabets, as the tables of sections 4 and 5 of RFC 4648 have them. */
  lemma LettersAreInOrder(v: Sextet, url: bool)
    ensures Letter(0, url) == 'A' as int && Letter(25, url) == 'Z' as int
    ensures Letter(26, url) == 'a' as int && Letter(51, url) == 'z' as int
    ensures Letter(52, url) == '0' as int && Letter(61, url) == '9' as int
    ensures Letter(62, false) == '+' as int && Letter(63, false) == '/' as int
    ensures Letter(62, true) == '-' as int && Letter(63, true) == '_' as int
    ensures v < 61 && v != 25 && v != 51 ==> Letter(v + 1, url) == Letter(v, url) + 1
  {
  }

  /** Values or bytes as the digits of one number, most significant first. */
  function Number(digits: seq<int>, base: int): int {
    if digits == [] then 0 else Number(digits[..|digits| - 1], base) * base + digits[|digits| - 1]
  }

  lemma ShortNumbers(a: int, b: int, c: int, d: int, base: int)
    ensures Number([a], base) == a && Number([a, b], base) == a * base + b
    ensures Number([a, b, c], base) == (a * base + b) * base + c
    ensures Number([a, b, c, d], base) == ((a * base + b) * base + c) * base + d
  {
    assert [a][..0] == [] && [a, b][..1] == [a] && [a, b, c][..2] == [a, b] && [a, b, c, d][..3] == [a, b, c];
  }

  function Values(t: Bytes, url: bool): (values: seq<int>)
    ensures |values| == |t| && forall i :: 0 <= i < |t| ==> values[i] == Value(t[i], url)
  {
    if t == [] then [] else Values(t[..|t| - 1], url) + [Value(t[|t| - 1], url)]
  }

  /** Three bytes, as one number of 24 bits, are the values of their four letters as one. */
  lemma GroupIsNumber(s: Bytes, url: bool, padded: bool)
    requires |s| >= 3
    ensures var t := Base64(s, url, padded);
            && |t| >= 4 && t[4..] == Base64(s[3..], url, padded)
            && Number(Values(t[..4], url), 64) == Number(s[..3], 256)
  {
    hide Letter, Value, Number, Values;
    var t := Base64(s, url, padded);
    assert t[4..] == Base64(s[3..], url, padded);
    var a, b, c := s[0], s[1], s[2];
    SextetsOf(a, b, c, url);
    assert s[..3] == [a, b, c];
    assert Values(t[..4], url) == [a / 4, a % 4 * 16 + b / 16, b % 16 * 4 + c / 64, c % 64];
    ShortNumbers(a / 4, a % 4 * 16 + b / 16, b % 16 * 4 + c / 64, c % 64, 64);
    ShortNumbers(a, b, c, 0, 256);
  }

  /** One or two last bytes are followed by zero bits, up to the end of their last letter. */
  lemma LastGroupIsNumber(s: Bytes, url: bool, padded: bool)
    requires |s| < 3
    ensures var t := Base64(s, url, padded);
            && (s == [] ==> t == [])
            && (|s| == 1 ==>
                  |t| == (if padded then 4 else 2) && Number(Values(t[..2], url), 64) == Number(s, 256) * 16)
            && (|s| == 2 ==>
                  |t| == (if padded then 4 else 3) && Number(Values(t[..3], url), 64) == Number(s, 256) * 4)
  {
    hide Letter, Value, Number, Values;
    var t := Base64(s, url, padded);
    if |s| == 1 {
      var a := s[0];
      SextetsOf(a, 0, 0, url);
      assert s == [a] && Values(t[..2], url) == [a / 4, a % 4 * 16];
      ShortNumbers(a / 4, a % 4 * 16, 0, 0, 64);
      ShortNumbers(a, 0, 0, 0, 256);
    } else if |s| == 2 {
      var a, b := s[0], s[1];
      SextetsOf(a, b, 0, url);
      assert s == [a, b] && Values(t[..3], url) == [a / 4, a % 4 * 16 + b / 16, b % 16 * 4];
      ShortNumbers(a / 4, a % 4 * 16 + b / 16, b % 16 * 4, 0, 64);
      ShortNumbers(a, b, 0, 0, 256);
    }
  }

  lemma SextetsOf(a: Byte, b: Byte, c: Byte, url: bool)
    ensures Value(Letter(a / 4, url), url) == a / 4
    ensures Value(Letter(a % 4 * 16 + b / 16, url), url) == a % 4 * 16 + b / 16
    ensures Value(Letter(b % 16 * 4 + c / 64, url), url) == b % 16 * 4 + c / 64
    ensures Value(Letter(c % 64, url), url) == c % 64
  {
    hide *;
    ValueOfLetter(a / 4, url);
    ValueOfLetter(a % 4 * 16 + b / 16, url);
    ValueOfLetter(b % 16 * 4 + c / 64, url);
    ValueOfLetter(c % 64, url);
  }

  lemma {:induction false} Base64HasNoBrackets(s: Bytes, url: bool, padded: bool)
    ensures BracketFree(Base64(s, url, padded))
    ensures s != [] ==> Base64(s, url, padded) != []
    decreases |s|
  {
    forall v: Sextet
      ensures Letter(v, url) != OPEN && Letter(v, url) != CLOSE
    {
      ValueOfLetter(v, url);
    }
    if |s| >= 3 {
      Base64HasNoBrackets(s[3..], url, padded);
    }
  }

  // ---- the scrubber ----

  /** What is looked for on account of one secret, in order. */
  function Forms(s: Bytes): seq<Bytes> {
    [s, Base64(s, false, true), Base64(s, false, false), Base64(s, true, true), Base64(s, true, false)]
  }

  function Patterns(secrets: seq<Bytes>): seq<Bytes> {
    if secrets == [] then []
    else
      var last := secrets[|secrets| - 1];
      Patterns(secrets[..|secrets| - 1]) + (if last == [] then [] else Forms(last))
  }

  function Censor(t: Bytes, patterns: seq<Bytes>): Bytes
    requires [] !in patterns
  {
    if patterns == [] then t
    else ReplaceAll(Censor(t, patterns[..|patterns| - 1]), patterns[|patterns| - 1])
  }

  lemma FormsAreReal(s: Bytes)
    requires s != []
    ensures [] !in Forms(s)
    ensures BracketFree(s) ==> forall p :: p in Forms(s) ==> BracketFree(p)
  {
    hide Base64;
    Base64HasNoBrackets(s, false, true);
    Base64HasNoBrackets(s, false, false);
    Base64HasNoBrackets(s, true, true);
    Base64HasNoBrackets(s, true, false);
  }

  predicate Encodes(p: Bytes, s: Bytes, url: bool, padded: bool) {
    p == Base64(s, url, padded)
  }

  /**
   The forms of a secret are the secret and its base64 in either alphabet, with and without padding: no more, no
   fewer. A padded form is looked for before the unpadded one it begins with, so that no padding is left behind.
   */
  lemma FormsAreFive(s: Bytes, p: Bytes)
    ensures |Forms(s)| == 5 && Forms(s)[0] == s
    ensures Forms(s)[1] == Base64(s, false, true) && Forms(s)[3] == Base64(s, true, true)
    ensures p in Forms(s) <==> p == s || exists url, padded :: Encodes(p, s, url, padded)
  {
    hide Base64;
    var five := Forms(s);
    assert five[0] in five && five[1] in five && five[2] in five && five[3] in five && five[4] in five;
    assert Encodes(five[1], s, false, true) && Encodes(five[2], s, false, false);
    assert Encodes(five[3], s, true, true) && Encodes(five[4], s, true, false);
    forall url, padded | Encodes(p, s, url, padded)
      ensures p in five
    {
      assert p == five[if url then (if padded then 3 else 4) else if padded then 1 else 2];
    }
  }

  /** The patterns are the five forms of the secrets that are not empty, and none is empty. */
  lemma {:induction false} PatternsAreForms(secrets: seq<Bytes>, p: Bytes)
    ensures p in Patterns(secrets) <==> exists s :: s in secrets && s != [] && p in Forms(s)
    ensures [] !in Patterns(secrets)
  {
    hide Forms;
    if secrets != [] {
      var n := |secrets| - 1;
      var last := secrets[n];
      PatternsAreForms(secrets[..n], p);
      assert secrets == secrets[..n] + [last];
      if last != [] {
        FormsAreReal(last);
      }
    }
  }

  /** Without brackets in the secrets there are none in what is looked for. */
  lemma PatternsHaveNoBrackets(secrets: seq<Bytes>)
    requires forall s :: s in secrets ==> BracketFree(s)
    ensures forall p :: p in Patterns(secrets) ==> BracketFree(p)
  {
    hide Forms;
    forall p | p in Patterns(secrets)
      ensures BracketFree(p)
    {
      PatternsAreForms(secrets, p);
      var s :| s in secrets && s != [] && p in Forms(s);
      FormsAreReal(s);
    }
  }

  /** The scrubber's loop over the secrets. */
  method Scrub(input: Bytes, secrets: seq<Bytes>) returns (out: Bytes)
    ensures [] !in Patterns(secrets) && out == Censor(input, Patterns(secrets))
  {
    out := input;
    for n := 0 to |secrets|
      invariant [] !in Patterns(secrets[..n]) && out == Censor(input, Patterns(secrets[..n]))
    {
      assert secrets[..n + 1][..n] == secrets[..n];
      var s := secrets[n];
      PatternsAreForms(secrets[..n + 1], []);
      ghost var before := Patterns(secrets[..n]);
      if s != [] {
        CensorFive(input, before, Forms(s));
        out := ReplaceAll(out, s);
        Base64HasNoBrackets(s, false, true);
        out := ReplaceAll(out, Base64(s, false, true));
        Base64HasNoBrackets(s, false, false);
        out := ReplaceAll(out, Base64(s, false, false));
        Base64HasNoBrackets(s, true, true);
        out := ReplaceAll(out, Base64(s, true, true));
        Base64HasNoBrackets(s, true, false);
        out := ReplaceAll(out, Base64(s, true, false));
      } else {
        assert before + [] == before;
      }
    }
    assert secrets[..|secrets|] == secrets;
  }

  lemma CensorLast(t: Bytes, before: seq<Bytes>, p: Bytes)
    requires [] !in before && p != []
    ensures Censor(t, before + [p]) == ReplaceAll(Censor(t, before), p)
  {
    assert (before + [p])[..|before|] == before;
  }

  lemma CensorFive(t: Bytes, before: seq<Bytes>, five: seq<Bytes>)
    requires [] !in before && [] !in five && |five| == 5
    ensures [] !in before + five
    ensures Censor(t, before + five) ==
            ReplaceAll(ReplaceAll(ReplaceAll(ReplaceAll(ReplaceAll(
              Censor(t, before), five[0]), five[1]), five[2]), five[3]), five[4])
  {
    hide ReplaceAll, Censor;
    CensorLast(t, before, five[0]);
    CensorLast(t, before + [five[0]], five[1]);
    CensorLast(t, before + [five[0]] + [five[1]], five[2]);
    CensorLast(t, before + [five[0]] + [five[1]] + [five[2]], five[3]);
    CensorLast(t, before + [five[0]] + [five[1]] + [five[2]] + [five[3]], five[4]);
    assert before + five == before + [five[0]] + [five[1]] + [five[2]] + [five[3]] + [five[4]];
  }

  /** Some pattern is part of the word the marker spells. */
  ghost predicate Spellable(patterns: seq<Bytes>) {
    exists p :: p in patterns && Occurs(p, WORD)
  }

  ghost predicate Clean(t: Bytes, patterns: seq<Bytes>) {
    forall p :: p in patterns ==> !Occurs(p, t)
  }

  /** A pattern that is clear of the marker is censored for good, whatever the other patterns are and wherever it stands. */
  lemma {:induction false} ClearIsCensored(t: Bytes, patterns: seq<Bytes>, p: Bytes)
    requires [] !in patterns && p in patterns && Clear(p)
    ensures !Occurs(p, Censor(t, patterns))
  {
    var n := |patterns| - 1;
    var q := patterns[n];
    var before := Censor(t, patterns[..n]);
    if p == q {
      forall i: nat
        ensures !OccursAt(p, ReplaceAll(before, q), i)
      {
        NoneLeft(before, q, i);
      }
    } else {
      assert p in patterns[..n];
      ClearIsCensored(t, patterns[..n], p);
      forall i: nat
        ensures !OccursAt(p, ReplaceAll(before, q), i)
      {
        if OccursAt(p, ReplaceAll(before, q), i) {
          NothingNew(before, q, p, i);
          assert false;
        }
      }
    }
  }

  /** With every pattern clear of the marker, brackets in it or not, the output holds none of them. */
  lemma CensoredIsClean(t: Bytes, patterns: seq<Bytes>)
    requires [] !in patterns && forall p :: p in patterns ==> Clear(p)
    ensures Clean(Censor(t, patterns), patterns)
  {
    forall p | p in patterns
      ensures !Occurs(p, Censor(t, patterns))
    {
      ClearIsCensored(t, patterns, p);
    }
  }

  lemma {:induction false} CleanIsFixed(t: Bytes, patterns: seq<Bytes>)
    requires [] !in patterns && Clean(t, patterns)
    ensures Censor(t, patterns) == t
  {
    if patterns != [] {
      CleanIsFixed(t, patterns[..|patterns| - 1]);
      SameOrMarked(t, patterns[|patterns| - 1]);
    }
  }

  lemma {:induction false} SpellableSurvives(t: Bytes, patterns: seq<Bytes>, p: Bytes)
    requires [] !in patterns && Occurs(p, t) && Occurs(p, WORD)
    ensures Occurs(p, Censor(t, patterns))
  {
    if patterns != [] {
      SpellableSurvives(t, patterns[..|patterns| - 1], p);
      PartOfWordSurvives(Censor(t, patterns[..|patterns| - 1]), patterns[|patterns| - 1], p);
    }
  }

  /**
   For any secrets at all: when no pattern fits over a marker, every input comes out clean, and a second pass
   changes nothing.
   */
  lemma ClearSecretsAreScrubbed(input: Bytes, secrets: seq<Bytes>)
    requires forall p :: p in Patterns(secrets) ==> Clear(p)
    ensures [] !in Patterns(secrets)
    ensures Clean(Censor(input, Patterns(secrets)), Patterns(secrets))
    ensures Censor(Censor(input, Patterns(secrets)), Patterns(secrets)) == Censor(input, Patterns(secrets))
  {
    PatternsAreForms(secrets, []);
    CensoredIsClean(input, Patterns(secrets));
    CleanIsFixed(Censor(input, Patterns(secrets)), Patterns(secrets));
  }

  lemma NotSpellableIsClear(secrets: seq<Bytes>)
    requires forall s :: s in secrets ==> BracketFree(s)
    ensures !Spellable(Patterns(secrets)) <==> forall p :: p in Patterns(secrets) ==> Clear(p)
  {
    hide Clear, BracketFree, Occurs;
    PatternsAreForms(secrets, []);
    PatternsHaveNoBrackets(secrets);
    forall p | p in Patterns(secrets)
      ensures Clear(p) <==> !Occurs(p, WORD)
    {
      BracketFreeIsClear(p);
    }
  }

  /**
   For bracket-free secrets, the scrubber cleans every input of the secrets and all their encodings exactly
   when none of those is a piece of "redacted". Empty secrets are skipped.
   */
  lemma ScrubCleansIff(secrets: seq<Bytes>)
    requires forall s :: s in secrets ==> BracketFree(s)
    ensures [] !in Patterns(secrets)
    ensures !Spellable(Patterns(secrets)) <==>
            forall input :: Clean(Censor(input, Patterns(secrets)), Patterns(secrets))
  {
    PatternsAreForms(secrets, []);
    NotSpellableIsClear(secrets);
    var patterns := Patterns(secrets);
    if Spellable(patterns) {
      var p :| p in patterns && Occurs(p, WORD);
      assert OccursAt(p, p, 0);
      SpellableSurvives(p, patterns, p);
      assert !Clean(Censor(p, patterns), patterns);
    } else {
      forall input
        ensures Clean(Censor(input, patterns), patterns)
      {
        CensoredIsClean(input, patterns);
      }
    }
  }

  /** And then a second pass changes nothing. */
  lemma ScrubIsIdempotent(input: Bytes, secrets: seq<Bytes>)
    requires forall s :: s in secrets ==> BracketFree(s)
    requires !Spellable(Patterns(secrets))
    ensures [] !in Patterns(secrets)
    ensures Censor(Censor(input, Patterns(secrets)), Patterns(secrets)) == Censor(input, Patterns(secrets))
  {
    NotSpellableIsClear(secrets);
    ClearSecretsAreScrubbed(input, secrets);
  }

  /**
   Fitting over a marker is not the exact limit once secrets have brackets: "x[" does fit, and yet next to the
   secret "x" it never comes out, because what holds a pattern that is clear is censored with it.
   */
  lemma FittingIsNotTheLimit(input: Bytes)
    ensures var fits: Bytes := [120, OPEN];
            var secrets: seq<Bytes> := [fits, [120]];
            && !Clear(fits) && fits in Patterns(secrets) && [] !in Patterns(secrets)
            && !Occurs(fits, Censor(input, Patterns(secrets)))
  {
    var x: Bytes := [120];
    var fits: Bytes := [120, OPEN];
    var secrets: seq<Bytes> := [fits, x];
    assert Meets(fits, -1);
    assert BracketFree(x);
    forall i: nat
      ensures !OccursAt(x, WORD, i)
    {
      if i < |WORD| {
        assert WORD[i..i + 1][0] == WORD[i];
      }
    }
    BracketFreeIsClear(x);
    PatternsAreForms(secrets, fits);
    PatternsAreForms(secrets, x);
    assert fits in secrets && x in secrets && fits in Forms(fits) && x in Forms(x);
    ClearIsCensored(input, Patterns(secrets), x);
    if Occurs(fits, Censor(input, Patterns(secrets))) {
      assert OccursAt(x, fits, 0);
      OccursWithin(x, fits, Censor(input, Patterns(secrets)));
      assert false;
    }
  }

  /** Brackets matter: this secret is not part of the word, and yet censoring brings it into being. */
  lemma BracketSecretReappears()
    ensures var secret: Bytes := [CLOSE, 120];
            !Occurs(secret, WORD) && Occurs(secret, ReplaceAll(secret + [120], secret))
  {
    var secret: Bytes := [CLOSE, 120];
    var t := secret + [120];
    forall i: nat
      ensures !OccursAt(secret, WORD, i)
    {
      if i + 2 <= |WORD| {
        assert WORD[i..i + 2][0] == WORD[i];
      }
    }
    assert t[..2] == secret && t[2..] == [120];
    assert ReplaceAll(t, secret) == REDACTED + [120];
    assert OccursAt(secret, REDACTED + [120], 9);
  }
}
