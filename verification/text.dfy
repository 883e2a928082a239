/**
 * String helpers shared by the Python back end and the JavaScript front end:
 * whitespace stripping (Python `str.strip`, JavaScript `String.prototype.trim`),
 * substring search, `str.partition`, the last piece of `str.split`,
 * `sep.join`, line splitting and decimal rendering of integers.
 */
module Text {
  import opened Wrappers

  /** Python's `str.isspace()` characters: what `str.strip()` with no argument removes. */
  predicate IsPySpace(c: char) {
    || ('\t' <= c <= '\r')
    || ('\U{1C}' <= c <= '\U{1F}')
    || c == ' ' || c == '\U{85}' || c == '\U{A0}' || c == '\U{1680}'
    || ('\U{2000}' <= c <= '\U{200A}')
    || c == '\U{2028}' || c == '\U{2029}' || c == '\U{202F}' || c == '\U{205F}' || c == '\U{3000}'
  }

  /** ECMAScript WhiteSpace and LineTerminator characters: what `String.prototype.trim()` removes. */
  predicate IsJsSpace(c: char) {
    || ('\t' <= c <= '\r')
    || c == ' ' || c == '\U{A0}' || c == '\U{1680}'
    || ('\U{2000}' <= c <= '\U{200A}')
    || c == '\U{2028}' || c == '\U{2029}' || c == '\U{202F}' || c == '\U{205F}' || c == '\U{3000}'
    || c == '\U{FEFF}'
  }

  /** Every character of `s` is one that `drop` removes. */
  ghost predicate AllDropped(s: string, drop: char -> bool) {
    forall k :: 0 <= k < |s| ==> drop(s[k])
  }

  /** `r` sits in `s` at position `i`, and everything of `s` around it is removed by `drop`. */
  ghost predicate StrippedAt(r: string, s: string, i: nat, drop: char -> bool) {
    && i + |r| <= |s|
    && (forall k :: 0 <= k < |r| ==> r[k] == s[i + k])
    && (forall k :: 0 <= k < i ==> drop(s[k]))
    && (forall k :: i + |r| <= k < |s| ==> drop(s[k]))
  }

  /** Neither end of `s` is a character that `drop` removes. */
  predicate IsStripped(s: string, drop: char -> bool) {
    s == [] || (!drop(s[0]) && !drop(s[|s| - 1]))
  }

  /** `r` is `s` with a maximal run of `drop` characters removed from both ends. */
  ghost predicate IsStripOf(r: string, s: string, drop: char -> bool) {
    && IsStripped(r, drop)
    && exists i: nat :: StrippedAt(r, s, i, drop)
  }

  /** Removes leading characters that `drop` accepts. */
  function LStrip(s: string, drop: char -> bool): string
    decreases |s|
  {
    if |s| > 0 && drop(s[0]) then LStrip(s[1..], drop) else s
  }

  /** `LStrip` removes a run of dropped characters and stops at the first kept one. */
  lemma {:induction false} LStripSpec(s: string, drop: char -> bool)
    ensures var r := LStrip(s, drop);
      && |r| <= |s| && r == s[|s| - |r|..]
      && (forall k :: 0 <= k < |s| - |r| ==> drop(s[k]))
      && (r == [] || !drop(r[0]))
    decreases |s|
  {
    if |s| > 0 && drop(s[0]) {
      LStripSpec(s[1..], drop);
    }
  }

  /** Removes trailing characters that `drop` accepts. */
  function RStrip(s: string, drop: char -> bool): string
    decreases |s|
  {
    if |s| > 0 && drop(s[|s| - 1]) then RStrip(s[..|s| - 1], drop) else s
  }

  /** `RStrip` removes a run of dropped characters from the end and stops at the last kept one. */
  lemma {:induction false} RStripSpec(s: string, drop: char -> bool)
    ensures var r := RStrip(s, drop);
      && |r| <= |s| && r == s[..|r|]
      && (forall k :: |r| <= k < |s| ==> drop(s[k]))
      && (r == [] || !drop(r[|r| - 1]))
    decreases |s|
  {
    if |s| > 0 && drop(s[|s| - 1]) {
      RStripSpec(s[..|s| - 1], drop);
    }
  }

  /** `s.strip(chars)`: both ends stripped of the characters `drop` accepts. */
  function StripWith(s: string, drop: char -> bool): string {
    RStrip(LStrip(s, drop), drop)
  }

  /** `StripWith` computes the strip of its input. */
  lemma StripWithSpec(s: string, drop: char -> bool)
    ensures IsStripOf(StripWith(s, drop), s, drop)
  {
    var left := LStrip(s, drop);
    LStripSpec(s, drop);
    RStripSpec(left, drop);
    StrippedAtSuffix(s, left, RStrip(left, drop), drop);
  }

  /** A prefix of a suffix sits where the suffix starts, dropped material on both sides. */
  lemma StrippedAtSuffix(s: string, left: string, r: string, drop: char -> bool)
    requires |left| <= |s| && left == s[|s| - |left|..]
    requires forall k :: 0 <= k < |s| - |left| ==> drop(s[k])
    requires |r| <= |left| && r == left[..|r|]
    requires forall k :: |r| <= k < |left| ==> drop(left[k])
    ensures StrippedAt(r, s, |s| - |left|, drop)
  {
    var i := |s| - |left|;
    forall k | 0 <= k < |r| ensures r[k] == s[i + k] {
      assert r[k] == left[k];
    }
    forall k | i + |r| <= k < |s| ensures drop(s[k]) {
      assert left[k - i] == s[k];
    }
  }

  /** Python's `s.strip()`. */
  function Strip(s: string): string {
    StripWith(s, IsPySpace)
  }

  /** JavaScript's `s.trim()`. */
  function Trim(s: string): string {
    StripWith(s, IsJsSpace)
  }

  /** `Strip` is the strip with respect to Python's whitespace. */
  lemma StripSpec(s: string)
    ensures IsStripOf(Strip(s), s, IsPySpace)
  {
    StripWithSpec(s, IsPySpace);
  }

  /** `Trim` is the strip with respect to JavaScript's whitespace. */
  lemma TrimSpec(s: string)
    ensures IsStripOf(Trim(s), s, IsJsSpace)
  {
    StripWithSpec(s, IsJsSpace);
  }

  /** The strip property pins the result down: a string has exactly one strip. */
  lemma StripOfUnique(r1: string, r2: string, s: string, drop: char -> bool)
    requires IsStripOf(r1, s, drop) && IsStripOf(r2, s, drop)
    ensures r1 == r2
  {
    var i1: nat :| StrippedAt(r1, s, i1, drop);
    var i2: nat :| StrippedAt(r2, s, i2, drop);
    assert r1 != [] ==> r2 != [] by {
      if r1 != [] { assert r1[0] == s[i1]; }
    }
    assert r2 != [] ==> r1 != [] by {
      if r2 != [] { assert r2[0] == s[i2]; }
    }
    if r1 != [] {
      assert i1 == i2 by {
        assert r1[0] == s[i1] && r2[0] == s[i2];
      }
      assert |r1| == |r2| by {
        assert r1[|r1| - 1] == s[i1 + |r1| - 1];
        assert r2[|r2| - 1] == s[i2 + |r2| - 1];
      }
      assert forall k :: 0 <= k < |r1| ==> r1[k] == r2[k];
    }
  }

  /** A string that is already stripped is its own strip. */
  lemma StrippedIsOwnStrip(s: string, drop: char -> bool)
    requires IsStripped(s, drop)
    ensures StripWith(s, drop) == s
  {
    assert StrippedAt(s, s, 0, drop);
    StripWithSpec(s, drop);
    StripOfUnique(StripWith(s, drop), s, s, drop);
  }

  /** Stripping twice is stripping once. */
  lemma StripIdempotent(s: string, drop: char -> bool)
    ensures StripWith(StripWith(s, drop), drop) == StripWith(s, drop)
  {
    StripWithSpec(s, drop);
    StrippedIsOwnStrip(StripWith(s, drop), drop);
  }

  /** `pat` occurs in `s` starting at position `i`. */
  predicate OccursAt(s: string, pat: string, i: nat) {
    i + |pat| <= |s| && s[i..i + |pat|] == pat
  }

  /** Occurrences in a suffix are occurrences in the whole string, shifted. */
  lemma OccursAtDrop(s: string, pat: string, m: nat, j: nat)
    requires m <= |s|
    ensures OccursAt(s[m..], pat, j) <==> OccursAt(s, pat, m + j)
  {
    if m + j + |pat| <= |s| {
      assert s[m..][j..j + |pat|] == s[m + j..m + j + |pat|];
    }
  }

  /** The first occurrence of `pat` in `s` at or after position `from`, if any. */
  function FindFrom(s: string, pat: string, from: nat): (r: Option<nat>)
    requires from <= |s|
    ensures r.Some? ==> from <= r.value && OccursAt(s, pat, r.value)
    ensures r.Some? ==> forall j: nat :: from <= j < r.value ==> !OccursAt(s, pat, j)
    ensures r.None? ==> forall j: nat :: from <= j ==> !OccursAt(s, pat, j)
    decreases |s| - from
  {
    if from + |pat| > |s| then None
    else if OccursAt(s, pat, from) then Some(from)
    else FindFrom(s, pat, from + 1)
  }

  /** Python's `s.find(pat)`: the position of the first occurrence, if any. */
  function IndexOf(s: string, pat: string): (r: Option<nat>)
    ensures r.Some? ==> OccursAt(s, pat, r.value)
    ensures r.Some? ==> forall j: nat :: j < r.value ==> !OccursAt(s, pat, j)
    ensures r.None? ==> forall j: nat :: !OccursAt(s, pat, j)
  {
    FindFrom(s, pat, 0)
  }

  /** Python's `pat in s`. */
  predicate Contains(s: string, pat: string)
  {
    IndexOf(s, pat).Some?
  }

  /** An occurrence inside an infix `s[i..i + n]` is an occurrence in `s`. */
  lemma InfixContains(s: string, pat: string, i: nat, n: nat)
    requires i + n <= |s|
    ensures Contains(s[i..i + n], pat) ==> Contains(s, pat)
  {
    if Contains(s[i..i + n], pat) {
      var t := s[i..i + n];
      var j := IndexOf(t, pat).value;
      assert t[j..j + |pat|] == pat;
      assert forall k :: 0 <= k < |pat| ==> s[i + j + k] == pat[k] by {
        forall k | 0 <= k < |pat| ensures s[i + j + k] == pat[k] {
          assert t[j..j + |pat|][k] == t[j + k] == s[i + j + k];
        }
      }
      assert s[i + j..i + j + |pat|] == pat;
      assert OccursAt(s, pat, i + j);
    }
  }

  /** Stripping cannot create an occurrence of `pat` that the input lacked. */
  lemma StripContains(r: string, s: string, pat: string, drop: char -> bool)
    requires IsStripOf(r, s, drop)
    ensures Contains(r, pat) ==> Contains(s, pat)
  {
    var i: nat :| StrippedAt(r, s, i, drop);
    assert r == s[i..i + |r|];
    InfixContains(s, pat, i, |r|);
  }

  /** Python's `s.partition(sep)`, as (head, separator, tail). */
  function Partition(s: string, sep: string): (r: (string, string, string))
    ensures r.0 + r.1 + r.2 == s
    ensures Contains(s, sep) ==> r.1 == sep && OccursAt(s, sep, |r.0|)
    ensures Contains(s, sep) ==> forall j: nat :: j < |r.0| ==> !OccursAt(s, sep, j)
    ensures !Contains(s, sep) ==> r == (s, "", "")
  {
    match IndexOf(s, sep)
    case None => (s, "", "")
    case Some(i) =>
      assert s[..i] + sep + s[i + |sep|..] == s;
      (s[..i], sep, s[i + |sep|..])
  }

  /**
   * Where the last piece of Python's `s.split(sep)` begins when the split scans from
   * position `from`: it cuts after each separator it finds, left to right.
   */
  function LastPieceStart(s: string, sep: string, from: nat): (k: nat)
    requires |sep| > 0 && from <= |s|
    ensures from <= k <= |s|
    ensures forall j: nat :: k <= j ==> !OccursAt(s, sep, j)
    ensures FindFrom(s, sep, from).None? ==> k == from
    ensures FindFrom(s, sep, from).Some? ==> from + |sep| <= k && OccursAt(s, sep, k - |sep|)
    decreases |s| - from
  {
    match FindFrom(s, sep, from)
    case None => from
    case Some(i) => LastPieceStart(s, sep, i + |sep|)
  }

  /** Python's `s.split(sep)[-1]`: the text after the last separator the split finds. */
  function LastPiece(s: string, sep: string): (r: string)
    requires |sep| > 0
    ensures |r| <= |s| && r == s[|s| - |r|..]
    ensures !Contains(r, sep)
    ensures forall j: nat :: |s| - |r| <= j ==> !OccursAt(s, sep, j)
    ensures !Contains(s, sep) ==> r == s
    ensures Contains(s, sep) ==> |r| + |sep| <= |s| && OccursAt(s, sep, |s| - |r| - |sep|)
  {
    var k := LastPieceStart(s, sep, 0);
    assert forall j: nat :: !OccursAt(s[k..], sep, j) by {
      forall j: nat ensures !OccursAt(s[k..], sep, j) {
        OccursAtDrop(s, sep, k, j);
      }
    }
    s[k..]
  }

  /** Python's `sep.join(xs)`. */
  function Join(xs: seq<string>, sep: string): string {
    if |xs| == 0 then ""
    else if |xs| == 1 then xs[0]
    else xs[0] + sep + Join(xs[1..], sep)
  }

  /** Python's `s.split(c)` for a one-character separator. */
  function SplitOn(s: string, c: char): (r: seq<string>)
    ensures |r| >= 1
    decreases |s|
  {
    if |s| == 0 then [""]
    else
      var rest := SplitOn(s[1..], c);
      if s[0] == c then [""] + rest else [[s[0]] + rest[0]] + rest[1..]
  }

  /** A string without `c` splits into itself. */
  lemma {:induction false} SplitOnWithout(a: string, c: char)
    requires c !in a
    ensures SplitOn(a, c) == [a]
    decreases |a|
  {
    if |a| > 0 {
      SplitOnWithout(a[1..], c);
      assert [a[0]] + a[1..] == a;
    }
  }

  /** Splitting at the first separator: `a + [c] + b` with no `c` in `a`. */
  lemma {:induction false} SplitOnFirst(a: string, b: string, c: char)
    requires c !in a
    ensures SplitOn(a + [c] + b, c) == [a] + SplitOn(b, c)
    decreases |a|
  {
    if |a| == 0 {
      assert a + [c] + b == [c] + b;
      assert ([c] + b)[1..] == b;
    } else {
      assert (a + [c] + b)[1..] == a[1..] + [c] + b;
      SplitOnFirst(a[1..], b, c);
      assert [a[0]] + a[1..] == a;
    }
  }

  /** Joining pieces that contain no separator and splitting again gives back the pieces. */
  lemma {:induction false} SplitOnJoin(xs: seq<string>, c: char)
    requires |xs| >= 1
    requires forall k :: 0 <= k < |xs| ==> c !in xs[k]
    ensures SplitOn(Join(xs, [c]), c) == xs
    decreases |xs|
  {
    if |xs| == 1 {
      SplitOnWithout(xs[0], c);
    } else {
      SplitOnJoin(xs[1..], c);
      SplitOnFirst(xs[0], Join(xs[1..], [c]), c);
      assert [xs[0]] + xs[1..] == xs;
    }
  }

  /** Joining one more piece at the end. */
  lemma {:induction false} JoinAppend(xs: seq<string>, x: string, sep: string)
    requires |xs| >= 1
    ensures Join(xs + [x], sep) == Join(xs, sep) + sep + x
    decreases |xs|
  {
    if |xs| == 1 {
      assert (xs + [x])[1..] == [x];
    } else {
      assert (xs + [x])[1..] == xs[1..] + [x];
      JoinAppend(xs[1..], x, sep);
    }
  }

  /**
   * Where piece `k` of `sep.join(xs)` starts when `sepLen` characters separate the pieces:
   * the lengths of the pieces before it, each followed by a separator.
   */
  function Offset(xs: seq<string>, sepLen: nat, k: nat): nat
    requires k <= |xs|
  {
    if k == 0 then 0 else Offset(xs, sepLen, k - 1) + |xs[k - 1]| + sepLen
  }

  /** Extending a string keeps every occurrence where it was. */
  lemma OccursAtExtend(a: string, b: string, pat: string, i: nat)
    requires OccursAt(a, pat, i)
    ensures OccursAt(a + b, pat, i)
  {
    assert (a + b)[i..i + |pat|] == a[i..i + |pat|];
  }

  /** Offsets depend only on the pieces before the one they locate. */
  lemma {:induction false} OffsetPrefix(xs: seq<string>, ys: seq<string>, sepLen: nat, k: nat)
    requires k <= |xs| && k <= |ys| && xs[..k] == ys[..k]
    ensures Offset(xs, sepLen, k) == Offset(ys, sepLen, k)
  {
    if k > 0 {
      assert xs[..k - 1] == xs[..k][..k - 1] && ys[..k - 1] == ys[..k][..k - 1];
      assert xs[k - 1] == xs[..k][k - 1] && ys[k - 1] == ys[..k][k - 1];
      OffsetPrefix(xs, ys, sepLen, k - 1);
    }
  }

  /** Every piece of the join sits at its offset. */
  lemma JoinPieces(xs: seq<string>, sep: string)
    ensures forall k :: 0 <= k < |xs| ==> OccursAt(Join(xs, sep), xs[k], Offset(xs, |sep|, k))
  {
    forall k | 0 <= k < |xs| ensures OccursAt(Join(xs, sep), xs[k], Offset(xs, |sep|, k)) {
      JoinPieceAt(xs, sep, k);
    }
  }

  /** A join of several pieces is the join of all but the last, a separator, and the last. */
  lemma {:induction false} JoinSplitLast(xs: seq<string>, sep: string)
    requires |xs| >= 2
    ensures Join(xs, sep) == Join(xs[..|xs| - 1], sep) + (sep + xs[|xs| - 1])
    ensures Offset(xs, |sep|, |xs| - 1) == Offset(xs[..|xs| - 1], |sep|, |xs| - 1)
  {
    var init := xs[..|xs| - 1];
    var last := xs[|xs| - 1];
    assert init + [last] == xs;
    JoinAppend(init, last, sep);
    assert Join(init, sep) + sep + last == Join(init, sep) + (sep + last);
    OffsetPrefix(xs, init, |sep|, |xs| - 1);
  }

  /** The join is as long as its pieces plus one separator between each two. */
  lemma {:induction false} JoinLength(xs: seq<string>, sep: string)
    requires |xs| >= 1
    ensures |Join(xs, sep)| + |sep| == Offset(xs, |sep|, |xs|)
    decreases |xs|
  {
    if |xs| >= 2 {
      JoinSplitLast(xs, sep);
      JoinLength(xs[..|xs| - 1], sep);
    }
  }

  /** Piece `k` of the join sits at its offset. */
  lemma {:induction false} JoinPieceAt(xs: seq<string>, sep: string, k: nat)
    requires k < |xs|
    ensures OccursAt(Join(xs, sep), xs[k], Offset(xs, |sep|, k))
    decreases |xs|
  {
    var n := |xs|;
    var j := Join(xs, sep);
    if n == 1 {
      assert j[0..|xs[0]|] == xs[0];
    } else {
      var init := xs[..n - 1];
      var ji := Join(init, sep);
      JoinSplitLast(xs, sep);
      if k < n - 1 {
        JoinPieceAt(init, sep, k);
        OffsetPrefix(xs, init, |sep|, k);
        assert init[k] == xs[k];
        OccursAtExtend(ji, sep + xs[n - 1], xs[k], Offset(xs, |sep|, k));
      } else {
        JoinLength(init, sep);
        assert j[|ji| + |sep|..] == xs[n - 1];
      }
    }
  }

  /** A separator follows piece `k` of the join when it is not the last. */
  lemma {:induction false} JoinSeparatorAt(xs: seq<string>, sep: string, k: nat)
    requires k + 1 < |xs|
    ensures OccursAt(Join(xs, sep), sep, Offset(xs, |sep|, k) + |xs[k]|)
    decreases |xs|
  {
    var n := |xs|;
    var j := Join(xs, sep);
    var init := xs[..n - 1];
    var ji := Join(init, sep);
    JoinSplitLast(xs, sep);
    OffsetPrefix(xs, init, |sep|, k);
    assert init[k] == xs[k];
    if k + 1 < n - 1 {
      JoinSeparatorAt(init, sep, k);
      OccursAtExtend(ji, sep + xs[n - 1], sep, Offset(xs, |sep|, k) + |xs[k]|);
    } else {
      JoinLength(init, sep);
      OffsetPrefix(xs, init, |sep|, k + 1);
      assert j[|ji|..|ji| + |sep|] == sep;
    }
  }

  predicate IsDigit(c: char) {
    '0' <= c <= '9'
  }

  predicate AllDigits(s: string) {
    forall k :: 0 <= k < |s| ==> IsDigit(s[k])
  }

  function DigitChar(d: nat): (c: char)
    requires d < 10
    ensures IsDigit(c)
  {
    ('0' as int + d) as char
  }

  /** Python's `str(n)` and JavaScript's `String(n)` for a natural number. */
  function NatToString(n: nat): (r: string)
    ensures 1 <= |r| && AllDigits(r)
    decreases n
  {
    if n < 10 then [DigitChar(n)]
    else NatToString(n / 10) + [DigitChar(n % 10)]
  }

  /** The rendering has no leading zero, one digit exactly below 10 and at most two below 100. */
  lemma {:induction false} NatToStringLength(n: nat)
    ensures var r := NatToString(n);
      && (|r| > 1 ==> r[0] != '0')
      && (n < 10 <==> |r| == 1)
      && (n < 100 <==> |r| <= 2)
    decreases n
  {
    if n >= 10 {
      NatToStringLength(n / 10);
      assert NatToString(n)[0] == NatToString(n / 10)[0];
    }
  }

  /** The number a string of decimal digits denotes (leading zeros allowed). */
  function DigitsValue(s: string): nat
    requires AllDigits(s)
  {
    if |s| == 0 then 0 else DigitsValue(s[..|s| - 1]) * 10 + (s[|s| - 1] as int - '0' as int)
  }

  /** Decimal rendering round-trips: reading the digits back yields `n`. */
  lemma {:induction false} NatToStringRoundTrip(n: nat)
    ensures DigitsValue(NatToString(n)) == n
    decreases n
  {
    if n >= 10 {
      NatToStringRoundTrip(n / 10);
      var r := NatToString(n);
      assert r[..|r| - 1] == NatToString(n / 10);
    }
  }

  /** Leading zeros do not change the value of a digit string. */
  lemma {:induction false} DigitsValueLeadingZeros(z: nat, s: string)
    requires AllDigits(s)
    ensures AllDigits(seq(z, _ => '0') + s)
    ensures DigitsValue(seq(z, _ => '0') + s) == DigitsValue(s)
    decreases |s|
  {
    var t := seq(z, _ => '0') + s;
    if |s| == 0 {
      assert t == seq(z, _ => '0');
      ZerosValue(z);
    } else {
      assert t[..|t| - 1] == seq(z, _ => '0') + s[..|s| - 1];
      DigitsValueLeadingZeros(z, s[..|s| - 1]);
    }
  }

  lemma {:induction false} ZerosValue(z: nat)
    ensures AllDigits(seq(z, _ => '0'))
    ensures DigitsValue(seq(z, _ => '0')) == 0
  {
    if z > 0 {
      assert seq(z, _ => '0')[..z - 1] == seq(z - 1, _ => '0');
      ZerosValue(z - 1);
    }
  }

  /** Python's `str(i)` for any integer. */
  function IntToString(i: int): string {
    if i < 0 then "-" + NatToString(-i) else NatToString(i)
  }
}
