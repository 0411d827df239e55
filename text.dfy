/** Option and Result types shared by every module of the model. */
module Wrappers {
  datatype Option<+T> = None | Some(value: T)

  datatype Result<+T, +E> = Ok(value: T) | Err(error: E)
}

/**
 * Strings, character classes and the handful of Go library string functions
 * the converter relies on (strings.HasPrefix, strings.TrimSpace,
 * strings.Fields, strings.ReplaceAll, strconv.ParseInt, fmt's %d).
 * Strings are sequences of code points.
 */
module Text {
  import opened Wrappers

  type String = seq<char>

  /** The zero-width space U+200B used as a separator between link phases. */
  const ZeroWidthSpace: char := '\U{200B}'

  predicate IsDigit(c: char) { '0' <= c <= '9' }
  predicate IsUpper(c: char) { 'A' <= c <= 'Z' }
  predicate IsLower(c: char) { 'a' <= c <= 'z' }
  predicate IsAlpha(c: char) { IsUpper(c) || IsLower(c) }
  predicate IsAlnum(c: char) { IsAlpha(c) || IsDigit(c) }
  predicate IsXDigit(c: char) { IsDigit(c) || 'a' <= c <= 'f' || 'A' <= c <= 'F' }
  /** RE2's \w */
  predicate IsWordChar(c: char) { IsAlnum(c) || c == '_' }
  /** RE2's \s (Perl class: no vertical tab) */
  predicate IsPerlSpace(c: char) { c == '\t' || c == '\n' || c == '\U{000C}' || c == '\r' || c == ' ' }
  /** RE2's [[:space:]] (POSIX class: includes vertical tab) */
  predicate IsPosixSpace(c: char) { IsPerlSpace(c) || c == '\U{000B}' }

  /** Go's unicode.IsSpace */
  predicate IsUnicodeSpace(c: char) {
    IsPosixSpace(c) || c == '\U{0085}' || c == '\U{00A0}' || c == '\U{1680}'
    || ('\U{2000}' <= c <= '\U{200A}') || c == '\U{2028}' || c == '\U{2029}'
    || c == '\U{202F}' || c == '\U{205F}' || c == '\U{3000}'
  }

  predicate NotUnicodeSpace(c: char) { !IsUnicodeSpace(c) }

  predicate HasPrefix(s: String, w: String) { |w| <= |s| && s[..|w|] == w }

  predicate StartsAt(s: String, i: nat, w: String) { i + |w| <= |s| && s[i..i + |w|] == w }

  /** `w` occurs somewhere in `s` (Go's strings.Contains). */
  predicate Occurs(s: String, w: String) { exists i: nat | i <= |s| :: StartsAt(s, i, w) }

  lemma StartsAtPrefix(s: String, i: nat, w: String)
    requires i <= |s|
    ensures StartsAt(s, i, w) <==> HasPrefix(s[i..], w)
  {
    if i + |w| <= |s| {
      assert s[i..][..|w|] == s[i..i + |w|];
    }
  }

  /** Length of the longest prefix of `s` whose characters all satisfy `p`. */
  function Run(s: String, p: char -> bool): (n: nat)
    ensures n <= |s|
    ensures forall i | 0 <= i < n :: p(s[i])
    ensures n == |s| || !p(s[n])
  {
    if s == [] || !p(s[0]) then 0 else 1 + Run(s[1..], p)
  }

  /** Index of the first `c` in `s` at or after `from`. */
  function IndexFrom(s: String, from: nat, c: char): (r: Option<nat>)
    decreases |s| - from
    ensures r.Some? ==> from <= r.value < |s| && s[r.value] == c
    ensures r.Some? ==> forall i | from <= i < r.value :: s[i] != c
    ensures r.None? ==> forall i | from <= i < |s| :: s[i] != c
  {
    if from >= |s| then None
    else if s[from] == c then Some(from)
    else IndexFrom(s, from + 1, c)
  }

  /** Length of the longest prefix of `s` that ends with an alphanumeric character (0 if none). */
  function AlnumPrefixEnd(s: String): (n: nat)
    ensures n <= |s|
    ensures n > 0 ==> IsAlnum(s[n - 1])
    ensures forall i | n <= i < |s| :: !IsAlnum(s[i])
  {
    if s == [] then 0
    else if IsAlnum(s[|s| - 1]) then |s|
    else AlnumPrefixEnd(s[..|s| - 1])
  }

  /** Go's strings.TrimSpace */
  function TrimSpace(s: String): (r: String)
    ensures |r| <= |s|
    ensures r != [] ==> !IsUnicodeSpace(r[0]) && !IsUnicodeSpace(r[|r| - 1])
  {
    TrimRight(TrimLeft(s))
  }

  function TrimLeft(s: String): (r: String)
    ensures |r| <= |s| && (r != [] ==> !IsUnicodeSpace(r[0]))
    ensures forall i | 0 <= i < |r| :: r[i] == s[|s| - |r| + i]
  {
    if s != [] && IsUnicodeSpace(s[0]) then TrimLeft(s[1..]) else s
  }

  function TrimRight(s: String): (r: String)
    ensures |r| <= |s| && (r != [] ==> !IsUnicodeSpace(r[|r| - 1]))
    ensures forall i | 0 <= i < |r| :: r[i] == s[i]
  {
    if s != [] && IsUnicodeSpace(s[|s| - 1]) then TrimRight(s[..|s| - 1]) else s
  }

  /** Go's strings.ReplaceAll for a non-empty pattern: leftmost, non-overlapping. */
  function ReplaceAll(s: String, pat: String, rep: String): (r: String)
    requires |pat| > 0
    decreases |s|
  {
    if |s| < |pat| then s
    else if s[..|pat|] == pat then rep + ReplaceAll(s[|pat|..], pat, rep)
    else [s[0]] + ReplaceAll(s[1..], pat, rep)
  }

  /** Deleting every occurrence of one character leaves none of it. */
  lemma {:induction false} ReplaceAllDeletesChar(s: String, c: char)
    ensures c !in ReplaceAll(s, [c], "")
    ensures |ReplaceAll(s, [c], "")| <= |s|
    decreases |s|
  {
    if |s| >= 1 {
      ReplaceAllDeletesChar(s[1..], c);
    }
  }

  /** Text without the pattern is left alone. */
  lemma {:induction false} ReplaceAllAbsent(s: String, pat: String, rep: String)
    requires |pat| > 0
    requires forall i: nat | i <= |s| :: !StartsAt(s, i, pat)
    ensures ReplaceAll(s, pat, rep) == s
    decreases |s|
  {
    if |s| >= |pat| {
      assert !StartsAt(s, 0, pat);
      forall i: nat | i <= |s[1..]| ensures !StartsAt(s[1..], i, pat) {
        assert !StartsAt(s, i + 1, pat);
      }
      ReplaceAllAbsent(s[1..], pat, rep);
    }
  }

  /**
   * When the pattern does not start anywhere inside `a`, even overlapping
   * into what follows, the first occurrence is the one right after `a`.
   */
  lemma {:induction false} ReplaceAllAfter(a: String, pat: String, rep: String, b: String)
    requires |pat| > 0
    requires forall i | 0 <= i < |a| :: !StartsAt(a + (pat + b), i, pat)
    ensures ReplaceAll(a + (pat + b), pat, rep) == a + (rep + ReplaceAll(b, pat, rep))
    decreases |a|
  {
    var s := a + (pat + b);
    if a == [] {
      assert s == pat + b;
      assert s[..|pat|] == pat && s[|pat|..] == b;
    } else {
      assert !StartsAt(s, 0, pat);
      assert s[1..] == a[1..] + (pat + b);
      forall i | 0 <= i < |a[1..]| ensures !StartsAt(a[1..] + (pat + b), i, pat) {
        assert !StartsAt(s, i + 1, pat);
        assert s[i + 1..i + 1 + |pat|] == (a[1..] + (pat + b))[i..i + |pat|];
      }
      ReplaceAllAfter(a[1..], pat, rep, b);
      var tail := rep + ReplaceAll(b, pat, rep);
      assert ReplaceAll(s, pat, rep) == [s[0]] + (a[1..] + tail);
      assert [s[0]] + (a[1..] + tail) == a + tail by {
        assert [a[0]] + a[1..] == a;
      }
    }
  }

  /** A window that starts in the second part of `u + v` is a window of `v`. */
  lemma StartsAtShift(u: String, v: String, i: nat, w: String)
    ensures StartsAt(u + v, |u| + i, w) == StartsAt(v, i, w)
  {
    if i + |w| <= |v| {
      assert (u + v)[|u| + i..|u| + i + |w|] == v[i..i + |w|];
    }
  }

  /** A window that ends inside `u` is the same in `u + v`. */
  lemma StartsAtWithin(u: String, v: String, i: nat, w: String)
    requires i + |w| <= |u|
    ensures StartsAt(u + v, i, w) == StartsAt(u, i, w)
  {
    assert (u + v)[i..i + |w|] == u[i..i + |w|];
  }

  /** A window holding a character other than the one `w` has there is no occurrence of `w`. */
  lemma WindowMismatch(s: String, i: nat, w: String, j: nat)
    requires i <= j < i + |w| && j < |s| && s[j] != w[j - i]
    ensures !StartsAt(s, i, w)
  {
    if i + |w| <= |s| {
      assert s[i..i + |w|][j - i] == s[j];
    }
  }

  /** No character of `w` is one of `r`. */
  predicate Disjoint(w: String, r: String) {
    forall i, j | 0 <= i < |w| && 0 <= j < |r| :: w[i] != r[j]
  }

  /**
   * A prefix of the replaced text made of characters the replacement lacks
   * was already a prefix of the original.
   */
  lemma {:induction false} ReplaceAllPrefixBack(s: String, pat: String, rep: String, w: String)
    requires |pat| > 0 && rep != [] && Disjoint(w, rep)
    ensures HasPrefix(ReplaceAll(s, pat, rep), w) ==> HasPrefix(s, w)
    decreases |s|
  {
    var r := ReplaceAll(s, pat, rep);
    if w != [] && |s| >= |pat| {
      if s[..|pat|] == pat {
        assert r[0] == rep[0];
        if |w| <= |r| {
          assert r[..|w|][0] == r[0];
        }
      } else {
        var t := ReplaceAll(s[1..], pat, rep);
        assert r == [s[0]] + t;
        ReplaceAllPrefixBack(s[1..], pat, rep, w[1..]);
        if HasPrefix(r, w) {
          assert r[..|w|] == [s[0]] + t[..|w| - 1];
          assert s[..|w|] == [s[0]] + s[1..][..|w| - 1];
        }
      }
    }
  }

  /** The first character and then a replaced rest: a prefix there was a prefix before. */
  lemma ConsPrefixBack(s: String, pat: String, rep: String, q: String)
    requires |s| >= 1 && |pat| > 0 && rep != [] && q != [] && Disjoint(q, rep)
    ensures HasPrefix([s[0]] + ReplaceAll(s[1..], pat, rep), q) ==> HasPrefix(s, q)
  {
    var t := ReplaceAll(s[1..], pat, rep);
    var r := [s[0]] + t;
    ReplaceAllPrefixBack(s[1..], pat, rep, q[1..]);
    if HasPrefix(r, q) {
      assert r[..|q|] == [s[0]] + t[..|q| - 1];
      assert s[..|q|] == [s[0]] + s[1..][..|q| - 1];
    }
  }

  /** Text in which `q` does not occur does not gain it by a replacement with none of its characters. */
  lemma {:induction false} ReplaceAllKeepsAbsent(s: String, pat: String, rep: String, q: String)
    requires |pat| > 0 && rep != [] && q != [] && Disjoint(q, rep)
    requires !Occurs(s, q)
    ensures !Occurs(ReplaceAll(s, pat, rep), q)
    decreases |s|
  {
    var r := ReplaceAll(s, pat, rep);
    if |s| >= |pat| {
      if s[..|pat|] == pat {
        var t := ReplaceAll(s[|pat|..], pat, rep);
        NoOccurrenceSuffix(s, |pat|, q);
        ReplaceAllKeepsAbsent(s[|pat|..], pat, rep, q);
        ReplacedFront(rep, t, q);
      } else {
        var t := ReplaceAll(s[1..], pat, rep);
        assert r == [s[0]] + t;
        NoOccurrenceSuffix(s, 1, q);
        ReplaceAllKeepsAbsent(s[1..], pat, rep, q);
        ConsPrefixBack(s, pat, rep, q);
        StartsAtPrefix(r, 0, q);
        StartsAtPrefix(s, 0, q);
        forall i: nat | 0 < i <= |r| ensures !StartsAt(r, i, q) {
          StartsAtShift([s[0]], t, i - 1, q);
        }
      }
    }
  }

  /** The replacement text cannot start an occurrence of `q`; after it, `t` has none. */
  lemma ReplacedFront(rep: String, t: String, q: String)
    requires q != [] && Disjoint(q, rep) && !Occurs(t, q)
    ensures !Occurs(rep + t, q)
  {
    var r := rep + t;
    forall i: nat | i <= |r| ensures !StartsAt(r, i, q) {
      if i < |rep| {
        if i + |q| <= |r| {
          assert r[i..i + |q|][0] == r[i] == rep[i];
        }
      } else {
        StartsAtShift(rep, t, i - |rep|, q);
      }
    }
  }

  /** Replacing a pattern by text with none of its characters leaves no occurrence of it. */
  lemma {:induction false} ReplaceAllLeavesNone(s: String, pat: String, rep: String)
    requires |pat| > 0 && rep != [] && Disjoint(pat, rep)
    ensures !Occurs(ReplaceAll(s, pat, rep), pat)
    decreases |s|
  {
    var r := ReplaceAll(s, pat, rep);
    if |s| < |pat| {
      assert forall i: nat | i <= |r| :: !StartsAt(r, i, pat);
    } else if s[..|pat|] == pat {
      ReplaceAllLeavesNone(s[|pat|..], pat, rep);
      ReplacedFront(rep, ReplaceAll(s[|pat|..], pat, rep), pat);
    } else {
      var t := ReplaceAll(s[1..], pat, rep);
      assert r == [s[0]] + t;
      ReplaceAllLeavesNone(s[1..], pat, rep);
      ConsPrefixBack(s, pat, rep, pat);
      StartsAtPrefix(r, 0, pat);
      forall i: nat | 0 < i <= |r| ensures !StartsAt(r, i, pat) {
        StartsAtShift([s[0]], t, i - 1, pat);
      }
    }
  }

  lemma NoOccurrenceSuffix(s: String, k: nat, q: String)
    requires k <= |s| && !Occurs(s, q)
    ensures !Occurs(s[k..], q)
  {
    forall i: nat | i <= |s[k..]| ensures !StartsAt(s[k..], i, q) {
      assert s == s[..k] + s[k..];
      StartsAtShift(s[..k], s[k..], i, q);
    }
  }

  /** `Run` is pinned down by where it stops. */
  lemma {:induction false} RunExact(s: String, p: char -> bool, n: nat)
    requires n <= |s|
    requires forall i | 0 <= i < n :: p(s[i])
    requires n == |s| || !p(s[n])
    ensures Run(s, p) == n
  {
    if n > 0 {
      assert p(s[0]);
      RunExact(s[1..], p, n - 1);
    }
  }

  /** Go's strings.Fields: the maximal runs of non-space characters. */
  function Fields(s: String): (r: seq<String>)
    ensures forall k | 0 <= k < |r| :: r[k] != [] && forall j | 0 <= j < |r[k]| :: !IsUnicodeSpace(r[k][j])
    decreases |s|
  {
    var lead := Run(s, IsUnicodeSpace);
    if lead == |s| then []
    else
      var rest := s[lead..];
      var n := Run(rest, NotUnicodeSpace);
      [rest[..n]] + Fields(rest[n..])
  }

  function DigitValue(c: char): nat requires IsDigit(c) { (c as int - '0' as int) as nat }

  /** The value of a non-empty string of decimal digits. */
  function DecimalValue(s: String): nat
    requires forall i | 0 <= i < |s| :: IsDigit(s[i])
  {
    if s == [] then 0 else 10 * DecimalValue(s[..|s| - 1]) + DigitValue(s[|s| - 1])
  }

  const MaxInt64: int := 0x7FFF_FFFF_FFFF_FFFF

  /** strconv.ParseInt(s, 10, 64) on a string of digits: fails on empty input and on overflow. */
  function ParseDecimal(s: String): (r: Option<int>)
    ensures r.Some? ==> 0 <= r.value <= MaxInt64
  {
    if s == [] || exists i | 0 <= i < |s| :: !IsDigit(s[i]) then None
    else if DecimalValue(s) > MaxInt64 then None
    else Some(DecimalValue(s))
  }

  function NatToString(n: nat): (r: String)
    ensures r != [] && forall i | 0 <= i < |r| :: IsDigit(r[i])
  {
    if n < 10 then [('0' as int + n) as char]
    else NatToString(n / 10) + [('0' as int + n % 10) as char]
  }

  /** fmt's %d */
  function IntToString(n: int): String {
    if n < 0 then "-" + NatToString(-n) else NatToString(n)
  }

  lemma {:induction false} NatToStringValue(n: nat)
    ensures DecimalValue(NatToString(n)) == n
  {
    var r := NatToString(n);
    if n >= 10 {
      NatToStringValue(n / 10);
      assert r[..|r| - 1] == NatToString(n / 10);
    }
  }
}

/**
 * Leftmost, non-overlapping replacement driven by a recogniser: the shape of
 * Go's Regexp.ReplaceAllStringFunc (and ReplaceAllString) for patterns that
 * never match the empty string. A recogniser looks at the remaining suffix and
 * says whether a match starts at its first character; `atStart` is true only
 * for the whole text, which is where `\A` holds.
 */
module Scanning {
  import opened Wrappers
  import opened Text

  /** A match of `len` characters; groups[0] is the matched text, groups[k] the k-th capture ("" if unset). */
  datatype Match = Match(len: nat, groups: seq<String>)

  type Recogniser = (String, bool) -> Option<Match>

  /** `$k` in a replacement template: the k-th group, or "" when it did not participate. */
  function Group(gs: seq<String>, k: nat): String {
    if k < |gs| then gs[k] else ""
  }

  predicate MatchesHere(rec: Recogniser, s: String, atStart: bool) {
    var m := rec(s, atStart);
    m.Some? && 0 < m.value.len <= |s|
  }

  function ReplaceAllFunc(s: String, rec: Recogniser, f: seq<String> -> String, atStart: bool): String
    decreases |s|
  {
    if s == [] then []
    else if MatchesHere(rec, s, atStart) then
      var m := rec(s, atStart).value;
      f(m.groups) + ReplaceAllFunc(s[m.len..], rec, f, false)
    else [s[0]] + ReplaceAllFunc(s[1..], rec, f, false)
  }

  /** Replace every match in the whole text. */
  function ReplaceAllIn(s: String, rec: Recogniser, f: seq<String> -> String): String {
    ReplaceAllFunc(s, rec, f, true)
  }

  /** No match starting inside `s` (after its first position, or at it too). */
  predicate NoMatchIn(rec: Recogniser, s: String, atStart: bool) {
    forall k | 0 <= k < |s| :: !MatchesHere(rec, s[k..], atStart && k == 0)
  }

  /** Text in which the recogniser never fires comes back unchanged. */
  lemma {:induction false} NoMatchUnchanged(s: String, rec: Recogniser, f: seq<String> -> String, atStart: bool)
    requires NoMatchIn(rec, s, atStart)
    ensures ReplaceAllFunc(s, rec, f, atStart) == s
    decreases |s|
  {
    if s != [] {
      assert s[0..] == s;
      forall k | 0 <= k < |s[1..]| ensures !MatchesHere(rec, s[1..][k..], false) {
        assert s[1..][k..] == s[k + 1..];
      }
      NoMatchUnchanged(s[1..], rec, f, false);
    }
  }

  /** A prefix in which no match starts is copied, and scanning resumes after it. */
  lemma {:induction false} SkipPrefix(x: String, y: String, rec: Recogniser, f: seq<String> -> String, atStart: bool)
    requires x != []
    requires forall k | 0 <= k < |x| :: !MatchesHere(rec, (x + y)[k..], atStart && k == 0)
    ensures ReplaceAllFunc(x + y, rec, f, atStart) == x + ReplaceAllFunc(y, rec, f, false)
    decreases |x|
  {
    assert (x + y)[0..] == x + y;
    assert (x + y)[1..] == x[1..] + y;
    if |x| > 1 {
      forall k | 0 <= k < |x[1..]| ensures !MatchesHere(rec, (x[1..] + y)[k..], false) {
        assert (x[1..] + y)[k..] == (x + y)[k + 1..];
      }
      SkipPrefix(x[1..], y, rec, f, false);
    }
  }

  /** The replacement gives back the text of each match. */
  ghost predicate CopiesMatches(rec: Recogniser, f: seq<String> -> String) {
    forall t: String, b: bool | MatchesHere(rec, t, b) :: f(rec(t, b).value.groups) == t[..rec(t, b).value.len]
  }

  /** A replacement that copies every match leaves the text unchanged. */
  lemma {:induction false} CopyingUnchanged(s: String, rec: Recogniser, f: seq<String> -> String, atStart: bool)
    requires CopiesMatches(rec, f)
    ensures ReplaceAllFunc(s, rec, f, atStart) == s
    decreases |s|
  {
    if s != [] {
      if MatchesHere(rec, s, atStart) {
        var n := rec(s, atStart).value.len;
        CopyingUnchanged(s[n..], rec, f, false);
        assert s[..n] + s[n..] == s;
      } else {
        CopyingUnchanged(s[1..], rec, f, false);
        assert [s[0]] + s[1..] == s;
      }
    }
  }

  /** A match at the front is replaced, and scanning resumes after it. */
  lemma MatchAtFront(x: String, y: String, rec: Recogniser, f: seq<String> -> String, atStart: bool)
    requires x != []
    requires rec(x + y, atStart).Some? && rec(x + y, atStart).value.len == |x|
    ensures ReplaceAllFunc(x + y, rec, f, atStart) == f(rec(x + y, atStart).value.groups) + ReplaceAllFunc(y, rec, f, false)
  {
    assert (x + y)[|x|..] == y;
  }

  /** A match covering the whole text is replaced by the callback's value alone. */
  lemma MatchWhole(s: String, rec: Recogniser, f: seq<String> -> String, atStart: bool)
    requires s != []
    requires rec(s, atStart).Some? && rec(s, atStart).value.len == |s|
    ensures ReplaceAllFunc(s, rec, f, atStart) == f(rec(s, atStart).value.groups)
  {
    assert s + [] == s;
    MatchAtFront(s, [], rec, f, atStart);
    assert ReplaceAllFunc([], rec, f, false) == [];
  }
}
