/**
 * Removal of Trac's `[[TOC]]` macro (markdown/toc.go): every `[[TOC]]`
 * immediately followed by one or more newlines is deleted together with
 * those newlines.
 */
module Toc {
  import opened Wrappers
  import opened Text
  import opened Scanning

  const TocMarker: String := "[[TOC]]"

  function Newlines(n: nat): (r: String)
    ensures |r| == n && forall i | 0 <= i < n :: r[i] == '\n'
  {
    seq(n, _ => '\n')
  }

  /** The pattern `\[\[TOC\]\]\n+`: the marker, one newline, then every further newline. */
  function TocRec(s: String, atStart: bool): (r: Option<Match>)
    ensures r.Some? ==> HasPrefix(s, TocMarker + "\n") && 8 <= r.value.len <= |s|
    ensures r.Some? ==> forall i | 7 <= i < r.value.len :: s[i] == '\n'
    ensures r.Some? ==> r.value.len == |s| || s[r.value.len] != '\n'
  {
    if HasPrefix(s, TocMarker + "\n") then
      var n := Run(s[7..], c => c == '\n');
      Some(Match(7 + n, [s[..7 + n]]))
    else None
  }

  /** The replacement: the empty string. */
  function Erase(groups: seq<String>): String { "" }

  function RemoveTOC(s: String): String {
    ReplaceAllIn(s, TocRec, Erase)
  }

  lemma {:induction false} RemoveFromNotLonger(s: String, atStart: bool)
    ensures |ReplaceAllFunc(s, TocRec, Erase, atStart)| <= |s|
    decreases |s|
  {
    if s != [] {
      if MatchesHere(TocRec, s, atStart) {
        RemoveFromNotLonger(s[TocRec(s, atStart).value.len..], false);
      } else {
        RemoveFromNotLonger(s[1..], false);
      }
    }
  }

  /** The output is never longer than the input. */
  lemma RemoveTOCNotLonger(s: String)
    ensures |RemoveTOC(s)| <= |s|
  {
    RemoveFromNotLonger(s, true);
  }

  /** Text with no `[[TOC]]` directly followed by a newline comes back unchanged. */
  lemma RemoveTOCWithoutMarker(s: String)
    requires !Occurs(s, TocMarker + "\n")
    ensures RemoveTOC(s) == s
  {
    forall k | 0 <= k < |s| ensures !MatchesHere(TocRec, s[k..], k == 0) {
      StartsAtPrefix(s, k, TocMarker + "\n");
    }
    NoMatchUnchanged(s, TocRec, Erase, true);
  }

  /** The marker followed by exactly `n` newlines (and then no newline) is one whole match. */
  lemma TocMatchLength(n: nat, y: String, atStart: bool)
    requires n >= 1
    requires y == [] || y[0] != '\n'
    ensures MatchesHere(TocRec, TocMarker + Newlines(n) + y, atStart)
    ensures TocRec(TocMarker + Newlines(n) + y, atStart).value.len == 7 + n
  {
    var s := TocMarker + Newlines(n) + y;
    assert s[..8] == TocMarker + "\n";
    assert s[7..] == Newlines(n) + y;
    var r := Run(s[7..], c => c == '\n');
    assert forall i | 0 <= i < n :: s[7..][i] == '\n';
    assert |s[7..]| == n || s[7..][n] == y[0];
    assert r == n;
  }

  /** Scanning ignores whether it is at the start of the text: the pattern has no `\A`. */
  lemma RemoveTOCAnywhere(y: String)
    ensures ReplaceAllFunc(y, TocRec, Erase, false) == RemoveTOC(y)
  {
    if y != [] { assert TocRec(y, false) == TocRec(y, true); }
  }

  /** A marker with its newlines at the front of the scanned text is erased. */
  lemma TocAtFront(n: nat, y: String, atStart: bool)
    requires n >= 1
    requires y == [] || y[0] != '\n'
    ensures ReplaceAllFunc(TocMarker + Newlines(n) + y, TocRec, Erase, atStart) == RemoveTOC(y)
  {
    var m := TocMarker + Newlines(n);
    assert m + y == TocMarker + Newlines(n) + y;
    TocMatchLength(n, y, atStart);
    MatchAtFront(m, y, TocRec, Erase, atStart);
    RemoveTOCAnywhere(y);
  }

  /**
   * The first `[[TOC]]` followed by newlines is removed together with all of
   * those newlines; the text before it is kept and the text after it is
   * scanned in turn.
   */
  lemma RemoveTOCDropsMarker(x: String, n: nat, y: String)
    requires n >= 1
    requires y == [] || y[0] != '\n'
    requires forall k | 0 <= k < |x| :: !StartsAt(x + TocMarker + Newlines(n) + y, k, TocMarker + "\n")
    ensures RemoveTOC(x + TocMarker + Newlines(n) + y) == x + RemoveTOC(y)
  {
    var t := TocMarker + Newlines(n) + y;
    var s := x + TocMarker + Newlines(n) + y;
    assert s == x + t;
    if x == [] {
      assert s == t;
      TocAtFront(n, y, true);
    } else {
      forall k | 0 <= k < |x| ensures !MatchesHere(TocRec, (x + t)[k..], k == 0) {
        StartsAtPrefix(s, k, TocMarker + "\n");
      }
      SkipPrefix(x, t, TocRec, Erase, true);
      TocAtFront(n, y, false);
    }
  }

  /** A `[[TOC]]` that is not followed by a newline is left in place. */
  lemma RemoveTOCKeepsBareMarker(y: String)
    requires y == [] || y[0] != '\n'
    ensures RemoveTOC(TocMarker + y) == TocMarker + RemoveTOC(y)
  {
    var s := TocMarker + y;
    forall k | 0 <= k < |TocMarker| ensures !MatchesHere(TocRec, (TocMarker + y)[k..], k == 0) {
      assert !HasPrefix(s[k..], TocMarker + "\n") by {
        if k == 0 {
          assert y == [] || s[7] == y[0];
        } else if k == 1 {
          assert s[2] == 'T';
        } else {
          assert s[k] != '[';
        }
      }
    }
    SkipPrefix(TocMarker, y, TocRec, Erase, true);
    RemoveTOCAnywhere(y);
  }
}
