/**
 * Keyword collection of the Trac accessor (accessor/trac/keywords.go): the
 * raw `keywords` column of every ticket is split on commas and white space,
 * the tokens are collected without duplicates in order of first
 * occurrence, and each one is handed to a handler as a label.
 */
module Keywords {
  import opened Wrappers
  import opened Text

  /** A Trac label: a name and a description. */
  datatype Label = Label(name: String, description: String)

  /** Replacing every `c` by a different character leaves no `c`. */
  lemma {:induction false} ReplaceAllRemoves(s: String, c: char, d: char)
    requires c != d
    ensures c !in ReplaceAll(s, [c], [d])
    decreases |s|
  {
    if |s| >= 1 {
      if s[..1] == [c] {
        ReplaceAllRemoves(s[1..], c, d);
      } else {
        ReplaceAllRemoves(s[1..], c, d);
        assert s[0] != c by { assert s[..1][0] == s[0]; }
      }
    }
  }

  /** The fields of a text are made of its characters. */
  lemma {:induction false} FieldsAvoid(s: String, c: char)
    requires c !in s
    ensures forall k | 0 <= k < |Fields(s)| :: c !in Fields(s)[k]
    decreases |s|
  {
    var lead := Run(s, IsUnicodeSpace);
    if lead < |s| {
      var rest := s[lead..];
      var n := Run(rest, NotUnicodeSpace);
      DropAvoids(s, lead, c);
      TakeAvoids(rest, n, c);
      DropAvoids(rest, n, c);
      FieldsAvoid(rest[n..], c);
    }
  }

  lemma DropAvoids(s: String, i: nat, c: char)
    requires c !in s && i <= |s|
    ensures c !in s[i..]
  {
  }

  lemma TakeAvoids(s: String, j: nat, c: char)
    requires c !in s && j <= |s|
    ensures c !in s[..j]
  {
  }

  /** The keywords of one row: commas count as white space. */
  function RowKeywords(raw: String): seq<String> {
    Fields(ReplaceAll(raw, ",", " "))
  }

  /** Every keyword of a row is non-empty and holds no comma and no white space. */
  lemma RowKeywordsShape(raw: String)
    ensures forall k | 0 <= k < |RowKeywords(raw)| :: var w := RowKeywords(raw)[k];
      w != [] && ',' !in w && forall j | 0 <= j < |w| :: !IsUnicodeSpace(w[j])
  {
    ReplaceAllRemoves(raw, ',', ' ');
    FieldsAvoid(ReplaceAll(raw, ",", " "), ',');
  }

  /** The keywords of all rows, row after row. */
  function AllKeywords(rows: seq<String>): seq<String> {
    if rows == [] then [] else AllKeywords(rows[..|rows| - 1]) + RowKeywords(rows[|rows| - 1])
  }

  /** A keyword of any row is among the keywords of all rows. */
  lemma {:induction false} KeywordOfRow(rows: seq<String>, r: nat, w: String)
    requires r < |rows| && w in RowKeywords(rows[r])
    ensures w in AllKeywords(rows)
    decreases |rows|
  {
    var n := |rows| - 1;
    if r < n {
      assert rows[..n][r] == rows[r];
      KeywordOfRow(rows[..n], r, w);
      InAppend(AllKeywords(rows[..n]), RowKeywords(rows[n]), w);
    } else {
      InAppend(AllKeywords(rows[..n]), RowKeywords(rows[n]), w);
    }
  }

  lemma InAppend(a: seq<String>, b: seq<String>, w: String)
    ensures w in a + b <==> w in a || w in b
  {
  }

  /** Each of the keywords of all rows comes from some row. */
  lemma {:induction false} RowOfKeyword(rows: seq<String>, w: String) returns (r: nat)
    requires w in AllKeywords(rows)
    ensures r < |rows| && w in RowKeywords(rows[r])
    decreases |rows|
  {
    var n := |rows| - 1;
    if w in RowKeywords(rows[n]) {
      r := n;
    } else {
      r := RowOfKeyword(rows[..n], w);
      assert rows[..n][r] == rows[r];
    }
  }

  /** Each value of `xs` once, where it first occurs. */
  function FirstOccurrences(xs: seq<String>): seq<String> {
    if xs == [] then []
    else
      var p := FirstOccurrences(xs[..|xs| - 1]);
      if xs[|xs| - 1] in p then p else p + [xs[|xs| - 1]]
  }

  predicate NoDuplicates(xs: seq<String>) {
    forall i, j | 0 <= i < j < |xs| :: xs[i] != xs[j]
  }

  /** Index of the first occurrence of `x` in `xs`. */
  function FirstIndex(xs: seq<String>, x: String): (r: nat)
    requires x in xs
    ensures r < |xs| && xs[r] == x && x !in xs[..r]
  {
    if xs[0] == x then 0
    else
      var r := 1 + FirstIndex(xs[1..], x);
      assert xs[..r] == [xs[0]] + xs[1..][..r - 1];
      r
  }

  lemma FirstIndexPrefix(xs: seq<String>, n: nat, x: String)
    requires n <= |xs| && x in xs[..n]
    ensures x in xs && FirstIndex(xs, x) == FirstIndex(xs[..n], x)
  {
    var i := FirstIndex(xs[..n], x);
    assert xs[..n][..i] == xs[..i];
    var j := FirstIndex(xs, x);
    assert xs[i] == x;
    assert forall k | 0 <= k < i :: xs[..i][k] == xs[k];
    assert forall k | 0 <= k < j :: xs[..j][k] == xs[k];
  }

  /** The collected keywords hold no duplicates. */
  lemma {:induction false} FirstOccurrencesNoDuplicates(xs: seq<String>)
    ensures NoDuplicates(FirstOccurrences(xs))
    decreases |xs|
  {
    if xs != [] {
      FirstOccurrencesNoDuplicates(xs[..|xs| - 1]);
    }
  }

  /** Exactly the values of `xs` are collected. */
  lemma {:induction false} FirstOccurrencesSameValues(xs: seq<String>)
    ensures forall x :: x in FirstOccurrences(xs) <==> x in xs
    decreases |xs|
  {
    if xs != [] {
      var init := xs[..|xs| - 1];
      FirstOccurrencesSameValues(init);
      assert xs == init + [xs[|xs| - 1]];
    }
  }

  /** The collected values are ordered by where each first occurs. */
  lemma {:induction false} FirstOccurrencesOrder(xs: seq<String>)
    ensures forall x | x in FirstOccurrences(xs) :: x in xs
    ensures forall i, j | 0 <= i < j < |FirstOccurrences(xs)| ::
      FirstIndex(xs, FirstOccurrences(xs)[i]) < FirstIndex(xs, FirstOccurrences(xs)[j])
    decreases |xs|
  {
    FirstOccurrencesSameValues(xs);
    if xs != [] {
      var n := |xs| - 1;
      var init := xs[..n];
      var p := FirstOccurrences(init);
      FirstOccurrencesOrder(init);
      FirstOccurrencesSameValues(init);
      forall y | y in p ensures FirstIndex(xs, y) == FirstIndex(init, y) < n {
        FirstIndexPrefix(xs, n, y);
      }
      if xs[n] !in p {
        OrderOfNewValue(xs, p);
      }
    }
  }

  /** A value not collected before is collected last and occurs first after all the others. */
  lemma OrderOfNewValue(xs: seq<String>, p: seq<String>)
    requires xs != [] && p == FirstOccurrences(xs[..|xs| - 1]) && xs[|xs| - 1] !in p
    requires forall x :: x in p <==> x in xs[..|xs| - 1]
    requires forall y | y in p :: y in xs && FirstIndex(xs, y) < |xs| - 1
    requires forall i, j | 0 <= i < j < |p| :: p[i] in xs && p[j] in xs && FirstIndex(xs, p[i]) < FirstIndex(xs, p[j])
    ensures FirstOccurrences(xs) == p + [xs[|xs| - 1]]
    ensures forall x | x in FirstOccurrences(xs) :: x in xs
    ensures forall i, j | 0 <= i < j < |FirstOccurrences(xs)| ::
      FirstIndex(xs, FirstOccurrences(xs)[i]) < FirstIndex(xs, FirstOccurrences(xs)[j])
  {
    var n := |xs| - 1;
    var q := p + [xs[n]];
    assert FirstOccurrences(xs) == q;
    assert forall k | 0 <= k < n :: xs[k] == xs[..n][k];
    assert forall k | 0 <= k < n :: xs[k] != xs[n];
    assert FirstIndex(xs, xs[n]) == n;
    forall i, j | 0 <= i < j < |q| ensures FirstIndex(xs, q[i]) < FirstIndex(xs, q[j]) {
      assert q[i] == p[i] && q[i] in p;
      if j < |p| {
        assert q[j] == p[j];
      }
    }
  }

  lemma AppendNext(a: seq<String>, b: seq<String>, j: nat)
    requires j < |b|
    ensures a + b[..j + 1] == (a + b[..j]) + [b[j]]
  {
    assert b[..j + 1] == b[..j] + [b[j]];
  }

  lemma AllKeywordsStep(rows: seq<String>, i: nat)
    requires i < |rows|
    ensures AllKeywords(rows[..i + 1]) == AllKeywords(rows[..i]) + RowKeywords(rows[i])
  {
    assert rows[..i + 1][..i] == rows[..i];
  }

  lemma FirstOccurrencesStep(xs: seq<String>, x: String)
    ensures FirstOccurrences(xs + [x]) == if x in FirstOccurrences(xs) then FirstOccurrences(xs) else FirstOccurrences(xs) + [x]
  {
    assert (xs + [x])[..|xs|] == xs;
  }

  /**
   * The row loop of GetKeywords: every token of every row, each kept only
   * the first time it is seen.
   */
  method CollectKeywords(rows: seq<String>) returns (keywords: seq<String>)
    ensures keywords == FirstOccurrences(AllKeywords(rows))
    ensures NoDuplicates(keywords)
    ensures forall w :: w in keywords <==> w in AllKeywords(rows)
  {
    keywords := [];
    var i := 0;
    while i < |rows|
      invariant 0 <= i <= |rows|
      invariant keywords == FirstOccurrences(AllKeywords(rows[..i]))
    {
      var rowKeywords := RowKeywords(rows[i]);
      ghost var before := AllKeywords(rows[..i]);
      var j := 0;
      assert before + rowKeywords[..j] == before;
      while j < |rowKeywords|
        invariant 0 <= j <= |rowKeywords|
        invariant keywords == FirstOccurrences(before + rowKeywords[..j])
      {
        ghost var seen := before + rowKeywords[..j];
        FirstOccurrencesStep(seen, rowKeywords[j]);
        AppendNext(before, rowKeywords, j);
        if rowKeywords[j] !in keywords {
          keywords := keywords + [rowKeywords[j]];
        }
        j := j + 1;
      }
      assert rowKeywords[..j] == rowKeywords;
      AllKeywordsStep(rows, i);
      i := i + 1;
    }
    assert rows[..i] == rows;
    FirstOccurrencesNoDuplicates(AllKeywords(rows));
    FirstOccurrencesSameValues(AllKeywords(rows));
  }

  /**
   * The handler loop of GetKeywords: each keyword in turn, as a label with an
   * empty description; the first error stops the loop and is returned.
   * `handler` gives the handler's outcome for a label.
   */
  method DeliverKeywords<E>(keywords: seq<String>, handler: Label -> Option<E>) returns (delivered: seq<Label>, err: Option<E>)
    ensures |delivered| <= |keywords|
    ensures forall i | 0 <= i < |delivered| :: delivered[i] == Label(keywords[i], "")
    ensures forall i | 0 <= i < |delivered| - 1 :: handler(delivered[i]).None?
    ensures err.None? ==> |delivered| == |keywords| && forall i | 0 <= i < |delivered| :: handler(delivered[i]).None?
    ensures err.Some? ==> delivered != [] && err == handler(delivered[|delivered| - 1])
  {
    delivered := [];
    var i := 0;
    while i < |keywords|
      invariant 0 <= i <= |keywords| && |delivered| == i
      invariant forall k | 0 <= k < i :: delivered[k] == Label(keywords[k], "")
      invariant forall k | 0 <= k < i :: handler(delivered[k]).None?
    {
      var tracKeyword := Label(keywords[i], "");
      delivered := delivered + [tracKeyword];
      var outcome := handler(tracKeyword);
      if outcome.Some? {
        return delivered, outcome;
      }
      i := i + 1;
    }
    return delivered, None;
  }

  /** GetKeywords over the rows the query returned. */
  method GetKeywords<E>(rows: seq<String>, handler: Label -> Option<E>) returns (delivered: seq<Label>, err: Option<E>)
    ensures |delivered| <= |FirstOccurrences(AllKeywords(rows))|
    ensures forall i | 0 <= i < |delivered| :: delivered[i] == Label(FirstOccurrences(AllKeywords(rows))[i], "")
    ensures forall i | 0 <= i < |delivered| - 1 :: handler(delivered[i]).None?
    ensures err.None? ==>
      |delivered| == |FirstOccurrences(AllKeywords(rows))| && forall i | 0 <= i < |delivered| :: handler(delivered[i]).None?
    ensures err.Some? ==> delivered != [] && err == handler(delivered[|delivered| - 1])
  {
    var keywords := CollectKeywords(rows);
    delivered, err := DeliverKeywords(keywords, handler);
  }
}
