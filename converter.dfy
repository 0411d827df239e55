/**
 * The conversion pipeline of markdown/defaultConverter.go: the order in
 * which the passes run over text outside code blocks, the routing of text
 * around code blocks, and the two entry points (ticket text and wiki text).
 */
module Converter {
  import opened Wrappers
  import opened Text
  import opened Scanning
  import opened Toc
  import opened CodeBlocks
  import opened Links

  /**
   * The passes whose definitions are not part of this model (end-of-line
   * normalisation, anchors, escapes, lists, definition lists, headings,
   * font styles, block quotes, tables, paragraphs), as string functions.
   */
  datatype Passes = Passes(
    eol: String -> String,
    anchors: String -> String,
    escapes: String -> String,
    lists: String -> String,
    definitionLists: String -> String,
    headings: String -> String,
    fontStyles: String -> String,
    blockQuotes: String -> String,
    tables: String -> String,
    paragraphs: String -> String)

  /** The DefaultConverter: its two accessors and the passes it applies. */
  datatype Converter = Converter(trac: TracAccessor, gitea: GiteaAccessor, passes: Passes)

  /** One pass over text outside code blocks. */
  datatype Stage =
    | TocRemoval | LinkConversion | Anchors | Escapes | Lists | DefinitionLists | Headings
    | LinkDisguise | FontStyles | LinkUndisguise | BlockQuotes | Tables | Paragraphs

  /** The order of convertNonCodeBlockText. */
  const NonCodeStages: seq<Stage> := [
    TocRemoval, LinkConversion, Anchors, Escapes, Lists, DefinitionLists, Headings,
    LinkDisguise, FontStyles, LinkUndisguise, BlockQuotes, Tables, Paragraphs]

  function ApplyStage(c: Converter, ticketID: int, wikiPage: String, st: Stage, s: String): String {
    match st
    case TocRemoval => RemoveTOC(s)
    case LinkConversion => ConvertLinks(c.gitea, c.trac, ticketID, wikiPage, s)
    case Anchors => c.passes.anchors(s)
    case Escapes => c.passes.escapes(s)
    case Lists => c.passes.lists(s)
    case DefinitionLists => c.passes.definitionLists(s)
    case Headings => c.passes.headings(s)
    case LinkDisguise => DisguiseLinks(s)
    case FontStyles => c.passes.fontStyles(s)
    case LinkUndisguise => UndisguiseLinks(s)
    case BlockQuotes => c.passes.blockQuotes(s)
    case Tables => c.passes.tables(s)
    case Paragraphs => c.passes.paragraphs(s)
  }

  /** The stages applied one after the other, the first one first. */
  function ApplyStages(c: Converter, ticketID: int, wikiPage: String, stages: seq<Stage>, s: String): String
    decreases |stages|
  {
    if stages == [] then s
    else ApplyStages(c, ticketID, wikiPage, stages[1..], ApplyStage(c, ticketID, wikiPage, stages[0], s))
  }

  /** convertNonCodeBlockText */
  function ConvertNonCodeBlockText(c: Converter, ticketID: int, wikiPage: String, s: String): String {
    ApplyStages(c, ticketID, wikiPage, NonCodeStages, s)
  }

  function NonCodeConversion(c: Converter, ticketID: int, wikiPage: String): String -> String {
    s => ConvertNonCodeBlockText(c, ticketID, wikiPage, s)
  }

  /**
   * convert: normalise line ends, disguise code blocks, convert the text
   * outside them, then turn the disguised markers into Markdown fences.
   */
  function Convert(c: Converter, ticketID: int, wikiPage: String, s: String): String {
    var disguised := Parse(c.passes.eol(s), []).out;
    Undisguise(ConvertNonCodeBlocks(disguised, NonCodeConversion(c, ticketID, wikiPage)))
  }

  /** Text of a ticket: there is no wiki page. */
  function TicketConvert(c: Converter, ticketID: int, s: String): String {
    Convert(c, ticketID, "", s)
  }

  /** Text of a wiki page: there is no ticket. */
  function WikiConvert(c: Converter, wikiPage: String, s: String): String {
    Convert(c, TracNullID, wikiPage, s)
  }

  // ---------------------------------------------------------------------
  // The order of the passes.

  /** Where each stage is meant to run. */
  function Position(st: Stage): nat {
    match st
    case TocRemoval => 0
    case LinkConversion => 1
    case Anchors => 2
    case Escapes => 3
    case Lists => 4
    case DefinitionLists => 5
    case Headings => 6
    case LinkDisguise => 7
    case FontStyles => 8
    case LinkUndisguise => 9
    case BlockQuotes => 10
    case Tables => 11
    case Paragraphs => 12
  }

  /**
   * Every stage runs exactly once, at its position: the `[[TOC]]` marker is
   * removed first; links are converted before anchors, lists and headings;
   * font styles run directly after links are disguised and directly before
   * they are restored; paragraphs come last.
   */
  lemma NonCodeStageOrder()
    ensures forall i | 0 <= i < |NonCodeStages| :: Position(NonCodeStages[i]) == i
    ensures forall st: Stage :: Position(st) < |NonCodeStages| && NonCodeStages[Position(st)] == st
    ensures Position(TocRemoval) == 0 && Position(Paragraphs) == |NonCodeStages| - 1
    ensures Position(LinkConversion) < Position(Anchors) && Position(LinkConversion) < Position(Lists)
    ensures Position(LinkConversion) < Position(Headings)
    ensures Position(FontStyles) == Position(LinkDisguise) + 1 && Position(LinkUndisguise) == Position(FontStyles) + 1
  {
    StagesAtPositions();
    forall st: Stage ensures Position(st) < |NonCodeStages| && NonCodeStages[Position(st)] == st {
      StageAtPosition(st);
    }
  }

  lemma StagesAtPositions()
    ensures forall i | 0 <= i < |NonCodeStages| :: Position(NonCodeStages[i]) == i
  {
  }

  lemma StageAtPosition(st: Stage)
    ensures Position(st) < |NonCodeStages| && NonCodeStages[Position(st)] == st
  {
  }

  // ---------------------------------------------------------------------
  // Text with nothing to convert.

  /** Every pass not part of this model leaves text as it is. */
  ghost predicate Transparent(p: Passes) {
    (forall x :: p.eol(x) == x) && (forall x :: p.anchors(x) == x) && (forall x :: p.escapes(x) == x) &&
    (forall x :: p.lists(x) == x) && (forall x :: p.definitionLists(x) == x) && (forall x :: p.headings(x) == x) &&
    (forall x :: p.fontStyles(x) == x) && (forall x :: p.blockQuotes(x) == x) && (forall x :: p.tables(x) == x) &&
    (forall x :: p.paragraphs(x) == x)
  }

  /** A character that a text does not hold cannot be part of a word occurring in it. */
  lemma LinkFreeNoOccurrence(s: String, w: String, j: nat)
    requires LinkFree(s) && j < |w| && LinkChar(w[j])
    ensures !Occurs(s, w)
  {
    forall i: nat | i <= |s| ensures !StartsAt(s, i, w) {
      StartsAtPrefix(s, i, w);
      LinkFreeSuffix(s, i);
      NoLinkPrefix(s[i..], w, j);
    }
  }

  /** Each stage leaves link-free text alone when the passes not modelled do. */
  lemma StageLinkFree(c: Converter, ticketID: int, wikiPage: String, st: Stage, s: String)
    requires Transparent(c.passes) && LinkFree(s)
    ensures ApplyStage(c, ticketID, wikiPage, st, s) == s
  {
    match st
    case TocRemoval =>
      LinkFreeNoOccurrence(s, TocMarker + "\n", 0);
      RemoveTOCWithoutMarker(s);
    case LinkConversion =>
      ConvertLinksLinkFree(c.gitea, c.trac, ticketID, wikiPage, s);
    case LinkDisguise =>
      DisguiseLinkFree(s);
    case LinkUndisguise =>
      UndisguiseLinkFree(s);
    case _ =>
  }

  /** Disguising only rewrites `http://` and `https://`, which need a `:`. */
  lemma DisguiseLinkFree(s: String)
    requires LinkFree(s)
    ensures DisguiseLinks(s) == s
  {
    forall k | 0 <= k < |s| ensures !MatchesHere(DisguiseRec, s[k..], k == 0) {
      LinkFreeSuffix(s, k);
      NoLinkPrefix(s[k..], "http://", 4);
      NoLinkPrefix(s[k..], "https://", 5);
    }
    NoMatchUnchanged(s, DisguiseRec, DisguiseReplacer, true);
  }

  lemma UndisguiseLinkFree(s: String)
    requires LinkFree(s)
    ensures UndisguiseLinks(s) == s
  {
    forall k | 0 <= k < |s| ensures !MatchesHere(UndisguiseRec, s[k..], k == 0) {
      LinkFreeSuffix(s, k);
      NoLinkPrefix(s[k..], "http:@@", 4);
      NoLinkPrefix(s[k..], "https:@@", 5);
    }
    NoMatchUnchanged(s, UndisguiseRec, UndisguiseReplacer, true);
  }

  lemma {:induction false} StagesLinkFree(c: Converter, ticketID: int, wikiPage: String, stages: seq<Stage>, s: String)
    requires Transparent(c.passes) && LinkFree(s)
    ensures ApplyStages(c, ticketID, wikiPage, stages, s) == s
    decreases |stages|
  {
    if stages != [] {
      StageLinkFree(c, ticketID, wikiPage, stages[0], s);
      StagesLinkFree(c, ticketID, wikiPage, stages[1..], s);
    }
  }

  /**
   * With the passes not modelled taken as the identity, text holding no
   * link syntax comes out of the non-code conversion exactly as it went in.
   */
  lemma ConvertNonCodeBlockTextLinkFree(c: Converter, ticketID: int, wikiPage: String, s: String)
    requires Transparent(c.passes) && LinkFree(s)
    ensures ConvertNonCodeBlockText(c, ticketID, wikiPage, s) == s
  {
    StagesLinkFree(c, ticketID, wikiPage, NonCodeStages, s);
  }

  // ---------------------------------------------------------------------
  // Code blocks are left alone.

  lemma LinkFreeAppend(a: String, b: String)
    requires LinkFree(a) && LinkFree(b)
    ensures LinkFree(a + b)
  {
    assert forall i | |a| <= i < |a + b| :: (a + b)[i] == b[i - |a|];
  }

  /** A line without `{{{` or `}}}`, newline included, may precede a boundary. */
  lemma BoundaryFreeLine(a: String, ch: char)
    requires !HasBoundary(a) && ch != '\n'
    ensures NoBoundaryBefore(a + "\n", ch)
  {
    var b := a + "\n";
    forall i: nat | i < |b| ensures !IsBoundaryAt(b, i) {
      if i + 3 <= |a| {
        assert b[i] == a[i] && b[i + 1] == a[i + 1] && b[i + 2] == a[i + 2];
        assert !IsBoundaryAt(a, i);
      }
    }
  }

  /** A newline in front of text without `{{{` or `}}}` adds none. */
  lemma NewlineBoundaryFree(z: String)
    requires !HasBoundary(z)
    ensures !HasBoundary("\n" + z)
  {
    var t := "\n" + z;
    forall i: nat | i < |t| ensures !IsBoundaryAt(t, i) {
      if i > 0 && i + 3 <= |t| {
        assert t[i] == z[i - 1] && t[i + 1] == z[i] && t[i + 2] == z[i + 1];
        assert !IsBoundaryAt(z, i - 1);
      }
    }
  }

  /** The code-block parse of text holding one plain block on lines of its own. */
  lemma ParseOneBlock(a: String, x: String, z: String)
    requires !HasBoundary(a) && !HasBoundary(z)
    requires NoBoundaryBefore(x, '}') && NoDirectiveAhead(x)
    ensures Parse(a + ("\n{{{" + (x + ("}}}\n" + z))), []).out
      == a + ("\n" + (OpenMarker + (x + (CloseMarker + ("\n" + z)))))
  {
    var b := a + "\n";
    var tail := "\n" + z;
    BlockAssoc(a, x, z);
    BoundaryFreeLine(a, '{');
    NewlineBoundaryFree(z);
    ParseWithoutBoundary(tail, []);
    ParsePlainBlock(b, x, tail, []);
    Reassociate(a, "\n", OpenMarker, x, CloseMarker, tail);
  }

  lemma BlockAssoc(a: String, x: String, z: String)
    ensures a + ("\n{{{" + (x + ("}}}\n" + z))) == (a + "\n") + ("{{{" + (x + ("}}}" + ("\n" + z))))
  {
  }

  lemma Reassociate4(p1: String, p2: String, p3: String, p4: String)
    ensures p1 + p2 + p3 + p4 == p1 + (p2 + (p3 + p4))
  {
  }

  lemma Reassociate(p1: String, p2: String, p3: String, p4: String, p5: String, p6: String)
    ensures p1 + p2 + p3 + p4 + p5 + p6 == p1 + (p2 + (p3 + (p4 + (p5 + p6))))
  {
  }

  /** Each segment around the disguised block holds no link syntax. */
  lemma SegmentsLinkFree(a: String, z: String)
    requires LinkFree(a) && LinkFree(z)
    ensures LinkFree(a + "\n" + OpenMarker) && LinkFree(CloseMarker + ("\n" + z))
  {
    assert LinkFree("\n" + OpenMarker);
    LinkFreeAppend(a, "\n" + OpenMarker);
    assert a + "\n" + OpenMarker == a + ("\n" + OpenMarker);
    assert LinkFree(CloseMarker + "\n");
    LinkFreeAppend(CloseMarker + "\n", z);
    assert CloseMarker + "\n" + z == CloseMarker + ("\n" + z);
  }

  /**
   * The body of a `{{{…}}}` block that spans lines comes out of the whole
   * conversion exactly as it went in, between triple-backtick fences, even
   * when it holds link syntax; here the text around it holds none and the
   * passes not modelled are taken as the identity.
   */
  lemma ConvertKeepsCodeBlock(c: Converter, ticketID: int, wikiPage: String, a: String, x: String, z: String)
    requires Transparent(c.passes)
    requires LinkFree(a) && MarkerFree(a) && !HasBoundary(a)
    requires LinkFree(z) && MarkerFree(z) && !HasBoundary(z)
    requires NoBoundaryBefore(x, '}') && NoDirectiveAhead(x) && OnlyOwnMarkers(x) && !NoNewline(x)
    ensures Convert(c, ticketID, wikiPage, a + ("\n{{{" + (x + ("}}}\n" + z))))
      == a + ("\n```" + (x + ("```\n" + z)))
  {
    var s := a + ("\n{{{" + (x + ("}}}\n" + z)));
    assert c.passes.eol(s) == s;
    ParseOneBlock(a, x, z);
    RouteOneBlock(c, ticketID, wikiPage, a, x, z);
    UndisguiseOneBlock(a, x, z);
  }

  /** Disguised text: the parts around the block are converted, here to themselves. */
  lemma RouteOneBlock(c: Converter, ticketID: int, wikiPage: String, a: String, x: String, z: String)
    requires Transparent(c.passes)
    requires LinkFree(a) && MarkerFree(a) && LinkFree(z) && MarkerFree(z) && NoInnerClose(x)
    ensures var d := a + ("\n" + (OpenMarker + (x + (CloseMarker + ("\n" + z)))));
      ConvertNonCodeBlocks(d, NonCodeConversion(c, ticketID, wikiPage)) == d
  {
    var f := NonCodeConversion(c, ticketID, wikiPage);
    var seg1 := a + "\n" + OpenMarker;
    var seg2 := CloseMarker + ("\n" + z);
    ConvertNonCodeKeepsFenceBody(a, x, z, f);
    SegmentsLinkFree(a, z);
    ConvertNonCodeBlockTextLinkFree(c, ticketID, wikiPage, seg1);
    ConvertNonCodeBlockTextLinkFree(c, ticketID, wikiPage, seg2);
    Reassociate4(a, "\n", OpenMarker, x + seg2);
  }

  lemma UndisguiseOneBlock(a: String, x: String, z: String)
    requires MarkerFree(a) && MarkerFree(z) && OnlyOwnMarkers(x) && !NoNewline(x)
    ensures Undisguise(a + ("\n" + (OpenMarker + (x + (CloseMarker + ("\n" + z))))))
      == a + ("\n```" + (x + ("```\n" + z)))
  {
    MarkerFreeLine(a);
    NewlineMarkerFree(z);
    UndisguiseFence(a + "\n", x, "\n" + z);
    LineAssoc(a, OpenMarker + (x + (CloseMarker + ("\n" + z))));
    FenceLineAssoc(a, x, z);
  }

  lemma NewlineMarkerFree(z: String)
    requires MarkerFree(z)
    ensures MarkerFree("\n" + z)
  {
    JoinAt([], '\n', z);
    assert [] + (['\n'] + z) == "\n" + z;
  }

  lemma LineAssoc(a: String, t: String)
    ensures (a + "\n") + t == a + ("\n" + t)
  {
  }

  lemma FenceLineAssoc(a: String, x: String, z: String)
    ensures (a + "\n") + ("```" + (x + ("```" + ("\n" + z)))) == a + ("\n```" + (x + ("```\n" + z)))
  {
  }

  /** Both entry points keep a code block's body, whatever the ticket or page. */
  lemma EntryPointsKeepCodeBlock(c: Converter, ticketID: int, wikiPage: String, a: String, x: String, z: String)
    requires Transparent(c.passes)
    requires LinkFree(a) && MarkerFree(a) && !HasBoundary(a)
    requires LinkFree(z) && MarkerFree(z) && !HasBoundary(z)
    requires NoBoundaryBefore(x, '}') && NoDirectiveAhead(x) && OnlyOwnMarkers(x) && !NoNewline(x)
    ensures TicketConvert(c, ticketID, a + ("\n{{{" + (x + ("}}}\n" + z)))) == a + ("\n```" + (x + ("```\n" + z)))
    ensures WikiConvert(c, wikiPage, a + ("\n{{{" + (x + ("}}}\n" + z)))) == a + ("\n```" + (x + ("```\n" + z)))
  {
    ConvertKeepsCodeBlock(c, ticketID, "", a, x, z);
    ConvertKeepsCodeBlock(c, TracNullID, wikiPage, a, x, z);
  }

  // ---------------------------------------------------------------------
  // Whatever the input.

  /** Whatever the input, no disguise marker is left in the converted text. */
  lemma ConvertLeavesNoMarker(c: Converter, ticketID: int, wikiPage: String, s: String)
    ensures MarkerFree(Convert(c, ticketID, wikiPage, s))
  {
    var disguised := Parse(c.passes.eol(s), []).out;
    UndisguiseLeavesNoMarker(ConvertNonCodeBlocks(disguised, NonCodeConversion(c, ticketID, wikiPage)));
  }

  /**
   * Text without any `{{{` or `}}}` in which no line after the first starts
   * with `{@{@{` goes through the non-code conversion in one piece.
   */
  lemma ConvertWithoutCodeBlocks(c: Converter, ticketID: int, wikiPage: String, s: String)
    requires c.passes.eol(s) != [] && !HasBoundary(c.passes.eol(s)) && NoLineOpen(c.passes.eol(s))
    ensures Convert(c, ticketID, wikiPage, s) == Undisguise(ConvertNonCodeBlockText(c, ticketID, wikiPage, c.passes.eol(s)))
  {
    var e := c.passes.eol(s);
    var f := NonCodeConversion(c, ticketID, wikiPage);
    ParseWithoutBoundary(e, []);
    ConvertNonCodeWithoutFences(e, f);
    assert f(e) == ConvertNonCodeBlockText(c, ticketID, wikiPage, e);
  }
}
