/**
 * Trac code blocks (markdown/codeBlock.go).
 *
 * Trac delimits blocks with `{{{` and `}}}`; an opening may carry a
 * `#!processor` directive. The parser walks the text from one boundary to
 * the next with a stack of open blocks. Code blocks are disguised as
 * `{@{@{` … `}@}@}` so that the later passes leave their bodies alone;
 * HTML-tag, comment and raw-html blocks become HTML straight away. At the
 * very end the disguise is turned into Markdown backticks.
 */
module CodeBlocks {
  import opened Wrappers
  import opened Text
  import opened Scanning

  const OpenMarker: String := "{@{@{"
  const CloseMarker: String := "}@}@}"

  /** The kind of block that is open; the source keeps it as a string ("", a tag, "comment", "html"). */
  datatype Frame = Plain | HtmlTag(tag: String) | Comment | RawHtml

  /** Languages Gitea highlights, in the order the source lists them. */
  const CodeLangs: seq<String> := ["c", "c++", "ps1", "php", "py", "sh", "cpp", "pl"]

  /** Block-style HTML tags, in the order the source tries them. */
  const HtmlTags: seq<String> := ["div", "td", "th", "tr", "table"]

  /** The source's langMap: `c++` is spelt `cpp` in Gitea. */
  function LangAlias(lang: String): String {
    if lang == "c++" then "cpp" else lang
  }

  /** `{{{` or `}}}` starts at index `i` (the pattern `{{{|}}}`). */
  predicate IsBoundaryAt(s: String, i: nat) {
    i + 3 <= |s| &&
    ((s[i] == '{' && s[i + 1] == '{' && s[i + 2] == '{') ||
     (s[i] == '}' && s[i + 1] == '}' && s[i + 2] == '}'))
  }

  predicate HasBoundary(s: String) {
    exists i: nat | i < |s| :: IsBoundaryAt(s, i)
  }

  /** Index of the leftmost boundary at or after `from`. */
  function NextBoundary(s: String, from: nat): (r: Option<nat>)
    decreases |s| - from
    ensures r.Some? ==> from <= r.value && r.value + 3 <= |s| && IsBoundaryAt(s, r.value)
    ensures r.Some? ==> forall i: nat | from <= i < r.value :: !IsBoundaryAt(s, i)
    ensures r.None? ==> forall i: nat | from <= i :: !IsBoundaryAt(s, i)
  {
    if from + 3 > |s| then None
    else if IsBoundaryAt(s, from) then Some(from)
    else NextBoundary(s, from + 1)
  }

  lemma NextBoundaryIsNone(s: String)
    requires !HasBoundary(s)
    ensures NextBoundary(s, 0).None?
  {
  }

  /**
   * No boundary starts in `b`, nor across its end into text that starts with
   * a triple of `ch` (its last character is not `ch`).
   */
  predicate NoBoundaryBefore(b: String, ch: char) {
    !HasBoundary(b) && (b == [] || b[|b| - 1] != ch)
  }

  /** In `b + t`, with a boundary at the front of `t`, the leftmost boundary is that one. */
  lemma NextBoundaryAfter(b: String, t: String)
    requires IsBoundaryAt(t, 0)
    requires NoBoundaryBefore(b, t[0])
    ensures NextBoundary(b + t, 0) == Some(|b|)
  {
    var s := b + t;
    assert IsBoundaryAt(s, |b|);
    forall j: nat | j < |b| ensures !IsBoundaryAt(s, j) {
      if j + 3 <= |b| {
        assert s[j] == b[j] && s[j + 1] == b[j + 1] && s[j + 2] == b[j + 2];
        assert !IsBoundaryAt(b, j);
      } else {
        assert s[|b| - 1] == b[|b| - 1] && s[|b|] == t[0];
      }
    }
  }

  // ---------------------------------------------------------------------
  // The `#!processor` directive after an opening.

  /** The processor name (empty if none) and the text left after the directive. */
  datatype Directive = Directive(proc: String, rest: String)

  predicate NotNewline(c: char) { c != '\n' }

  /**
   * The pattern `^\s*#!(\w[^\n]*)?` applied to the text after `{{{`:
   * whitespace (newlines included), `#!`, then a name running to the end of
   * the line when it starts with a word character. Without a match nothing is
   * consumed.
   */
  function ParseDirective(after: String): (d: Directive)
    ensures |d.rest| <= |after| && d.rest == after[|after| - |d.rest|..]
  {
    var w := Run(after, IsPerlSpace);
    if StartsAt(after, w, "#!") then DirectiveName(after[w + 2..]) else Directive("", after)
  }

  /** The optional name after `#!`: a word character and the rest of its line. */
  function DirectiveName(t: String): (d: Directive)
    ensures |d.rest| <= |t| && d.rest == t[|t| - |d.rest|..]
  {
    if t != [] && IsWordChar(t[0]) then
      var e := Run(t, NotNewline);
      Directive(t[..e], t[e..])
    else Directive("", t)
  }

  /**
   * A processor name starts with a word character and stops at the end of
   * its line; whatever the directive consumes includes `#!`.
   */
  lemma DirectiveShape(after: String)
    ensures var d := ParseDirective(after);
      d.proc != [] ==>
        IsWordChar(d.proc[0]) && (forall i | 0 <= i < |d.proc| :: d.proc[i] != '\n') && (d.rest == [] || d.rest[0] == '\n')
    ensures var d := ParseDirective(after);
      d.rest != after ==> |d.rest| + 2 <= |after|
  {
  }

  /** An opening followed by spaces or newlines, `#!`, a name and a newline. */
  lemma DirectiveLine(ws: String, p: String, body: String)
    requires forall i | 0 <= i < |ws| :: IsPerlSpace(ws[i])
    requires p != [] && IsWordChar(p[0]) && forall i | 0 <= i < |p| :: p[i] != '\n'
    ensures ParseDirective(ws + "#!" + p + "\n" + body) == Directive(p, "\n" + body)
  {
    var nb := "\n" + body;
    var t := p + nb;
    var a := ws + ("#!" + t);
    assert a == ws + "#!" + p + "\n" + body;
    RunExact(a, IsPerlSpace, |ws|);
    assert a[|ws|..] == "#!" + t;
    StartsAtPrefix(a, |ws|, "#!");
    assert a[|ws| + 2..] == t;
    assert t[|p|] == '\n';
    RunExact(t, NotNewline, |p|);
    assert t[..|p|] == p;
    assert t[|p|..] == nb;
  }

  /** After its leading white space, `x` does not start with `#!`: no directive is read. */
  predicate NoDirectiveAhead(x: String) {
    !StartsAt(x, Run(x, IsPerlSpace), "#!")
  }

  /** Exactly the text without a directive is passed on whole. */
  lemma NoDirectiveAheadExact(x: String)
    ensures NoDirectiveAhead(x) <==> ParseDirective(x) == Directive("", x)
  {
    DirectiveShape(x);
  }

  /** A boundary right after `x` does not complete a directive that `x` lacks. */
  lemma NoDirectiveBefore(x: String, t: String)
    requires NoDirectiveAhead(x)
    requires t != [] && (t[0] == '{' || t[0] == '}')
    ensures ParseDirective(x + t) == Directive("", x + t)
  {
    var s := x + t;
    var w := Run(x, IsPerlSpace);
    assert forall i | 0 <= i < w :: s[i] == x[i];
    assert s[w] == if w < |x| then x[w] else t[0];
    RunExact(s, IsPerlSpace, w);
    if w + 2 <= |x| {
      assert s[w..w + 2] == x[w..w + 2];
    } else if w < |x| {
      assert s[w + 1] == t[0];
      assert s[w..w + 2][1] == s[w + 1];
    } else if w + 2 <= |s| {
      assert s[w..w + 2][0] == s[w];
    }
  }

  // ---------------------------------------------------------------------
  // Classifying an opening.

  /** The first tag in `tags` that `proc` starts with. */
  function FirstTagPrefix(proc: String, tags: seq<String>): (r: Option<String>)
    ensures r.Some? ==> r.value in tags && HasPrefix(proc, r.value)
    ensures r.None? ==> forall k | 0 <= k < |tags| :: !HasPrefix(proc, tags[k])
  {
    if tags == [] then None
    else if HasPrefix(proc, tags[0]) then Some(tags[0])
    else FirstTagPrefix(proc, tags[1..])
  }

  datatype Opening = Opening(text: String, frame: Frame)

  /** The processor the opening uses: `CommitTicketReference…` counts as none. */
  function EffectiveProcessor(directive: String): String {
    if HasPrefix(directive, "CommitTicketReference") then "" else directive
  }

  /**
   * What an opening becomes. Later checks in the source override earlier
   * ones, so they are tested here in reverse: raw html (which also captures
   * `htmlcomment`), then comments, then the first matching HTML tag, then a
   * known language, then any other processor, then a plain fence.
   */
  function OpeningFor(directive: String): Opening {
    var proc := EffectiveProcessor(directive);
    if HasPrefix(proc, "html") then Opening("", RawHtml)
    else if HasPrefix(proc, "comment") || HasPrefix(proc, "htmlcomment") then Opening("<!---", Comment)
    else if FirstTagPrefix(proc, HtmlTags).Some? then
      Opening("<" + proc + ">\n", HtmlTag(FirstTagPrefix(proc, HtmlTags).value))
    else Opening(FenceText(proc), Plain)
  }

  /** The fence an opening becomes when no HTML rule applies: a known language, any other processor, or none. */
  function FenceText(proc: String): String {
    if TrimSpace(proc) in CodeLangs then OpenMarker + LangAlias(TrimSpace(proc))
    else if proc != "" then OpenMarker + "#!" + proc
    else OpenMarker
  }

  /** Text whose first character differs from the first character of `w` does not start with `w`. */
  lemma FirstCharDiffers(s: String, w: String)
    requires s != [] && w != [] && s[0] != w[0]
    ensures !HasPrefix(s, w)
  {
    if |w| <= |s| {
      assert s[..|w|][0] == s[0];
    }
  }

  /** Text starting with `u + v` starts with `u`. */
  lemma PrefixOfPrefix(s: String, u: String, v: String)
    requires HasPrefix(s, u + v)
    ensures HasPrefix(s, u)
  {
    assert s[..|u|] == s[..|u + v|][..|u|];
  }

  /** Text that does not start or end with a space is its own TrimSpace. */
  lemma TrimSpaceUnchanged(s: String)
    requires s == [] || (!IsUnicodeSpace(s[0]) && !IsUnicodeSpace(s[|s| - 1]))
    ensures TrimSpace(s) == s
  {
  }

  /** A processor that is neither raw html, a comment, a tag nor dropped opens a fence. */
  lemma OpeningFence(proc: String)
    requires !HasPrefix(proc, "CommitTicketReference") && !HasPrefix(proc, "html") && !HasPrefix(proc, "comment")
    requires forall k | 0 <= k < |HtmlTags| :: !HasPrefix(proc, HtmlTags[k])
    ensures OpeningFor(proc).frame == Plain
    ensures TrimSpace(proc) in CodeLangs ==> OpeningFor(proc).text == OpenMarker + LangAlias(TrimSpace(proc))
    ensures TrimSpace(proc) !in CodeLangs && proc != [] ==> OpeningFor(proc).text == OpenMarker + "#!" + proc
  {
    if HasPrefix(proc, "htmlcomment") {
      assert "htmlcomment" == "html" + "comment";
      PrefixOfPrefix(proc, "html", "comment");
    }
  }

  /** A short processor starting with `c`, `p` or `s` is neither raw html, a comment, a tag nor dropped. */
  lemma NotSpecialProcessor(proc: String)
    requires 1 <= |proc| <= 3 && (proc[0] == 'c' || proc[0] == 'p' || proc[0] == 's')
    ensures !HasPrefix(proc, "CommitTicketReference") && !HasPrefix(proc, "html") && !HasPrefix(proc, "comment")
    ensures forall k | 0 <= k < |HtmlTags| :: !HasPrefix(proc, HtmlTags[k])
  {
    FirstCharDiffers(proc, "html");
    FirstCharDiffers(proc, "CommitTicketReference");
    forall k | 0 <= k < |HtmlTags| ensures !HasPrefix(proc, HtmlTags[k]) {
      FirstCharDiffers(proc, HtmlTags[k]);
    }
  }

  /** `#!c++` opens a fence for `cpp`, Gitea's name for the language. */
  lemma OpeningCpp()
    ensures OpeningFor("c++") == Opening(OpenMarker + "cpp", Plain)
  {
    var lang := "c++";
    NotSpecialProcessor(lang);
    TrimSpaceUnchanged(lang);
    CppIsCodeLang();
    OpeningFence(lang);
  }

  lemma CppIsCodeLang()
    ensures "c++" in CodeLangs
  {
    assert CodeLangs[1] == "c++";
  }

  /** An unknown processor is kept after `#!` in the fence. */
  lemma OpeningUnknownProcessor(proc: String)
    requires proc != [] && TrimSpace(proc) !in CodeLangs
    requires !HasPrefix(proc, "CommitTicketReference") && !HasPrefix(proc, "html") && !HasPrefix(proc, "comment")
    requires forall k | 0 <= k < |HtmlTags| :: !HasPrefix(proc, HtmlTags[k])
    ensures OpeningFor(proc) == Opening(OpenMarker + "#!" + proc, Plain)
  {
    OpeningFence(proc);
  }

  /** A `CommitTicketReference` processor is dropped, leaving a plain fence. */
  lemma OpeningCommitTicketReference(directive: String)
    requires HasPrefix(directive, "CommitTicketReference")
    ensures OpeningFor(directive) == Opening(OpenMarker, Plain)
  {
    OpeningWithoutProcessor();
  }

  /** A processor starting with an HTML tag opens that tag, keeping the whole processor as its attributes. */
  lemma OpeningHtmlTag(tag: String, attrs: String)
    requires tag in HtmlTags
    ensures OpeningFor(tag + attrs) == Opening("<" + tag + attrs + ">\n", HtmlTag(tag))
  {
    var proc := tag + attrs;
    TagLeads(tag, attrs);
    FirstCharDiffers(proc, "html");
    FirstCharDiffers(proc, "comment");
    FirstCharDiffers(proc, "htmlcomment");
    FirstCharDiffers(proc, "CommitTicketReference");
    TagIsFirstPrefix(tag, attrs);
  }

  /** The processor starts with its tag, whose first letter is `d` or `t`. */
  lemma TagLeads(tag: String, attrs: String)
    requires tag in HtmlTags
    ensures |tag| >= 2 && HasPrefix(tag + attrs, tag)
    ensures (tag + attrs)[0] == tag[0] && (tag + attrs)[1] == tag[1]
    ensures tag[0] == 'd' || tag[0] == 't'
  {
    assert (tag + attrs)[..|tag|] == tag;
  }

  /** The first of the HTML tags the processor starts with is its own tag. */
  lemma TagIsFirstPrefix(tag: String, attrs: String)
    requires tag in HtmlTags
    ensures FirstTagPrefix(tag + attrs, HtmlTags) == Some(tag)
  {
    var proc := tag + attrs;
    TagLeads(tag, attrs);
    var k :| 0 <= k < |HtmlTags| && HtmlTags[k] == tag;
    forall j | 0 <= j < k ensures !HasPrefix(proc, HtmlTags[j]) {
      TagsDifferEarly(j, k);
      if HtmlTags[j][0] != tag[0] {
        FirstCharDiffers(proc, HtmlTags[j]);
      } else {
        SecondCharDiffers(proc, HtmlTags[j]);
      }
    }
    FirstTagFound(proc, HtmlTags, k);
  }

  /** Two different HTML tags differ in one of their first two letters. */
  lemma TagsDifferEarly(j: nat, k: nat)
    requires j < k < |HtmlTags|
    ensures |HtmlTags[j]| >= 2 && |HtmlTags[k]| >= 2
    ensures HtmlTags[j][0] != HtmlTags[k][0] || HtmlTags[j][1] != HtmlTags[k][1]
  {
  }

  /** Text whose second character differs from the second character of `w` does not start with `w`. */
  lemma SecondCharDiffers(s: String, w: String)
    requires |s| >= 2 && |w| >= 2 && s[1] != w[1]
    ensures !HasPrefix(s, w)
  {
    if |w| <= |s| {
      assert s[..|w|][1] == s[1];
    }
  }

  /** FirstTagPrefix finds the `k`-th tag when none before it matches. */
  lemma {:induction false} FirstTagFound(proc: String, tags: seq<String>, k: nat)
    requires k < |tags| && HasPrefix(proc, tags[k])
    requires forall j | 0 <= j < k :: !HasPrefix(proc, tags[j])
    ensures FirstTagPrefix(proc, tags) == Some(tags[k])
  {
    if k > 0 {
      assert !HasPrefix(proc, tags[0]);
      forall j | 0 <= j < k - 1 ensures !HasPrefix(proc, tags[1..][j]) {
        assert tags[1..][j] == tags[j + 1];
      }
      FirstTagFound(proc, tags[1..], k - 1);
    }
  }

  /** `comment` opens an HTML comment. */
  lemma OpeningComment(rest: String)
    ensures OpeningFor("comment" + rest) == Opening("<!---", Comment)
  {
    var proc := "comment" + rest;
    assert proc[..7] == "comment";
    assert proc[0] == 'c';
  }

  /** `htmlcomment` is caught by the later `html` check, so it is raw html, not a comment. */
  lemma OpeningHtmlComment(rest: String)
    ensures OpeningFor("htmlcomment" + rest) == Opening("", RawHtml)
  {
    var proc := "htmlcomment" + rest;
    assert proc[..4] == "html";
    assert proc[0] == 'h';
  }

  /** What the closing `}}}` of a block of each kind becomes. */
  function Closer(frame: Frame): String {
    match frame
    case Plain => CloseMarker
    case HtmlTag(tag) => "\n</" + tag + ">"
    case Comment => "-->"
    case RawHtml => ""
  }

  /**
   * The source's classification of an opening, step by step: start from a
   * plain fence, append the processor, let a known language replace it, then
   * let the first matching HTML tag, a comment and raw html override in turn.
   */
  method ClassifyOpening(directive: String) returns (text: String, frame: Frame)
    ensures Opening(text, frame) == OpeningFor(directive)
  {
    var proc := directive;
    if HasPrefix(proc, "CommitTicketReference") {
      proc := "";
    }
    text := LanguageFence(proc);
    frame := Plain;
    var tag := FindHtmlTag(proc);
    if tag.Some? {
      frame := HtmlTag(tag.value);
      text := "<" + proc + ">\n";
    }
    if HasPrefix(proc, "comment") || HasPrefix(proc, "htmlcomment") {
      frame := Comment;
      text := "<!---";
    }
    if HasPrefix(proc, "html") {
      frame := RawHtml;
      text := "";
    }
  }

  /** The fence opening: `#!` and the processor when there is one, replaced by a known language. */
  method LanguageFence(proc: String) returns (text: String)
    ensures text == FenceText(proc)
  {
    text := OpenMarker;
    if proc != "" {
      text := text + "#!" + proc;
    }
    var base := text;
    var trimmed := TrimSpace(proc);
    for k := 0 to |CodeLangs|
      invariant text == if trimmed in CodeLangs[..k] then OpenMarker + LangAlias(trimmed) else base
    {
      if trimmed == CodeLangs[k] {
        text := OpenMarker + LangAlias(CodeLangs[k]);
      }
      InTakeNext(CodeLangs, k, trimmed);
    }
    InTakeAll(CodeLangs, trimmed);
  }

  /** The first HTML tag the processor starts with, trying the tags in order. */
  method FindHtmlTag(proc: String) returns (tag: Option<String>)
    ensures tag == FirstTagPrefix(proc, HtmlTags)
  {
    var k := 0;
    while k < |HtmlTags|
      invariant 0 <= k <= |HtmlTags|
      invariant FirstTagPrefix(proc, HtmlTags) == FirstTagPrefix(proc, HtmlTags[k..])
    {
      if HasPrefix(proc, HtmlTags[k]) {
        return Some(HtmlTags[k]);
      }
      assert HtmlTags[k..][1..] == HtmlTags[k + 1..];
      k := k + 1;
    }
    return None;
  }

  lemma InTakeNext(xs: seq<String>, k: nat, x: String)
    requires k < |xs|
    ensures x in xs[..k + 1] <==> x in xs[..k] || x == xs[k]
  {
    assert xs[..k + 1] == xs[..k] + [xs[k]];
  }

  lemma InTakeAll(xs: seq<String>, x: String)
    ensures x in xs[..|xs|] <==> x in xs
  {
    assert xs[..|xs|] == xs;
  }

  // ---------------------------------------------------------------------
  // The parser: from one boundary to the next, threading the stack.

  /** What one boundary turns into, the text still to parse, and the new stack. */
  datatype StepResult = StepResult(emitted: String, rest: String, stack: seq<Frame>)

  /** The output text and the blocks still open when the text ran out. */
  datatype Parsed = Parsed(out: String, unclosed: seq<Frame>)

  /**
   * One round of the source's recursion: copy the text before the leftmost
   * boundary, then convert the boundary. An opening pushes one frame; a
   * closing pops the top frame, or is copied literally when nothing is open.
   */
  function Step(s: String, stack: seq<Frame>): (r: StepResult)
    requires NextBoundary(s, 0).Some?
    ensures |r.rest| < |s|
    ensures HasPrefix(r.emitted, s[..NextBoundary(s, 0).value])
    ensures |r.stack| == |stack| + 1 || |r.stack| + 1 == |stack| || (stack == [] && r.stack == [])
  {
    var i := NextBoundary(s, 0).value;
    var before := s[..i];
    var after := s[i + 3..];
    if s[i] == '{' then
      var d := ParseDirective(after);
      var o := OpeningFor(d.proc);
      StepResult(before + o.text, d.rest, stack + [o.frame])
    else if stack == [] then StepResult(before + "}}}", after, stack)
    else StepResult(before + Closer(stack[|stack| - 1]), after, stack[..|stack| - 1])
  }

  /** The whole parse of `s` with `stack` already open (the source's parseCodeBlocks). */
  function Parse(s: String, stack: seq<Frame>): Parsed
    decreases |s|
  {
    if NextBoundary(s, 0).None? then Parsed(s, stack)
    else
      var st := Step(s, stack);
      var tail := Parse(st.rest, st.stack);
      Parsed(st.emitted + tail.out, tail.unclosed)
  }

  lemma AppendAssoc(a: String, b: String, c: String)
    ensures a + (b + c) == (a + b) + c
  {
  }

  /** Parsing text with a boundary is one step followed by the parse of the rest. */
  lemma ParseUnfold(s: String, stack: seq<Frame>)
    requires NextBoundary(s, 0).Some?
    ensures var st := Step(s, stack);
      Parse(s, stack) == Parsed(st.emitted + Parse(st.rest, st.stack).out, Parse(st.rest, st.stack).unclosed)
  {
  }

  /**
   * convertCodeBlocks: parse from an empty stack. The source logs an error
   * when blocks are left open at the end; here they are returned in `unclosed`.
   */
  method ConvertCodeBlocks(text: String) returns (out: String, unclosed: seq<Frame>)
    ensures Parsed(out, unclosed) == Parse(text, [])
  {
    out := "";
    var rest := text;
    var stack: seq<Frame> := [];
    while NextBoundary(rest, 0).Some?
      invariant Parse(text, []) == Parsed(out + Parse(rest, stack).out, Parse(rest, stack).unclosed)
      decreases |rest|
    {
      var i := NextBoundary(rest, 0).value;
      var before := rest[..i];
      var after := rest[i + 3..];
      ghost var out0 := out;
      ghost var st := Step(rest, stack);
      ghost var tail := Parse(st.rest, st.stack);
      ParseUnfold(rest, stack);
      if rest[i] == '{' {
        var d := ParseDirective(after);
        var opening, frame := ClassifyOpening(d.proc);
        assert st == StepResult(before + opening, d.rest, stack + [frame]);
        out := out + (before + opening);
        stack := stack + [frame];
        rest := d.rest;
      } else if stack == [] {
        assert st == StepResult(before + "}}}", after, stack);
        out := out + (before + "}}}");
        rest := after;
      } else {
        assert st == StepResult(before + Closer(stack[|stack| - 1]), after, stack[..|stack| - 1]);
        out := out + (before + Closer(stack[|stack| - 1]));
        stack := stack[..|stack| - 1];
        rest := after;
      }
      assert out == out0 + st.emitted;
      AppendAssoc(out0, st.emitted, tail.out);
    }
    out := out + rest;
    unclosed := stack;
  }

  // ---------------------------------------------------------------------
  // Properties of the parser.

  /** Text with no `{{{` or `}}}` comes back unchanged, and whatever was open stays open. */
  lemma ParseWithoutBoundary(s: String, stack: seq<Frame>)
    requires !HasBoundary(s)
    ensures Parse(s, stack) == Parsed(s, stack)
  {
    NextBoundaryIsNone(s);
  }

  /** The pieces of `b + (w + a)` that a step at the boundary `w` sees. */
  lemma BoundaryAfter(b: String, w: String, a: String)
    requires w == "{{{" || w == "}}}"
    requires NoBoundaryBefore(b, w[0])
    ensures var s := b + (w + a);
      NextBoundary(s, 0) == Some(|b|) && s[..|b|] == b && s[|b|] == w[0] && s[|b| + 3..] == a
  {
    var s := b + (w + a);
    assert (w + a)[0] == w[0];
    NextBoundaryAfter(b, w + a);
    assert s[..|b|] == b && s[|b| + 3..] == a;
  }

  /** A `}}}` met with no block open is copied literally and nothing is opened or closed. */
  lemma ParseUnmatchedClose(b: String, a: String)
    requires NoBoundaryBefore(b, '}')
    ensures Parse(b + ("}}}" + a), []) == Parsed(b + "}}}" + Parse(a, []).out, Parse(a, []).unclosed)
  {
    var s := b + ("}}}" + a);
    BoundaryAfter(b, "}}}", a);
    ParseUnfold(s, []);
  }

  /**
   * An opening copies the text before it, becomes the opening its directive
   * calls for, consumes the directive, and pushes exactly one frame.
   */
  lemma ParseOpening(b: String, a: String, stack: seq<Frame>)
    requires NoBoundaryBefore(b, '{')
    ensures var d := ParseDirective(a);
      var o := OpeningFor(d.proc);
      var tail := Parse(d.rest, stack + [o.frame]);
      Parse(b + ("{{{" + a), stack) == Parsed(b + o.text + tail.out, tail.unclosed)
  {
    var s := b + ("{{{" + a);
    BoundaryAfter(b, "{{{", a);
    ParseUnfold(s, stack);
  }

  /** `ParseOpening` for an opening whose directive is already known. */
  lemma ParseOpeningWith(b: String, a: String, stack: seq<Frame>, proc: String, rest: String)
    requires NoBoundaryBefore(b, '{')
    requires ParseDirective(a) == Directive(proc, rest)
    ensures var o := OpeningFor(proc);
      var tail := Parse(rest, stack + [o.frame]);
      Parse(b + ("{{{" + a), stack) == Parsed(b + o.text + tail.out, tail.unclosed)
  {
    ParseOpening(b, a, stack);
  }

  /** A `}}}` closes the most recently opened block, whose kind decides what it becomes. */
  lemma ParseClosing(b: String, a: String, stack: seq<Frame>, frame: Frame)
    requires NoBoundaryBefore(b, '}')
    ensures var tail := Parse(a, stack);
      Parse(b + ("}}}" + a), stack + [frame]) == Parsed(b + Closer(frame) + tail.out, tail.unclosed)
  {
    var s := b + ("}}}" + a);
    ClosingStep(b, a, stack, frame);
    ParseUnfold(s, stack + [frame]);
  }

  lemma ClosingStep(b: String, a: String, stack: seq<Frame>, frame: Frame)
    requires NoBoundaryBefore(b, '}')
    ensures NextBoundary(b + ("}}}" + a), 0).Some?
    ensures Step(b + ("}}}" + a), stack + [frame]) == StepResult(b + Closer(frame), a, stack)
  {
    BoundaryAfter(b, "}}}", a);
    var st := stack + [frame];
    assert st[|st| - 1] == frame && st[..|st| - 1] == stack;
  }

  /** The empty processor is neither dropped, raw html, a comment, a tag nor a language. */
  lemma EmptyProcessor()
    ensures EffectiveProcessor("") == ""
    ensures !HasPrefix("", "html") && !HasPrefix("", "comment") && !HasPrefix("", "htmlcomment")
    ensures FirstTagPrefix("", HtmlTags).None? && TrimSpace("") == "" && "" !in CodeLangs
  {
    forall k | 0 <= k < |HtmlTags| ensures !HasPrefix("", HtmlTags[k]) {
      assert HtmlTags[k] != [];
    }
    assert forall k | 0 <= k < |CodeLangs| :: CodeLangs[k] != [];
  }

  /** An opening without a directive is a plain fence. */
  lemma OpeningWithoutProcessor()
    ensures OpeningFor("") == Opening(OpenMarker, Plain)
  {
    EmptyProcessor();
  }

  /**
   * A `{{{…}}}` block without a directive is disguised and its body kept as
   * it is; `b` and `x` hold no boundary of their own.
   */
  lemma ParsePlainBlock(b: String, x: String, c: String, stack: seq<Frame>)
    requires NoBoundaryBefore(b, '{') && NoBoundaryBefore(x, '}') && NoDirectiveAhead(x)
    ensures var tail := Parse(c, stack);
      Parse(b + ("{{{" + (x + ("}}}" + c))), stack) == Parsed(b + OpenMarker + x + CloseMarker + tail.out, tail.unclosed)
  {
    var a := x + ("}}}" + c);
    var tail := Parse(c, stack);
    var mid := Parse(a, stack + [Plain]);
    assert Parse(b + ("{{{" + a), stack) == Parsed(b + OpenMarker + mid.out, mid.unclosed) by {
      NoDirectiveBefore(x, "}}}" + c);
      OpeningWithoutProcessor();
      ParseOpening(b, a, stack);
    }
    assert mid == Parsed(x + CloseMarker + tail.out, tail.unclosed) by {
      ParseClosing(x, c, stack, Plain);
    }
    AppendAssoc(b + OpenMarker, x + CloseMarker, tail.out);
    AppendAssoc(b + OpenMarker, x, CloseMarker);
  }

  /** The opening line `{{{ws#!p` followed by a newline. */
  lemma ParseProcessorOpening(b: String, ws: String, p: String, body: String, stack: seq<Frame>)
    requires NoBoundaryBefore(b, '{')
    requires forall i | 0 <= i < |ws| :: IsPerlSpace(ws[i])
    requires p != [] && IsWordChar(p[0]) && forall i | 0 <= i < |p| :: p[i] != '\n'
    ensures var o := OpeningFor(p);
      var mid := Parse("\n" + body, stack + [o.frame]);
      Parse(b + ("{{{" + (ws + "#!" + p + "\n" + body)), stack) == Parsed(b + o.text + mid.out, mid.unclosed)
  {
    DirectiveLine(ws, p, body);
    ParseOpeningWith(b, ws + "#!" + p + "\n" + body, stack, p, "\n" + body);
  }

  /**
   * A block whose opening line carries `#!p` becomes the opening and closing
   * `p` calls for, around the body that follows the directive line.
   */
  lemma ParseProcessorBlock(b: String, ws: String, p: String, x: String, c: String, stack: seq<Frame>)
    requires NoBoundaryBefore(b, '{') && NoBoundaryBefore(x, '}')
    requires forall i | 0 <= i < |ws| :: IsPerlSpace(ws[i])
    requires p != [] && IsWordChar(p[0]) && forall i | 0 <= i < |p| :: p[i] != '\n'
    ensures var o := OpeningFor(p);
      var tail := Parse(c, stack);
      Parse(b + ("{{{" + (ws + "#!" + p + "\n" + (x + ("}}}" + c)))), stack)
        == Parsed(b + o.text + ("\n" + x) + Closer(o.frame) + tail.out, tail.unclosed)
  {
    var body := x + ("}}}" + c);
    var o := OpeningFor(p);
    var nx := "\n" + x;
    AppendAssoc("\n", x, "}}}" + c);
    ParseProcessorOpening(b, ws, p, body, stack);
    NoBoundaryAfterNewline(x);
    CloseAfterOpening(b + o.text, nx, c, stack, o.frame, b + ("{{{" + (ws + "#!" + p + "\n" + body)));
  }

  lemma NoBoundaryAfterNewline(x: String)
    requires NoBoundaryBefore(x, '}')
    ensures NoBoundaryBefore("\n" + x, '}')
  {
    var nx := "\n" + x;
    forall i: nat | i < |nx| ensures !IsBoundaryAt(nx, i) {
      if i > 0 && i + 3 <= |nx| {
        assert nx[i] == x[i - 1] && nx[i + 1] == x[i] && nx[i + 2] == x[i + 1];
        assert !IsBoundaryAt(x, i - 1);
      }
    }
  }

  /** Text parsed as `pre` then an open block whose body `nx` is closed next, then `c`. */
  lemma CloseAfterOpening(pre: String, nx: String, c: String, stack: seq<Frame>, frame: Frame, s: String)
    requires NoBoundaryBefore(nx, '}')
    requires var mid := Parse(nx + ("}}}" + c), stack + [frame]);
      Parse(s, stack) == Parsed(pre + mid.out, mid.unclosed)
    ensures var tail := Parse(c, stack);
      Parse(s, stack) == Parsed(pre + nx + Closer(frame) + tail.out, tail.unclosed)
  {
    ParseClosing(nx, c, stack, frame);
    var tail := Parse(c, stack);
    AppendAssoc(pre, nx + Closer(frame), tail.out);
    AppendAssoc(pre, nx, Closer(frame));
  }

  /**
   * Two plain blocks, one inside the other: the inner block is closed first
   * and the stack returns to its depth before.
   */
  lemma ParseNestedBlocks(x: String, y: String, z: String, c: String, stack: seq<Frame>)
    requires NoBoundaryBefore(x, '{') && NoDirectiveAhead(x)
    requires NoBoundaryBefore(y, '}') && NoDirectiveAhead(y)
    requires NoBoundaryBefore(z, '}')
    ensures var tail := Parse(c, stack);
      Parse("{{{" + (x + ("{{{" + (y + ("}}}" + (z + ("}}}" + c)))))), stack)
        == Parsed(OpenMarker + x + OpenMarker + y + CloseMarker + z + CloseMarker + tail.out, tail.unclosed)
  {
    var rest := z + ("}}}" + c);
    var inner := y + ("}}}" + rest);
    var a := x + ("{{{" + inner);
    var tail := Parse(c, stack);
    var p1 := Parse(a, stack + [Plain]);
    var p2 := Parse(inner, stack + [Plain] + [Plain]);
    var p3 := Parse(rest, stack + [Plain]);
    assert Parse("{{{" + a, stack) == Parsed(OpenMarker + p1.out, p1.unclosed) by {
      NoDirectiveBefore(x, "{{{" + inner);
      OpeningWithoutProcessor();
      ParseOpening([], a, stack);
      assert [] + ("{{{" + a) == "{{{" + a;
      assert [] + OpenMarker == OpenMarker;
    }
    assert p1 == Parsed(x + OpenMarker + p2.out, p2.unclosed) by {
      NoDirectiveBefore(y, "}}}" + rest);
      OpeningWithoutProcessor();
      ParseOpening(x, inner, stack + [Plain]);
    }
    assert p2 == Parsed(y + CloseMarker + p3.out, p3.unclosed) by {
      ParseClosing(y, rest, stack + [Plain], Plain);
    }
    assert p3 == Parsed(z + CloseMarker + tail.out, tail.unclosed) by {
      ParseClosing(z, c, stack, Plain);
    }
    var t3 := z + CloseMarker + tail.out;
    var t2 := y + CloseMarker + t3;
    var t1 := x + OpenMarker + t2;
    assert Parse("{{{" + a, stack).out == OpenMarker + t1;
    var u := OpenMarker + x + OpenMarker + y + CloseMarker;
    AppendAssoc(u, z + CloseMarker, tail.out);
    AppendAssoc(u, z, CloseMarker);
    AppendAssoc(OpenMarker + x + OpenMarker, y + CloseMarker, t3);
    AppendAssoc(OpenMarker + x + OpenMarker, y, CloseMarker);
    AppendAssoc(OpenMarker, x + OpenMarker, t2);
    AppendAssoc(OpenMarker, x, OpenMarker);
  }

  /** A block that is never closed stays on the stack; its text is still converted. */
  lemma ParseUnclosedBlock(x: String, stack: seq<Frame>)
    requires !HasBoundary(x) && NoDirectiveAhead(x)
    ensures Parse("{{{" + x, stack) == Parsed(OpenMarker + x, stack + [Plain])
  {
    PlainOpeningAtFront(x, stack);
    ParseWithoutBoundary(x, stack + [Plain]);
  }

  /** An opening at the very front of the text with no directive pushes a plain frame. */
  lemma PlainOpeningAtFront(x: String, stack: seq<Frame>)
    requires NoDirectiveAhead(x)
    ensures var p1 := Parse(x, stack + [Plain]);
      Parse("{{{" + x, stack) == Parsed(OpenMarker + p1.out, p1.unclosed)
  {
    PlainStepAtFront(x, stack);
    ParseUnfold("{{{" + x, stack);
  }

  /** The single step over an opening at the front with no directive. */
  lemma PlainStepAtFront(x: String, stack: seq<Frame>)
    requires NoDirectiveAhead(x)
    ensures NextBoundary("{{{" + x, 0) == Some(0)
    ensures Step("{{{" + x, stack) == StepResult(OpenMarker, x, stack + [Plain])
  {
    var s := "{{{" + x;
    assert IsBoundaryAt(s, 0);
    assert s[3..] == x && s[..0] + OpenMarker == OpenMarker;
    NoDirectiveAheadExact(x);
    OpeningWithoutProcessor();
  }

  // ---------------------------------------------------------------------
  // Undisguising: `{@{@{x}@}@}` on one line becomes `x` in backticks, every
  // other marker a triple-backtick fence.

  predicate NoNewline(s: String) { '\n' !in s }

  /** Neither marker occurs in `s`. */
  predicate MarkerFree(s: String) {
    !Occurs(s, OpenMarker) && !Occurs(s, CloseMarker)
  }

  /** No marker starts in `a`, nor across its end into a `{@{@{` that follows. */
  predicate NoMarkerBefore(a: String) {
    forall i | 0 <= i < |a| :: !StartsAt(a + OpenMarker, i, OpenMarker) && !StartsAt(a + OpenMarker, i, CloseMarker)
  }

  /** No `{@{@{` starts in `{@{@{x` after its front. */
  predicate NoInnerOpen(x: String) {
    forall k | 0 < k <= |x| :: !StartsAt(OpenMarker + x, k, OpenMarker)
  }

  /** No `}@}@}` starts in `x}@}@}` before its end. */
  predicate NoInnerClose(x: String) {
    forall k | 0 <= k < |x| :: !StartsAt(x + CloseMarker, k, CloseMarker)
  }

  /** The body of a disguised block holds no marker but the block's own. */
  predicate OnlyOwnMarkers(x: String) { NoInnerOpen(x) && NoInnerClose(x) }

  /**
   * The lazy body of `{@{@{([^\n]+?)}@}@}`: the smallest length `k' >= k` of a
   * newline-free body that is followed by `}@}@}`, given that the first
   * `k - 1` body characters are already known to be newline-free.
   */
  function LazyClose(s: String, k: nat): (r: Option<nat>)
    requires k >= 1
    decreases |s| - k
    ensures r.Some? ==> k <= r.value && 5 + r.value + 5 <= |s| && StartsAt(s, 5 + r.value, CloseMarker)
    ensures r.Some? ==> forall i | 5 + k - 1 <= i < 5 + r.value :: s[i] != '\n'
  {
    if 5 + k > |s| || s[5 + k - 1] == '\n' then None
    else if StartsAt(s, 5 + k, CloseMarker) then Some(k)
    else LazyClose(s, k + 1)
  }

  /** The pattern `{@{@{([^\n]+?)}@}@}`: groups are the whole match and the body. */
  function SingleLineRec(s: String, atStart: bool): (r: Option<Match>)
    ensures r.Some? ==> HasPrefix(s, OpenMarker) && r.value.len <= |s|
  {
    if HasPrefix(s, OpenMarker) then
      match LazyClose(s, 1)
      case Some(k) => Some(Match(10 + k, [s[..10 + k], s[5..5 + k]]))
      case None => None
    else None
  }

  /** The replacement template "`$1`". */
  function InlineCode(groups: seq<String>): String {
    "`" + Group(groups, 1) + "`"
  }

  /** undisguiseCodeBlocks */
  function Undisguise(s: String): String {
    var inline := ReplaceAllIn(s, SingleLineRec, InlineCode);
    ReplaceAll(ReplaceAll(inline, OpenMarker, "```"), CloseMarker, "```")
  }

  /** The markers are made of `{`, `@` and `}`. */
  lemma MarkerCharAt(k: nat)
    requires k < 5
    ensures OpenMarker[k] == '{' || OpenMarker[k] == '@'
    ensures CloseMarker[k] == '}' || CloseMarker[k] == '@'
  {
  }

  /** No marker occurrence covers a character that is not a marker character. */
  lemma NotMarkerChar(s: String, i: nat, j: nat)
    requires i <= j < i + 5 && j < |s|
    requires s[j] != '{' && s[j] != '@' && s[j] != '}'
    ensures !StartsAt(s, i, OpenMarker) && !StartsAt(s, i, CloseMarker)
  {
    MarkerCharAt(j - i);
    WindowMismatch(s, i, OpenMarker, j);
    WindowMismatch(s, i, CloseMarker, j);
  }

  /** Two marker-free texts joined by a character foreign to the markers stay marker-free. */
  lemma JoinAt(u: String, ch: char, v: String)
    requires MarkerFree(u) && MarkerFree(v)
    requires ch != '{' && ch != '@' && ch != '}'
    ensures MarkerFree(u + ([ch] + v))
  {
    var s := u + ([ch] + v);
    assert s == (u + [ch]) + v;
    forall i: nat | i <= |s| ensures !StartsAt(s, i, OpenMarker) && !StartsAt(s, i, CloseMarker) {
      if i + 5 <= |u| {
        StartsAtWithin(u, [ch] + v, i, OpenMarker);
        StartsAtWithin(u, [ch] + v, i, CloseMarker);
      } else if i <= |u| {
        NotMarkerChar(s, i, |u|);
      } else {
        StartsAtShift(u + [ch], v, i - |u| - 1, OpenMarker);
        StartsAtShift(u + [ch], v, i - |u| - 1, CloseMarker);
      }
    }
  }

  /** Text that may precede a block is marker-free itself. */
  lemma MarkerFreeBefore(a: String)
    requires NoMarkerBefore(a)
    ensures MarkerFree(a)
  {
    forall i: nat | i <= |a| ensures !StartsAt(a, i, OpenMarker) && !StartsAt(a, i, CloseMarker) {
      if i + 5 <= |a| {
        StartsAtWithin(a, OpenMarker, i, OpenMarker);
        StartsAtWithin(a, OpenMarker, i, CloseMarker);
      }
    }
  }

  /** A marker-free line, newline included, may precede a block. */
  lemma MarkerFreeLine(a: String)
    requires MarkerFree(a)
    ensures NoMarkerBefore(a + "\n")
  {
    var s := (a + "\n") + OpenMarker;
    assert s == a + ("\n" + OpenMarker);
    forall i | 0 <= i < |a + "\n"| ensures !StartsAt(s, i, OpenMarker) && !StartsAt(s, i, CloseMarker) {
      if i + 5 <= |a| {
        StartsAtWithin(a, "\n" + OpenMarker, i, OpenMarker);
        StartsAtWithin(a, "\n" + OpenMarker, i, CloseMarker);
      } else {
        NotMarkerChar(s, i, |a|);
      }
    }
  }

  /** The body of a block holds no marker on its own. */
  lemma OwnMarkersFree(x: String)
    requires OnlyOwnMarkers(x)
    ensures MarkerFree(x)
  {
    forall i: nat | i <= |x| ensures !StartsAt(x, i, OpenMarker) && !StartsAt(x, i, CloseMarker) {
      if i + 5 <= |x| {
        StartsAtShift(OpenMarker, x, i, OpenMarker);
        StartsAtWithin(x, CloseMarker, i, CloseMarker);
      }
    }
  }

  /** Before a block, no marker starts in the text that precedes it. */
  lemma MarkerAheadOfOpen(a: String, b: String)
    requires NoMarkerBefore(a)
    ensures forall i | 0 <= i < |a| ::
      !StartsAt(a + (OpenMarker + b), i, OpenMarker) && !StartsAt(a + (OpenMarker + b), i, CloseMarker)
  {
    assert a + (OpenMarker + b) == (a + OpenMarker) + b;
    forall i | 0 <= i < |a|
      ensures !StartsAt(a + (OpenMarker + b), i, OpenMarker) && !StartsAt(a + (OpenMarker + b), i, CloseMarker)
    {
      StartsAtWithin(a + OpenMarker, b, i, OpenMarker);
      StartsAtWithin(a + OpenMarker, b, i, CloseMarker);
    }
  }

  /** A `}@}@}` inside a block, after its opening marker, is one of `x}@}@}`. */
  lemma CloseMarkerInBlock(x: String, c: String, k: nat)
    requires k <= |x|
    ensures StartsAt(OpenMarker + (x + (CloseMarker + c)), 5 + k, CloseMarker) == StartsAt(x + CloseMarker, k, CloseMarker)
  {
    assert OpenMarker + (x + (CloseMarker + c)) == OpenMarker + ((x + CloseMarker) + c);
    StartsAtShift(OpenMarker, (x + CloseMarker) + c, k, CloseMarker);
    StartsAtWithin(x + CloseMarker, c, k, CloseMarker);
  }

  /** The inline body search stops exactly at the closing marker. */
  lemma {:induction false} LazyCloseFinds(x: String, c: String, k: nat)
    requires NoInnerClose(x) && NoNewline(x)
    requires 1 <= k <= |x|
    ensures LazyClose(OpenMarker + (x + (CloseMarker + c)), k) == Some(|x|)
    decreases |x| - k
  {
    var s := OpenMarker + (x + (CloseMarker + c));
    FencedCharAt(x, c, k - 1);
    if k < |x| {
      CloseMarkerInBlock(x, c, k);
      LazyCloseFinds(x, c, k + 1);
    } else {
      assert s[5 + |x|..5 + |x| + 5] == CloseMarker;
    }
  }

  /** The inline body search fails when a newline comes before the closing marker. */
  lemma {:induction false} LazyCloseFails(x: String, c: String, k: nat, j: nat)
    requires NoInnerClose(x)
    requires j < |x| && x[j] == '\n'
    requires 1 <= k <= j + 1
    ensures LazyClose(OpenMarker + (x + (CloseMarker + c)), k) == None
    decreases j + 1 - k
  {
    FencedCharAt(x, c, k - 1);
    if k <= j {
      CloseMarkerInBlock(x, c, k);
      LazyCloseFails(x, c, k + 1, j);
    }
  }

  /** The characters of a disguised block after its opening marker: the body, then the closing `}`. */
  lemma FencedCharAt(x: String, c: String, m: nat)
    requires m <= |x|
    ensures var s := OpenMarker + (x + (CloseMarker + c));
      5 + m < |s| && s[5 + m] == (if m < |x| then x[m] else '}')
  {
  }

  /** No inline block starts in marker-free text. */
  lemma NoInlineIn(s: String)
    requires MarkerFree(s)
    ensures NoMatchIn(SingleLineRec, s, false)
  {
    forall k | 0 <= k < |s| ensures !MatchesHere(SingleLineRec, s[k..], false) {
      StartsAtPrefix(s, k, OpenMarker);
    }
  }

  /** The inline pass turns one `{@{@{x}@}@}` with a one-line body into `x` in backticks. */
  lemma InlinePass(a: String, x: String, c: String)
    requires NoMarkerBefore(a) && NoInnerClose(x) && MarkerFree(c)
    requires x != [] && NoNewline(x)
    ensures ReplaceAllIn(a + (OpenMarker + (x + (CloseMarker + c))), SingleLineRec, InlineCode)
      == a + ("`" + x + "`" + c)
  {
    var m := OpenMarker + (x + (CloseMarker + c));
    assert ReplaceAllFunc(m, SingleLineRec, InlineCode, a == []) == "`" + x + "`" + c by {
      InlineAtFront(x, c, a == []);
    }
    if a == [] {
      assert a + m == m;
    } else {
      MarkerAheadOfOpen(a, x + (CloseMarker + c));
      forall k | 0 <= k < |a| ensures !MatchesHere(SingleLineRec, (a + m)[k..], k == 0) {
        StartsAtPrefix(a + m, k, OpenMarker);
      }
      SkipPrefix(a, m, SingleLineRec, InlineCode, true);
    }
  }

  /** An inline block at the front of the scanned text. */
  lemma InlineAtFront(x: String, c: String, atStart: bool)
    requires NoInnerClose(x) && MarkerFree(c)
    requires x != [] && NoNewline(x)
    ensures ReplaceAllFunc(OpenMarker + (x + (CloseMarker + c)), SingleLineRec, InlineCode, atStart) == "`" + x + "`" + c
  {
    var m := OpenMarker + (x + (CloseMarker + c));
    var w := OpenMarker + x + CloseMarker;
    InlineParts(x, c);
    LazyCloseFinds(x, c, 1);
    assert SingleLineRec(m, atStart) == Some(Match(10 + |x|, [w, x]));
    NoInlineIn(c);
    NoMatchUnchanged(c, SingleLineRec, InlineCode, false);
    MatchAtFront(w, c, SingleLineRec, InlineCode, atStart);
  }

  /** A disguised block followed by `c`: its whole text and its body. */
  lemma InlineParts(x: String, c: String)
    ensures var m := OpenMarker + (x + (CloseMarker + c));
      var w := OpenMarker + x + CloseMarker;
      m == w + c && |m| >= 10 + |x| && m[..10 + |x|] == w && m[5..5 + |x|] == x && HasPrefix(m, OpenMarker)
  {
    var m := OpenMarker + (x + (CloseMarker + c));
    var w := OpenMarker + x + CloseMarker;
    assert m == w + c;
    assert m[..10 + |x|] == w;
    assert m[5..5 + |x|] == x;
    assert m[..5] == OpenMarker;
  }

  /** Inline code between marker-free text is marker-free. */
  lemma InlineResultFree(a: String, x: String, c: String)
    requires NoMarkerBefore(a) && OnlyOwnMarkers(x) && MarkerFree(c)
    ensures MarkerFree(a + ("`" + x + "`" + c))
  {
    MarkerFreeBefore(a);
    OwnMarkersFree(x);
    JoinAt(x, '`', c);
    JoinAt(a, '`', x + (['`'] + c));
    assert a + ("`" + x + "`" + c) == a + (['`'] + (x + (['`'] + c)));
  }

  /** A one-line disguised block, with no other marker around it, becomes inline code. */
  lemma UndisguiseInline(a: String, x: String, c: String)
    requires NoMarkerBefore(a) && OnlyOwnMarkers(x) && MarkerFree(c)
    requires x != [] && NoNewline(x)
    ensures Undisguise(a + (OpenMarker + (x + (CloseMarker + c)))) == a + ("`" + x + "`" + c)
  {
    InlinePass(a, x, c);
    var r := a + ("`" + x + "`" + c);
    InlineResultFree(a, x, c);
    ReplaceAllAbsent(r, OpenMarker, "```");
    ReplaceAllAbsent(r, CloseMarker, "```");
  }

  /** In `{@{@{x}@}@}c`, `{@{@{` starts only at the front. */
  lemma OpenOnlyAtFront(x: String, c: String)
    requires NoInnerOpen(x) && MarkerFree(c)
    ensures var t := OpenMarker + (x + (CloseMarker + c));
      forall k: nat | 0 < k <= |t| :: !StartsAt(t, k, OpenMarker)
  {
    var t := OpenMarker + (x + (CloseMarker + c));
    assert t == (OpenMarker + x) + (CloseMarker + c);
    assert t == ((OpenMarker + x) + CloseMarker) + c;
    forall k: nat | 0 < k <= |t| ensures !StartsAt(t, k, OpenMarker) {
      if k <= |x| {
        StartsAtWithin(OpenMarker + x, CloseMarker + c, k, OpenMarker);
      } else if k <= |x| + 5 {
        MarkerCharAt(|x| + 5 - k);
        WindowMismatch(t, k, OpenMarker, |x| + 5);
      } else if k < |x| + 10 {
        MarkerCharAt(k - |x| - 5);
        WindowMismatch(t, k, OpenMarker, k);
      } else {
        StartsAtShift((OpenMarker + x) + CloseMarker, c, k - |x| - 10, OpenMarker);
      }
    }
  }

  /** In a disguised block with no other marker around, `{@{@{` starts only at the opening. */
  lemma OpenMarkerOnlyAt(a: String, x: String, c: String)
    requires NoMarkerBefore(a) && NoInnerOpen(x) && MarkerFree(c)
    ensures var s := a + (OpenMarker + (x + (CloseMarker + c)));
      forall k: nat | k <= |s| && StartsAt(s, k, OpenMarker) :: k == |a|
  {
    var t := OpenMarker + (x + (CloseMarker + c));
    var s := a + t;
    MarkerAheadOfOpen(a, x + (CloseMarker + c));
    OpenOnlyAtFront(x, c);
    forall k: nat | k <= |s| ensures StartsAt(s, k, OpenMarker) ==> k == |a| {
      if k > |a| {
        StartsAtShift(a, t, k - |a|, OpenMarker);
      }
    }
  }

  /** The inline pass leaves a block whose body spans lines alone. */
  lemma InlinePassMultiLine(a: String, x: String, c: String)
    requires NoMarkerBefore(a) && OnlyOwnMarkers(x) && MarkerFree(c)
    requires !NoNewline(x)
    ensures ReplaceAllIn(a + (OpenMarker + (x + (CloseMarker + c))), SingleLineRec, InlineCode)
      == a + (OpenMarker + (x + (CloseMarker + c)))
  {
    var m := OpenMarker + (x + (CloseMarker + c));
    var s := a + m;
    var j :| 0 <= j < |x| && x[j] == '\n';
    LazyCloseFails(x, c, 1, j);
    assert s[|a|..] == m;
    OpenMarkerOnlyAt(a, x, c);
    forall k | 0 <= k < |s| ensures !MatchesHere(SingleLineRec, s[k..], k == 0) {
      StartsAtPrefix(s, k, OpenMarker);
    }
    NoMatchUnchanged(s, SingleLineRec, InlineCode, true);
  }

  /** A disguised block whose body spans lines, with no other marker around it, becomes a triple-backtick fence. */
  lemma UndisguiseFence(a: String, x: String, c: String)
    requires NoMarkerBefore(a) && OnlyOwnMarkers(x) && MarkerFree(c)
    requires !NoNewline(x)
    ensures Undisguise(a + (OpenMarker + (x + (CloseMarker + c)))) == a + ("```" + (x + ("```" + c)))
  {
    InlinePassMultiLine(a, x, c);
    OpenMarkerReplaced(a, x, c);
    CloseMarkerReplaced(a, x, c);
  }

  /** The opening marker of a fence (the only one in the text) becomes a triple backtick. */
  lemma OpenMarkerReplaced(a: String, x: String, c: String)
    requires NoMarkerBefore(a) && NoInnerOpen(x) && MarkerFree(c)
    ensures ReplaceAll(a + (OpenMarker + (x + (CloseMarker + c))), OpenMarker, "```")
      == a + ("```" + (x + (CloseMarker + c)))
  {
    var b := x + (CloseMarker + c);
    MarkerAheadOfOpen(a, b);
    ReplaceAllAfter(a, OpenMarker, "```", b);
    OpenOnlyAtFront(x, c);
    forall i: nat | i <= |b| ensures !StartsAt(b, i, OpenMarker) {
      StartsAtShift(OpenMarker, b, i, OpenMarker);
    }
    ReplaceAllAbsent(b, OpenMarker, "```");
  }

  /** The closing marker of a fence (the only one left) becomes a triple backtick. */
  lemma CloseMarkerReplaced(a: String, x: String, c: String)
    requires NoMarkerBefore(a) && NoInnerClose(x) && MarkerFree(c)
    ensures ReplaceAll(a + ("```" + (x + (CloseMarker + c))), CloseMarker, "```")
      == a + ("```" + (x + ("```" + c)))
  {
    var u := a + ("```" + x);
    var s := u + (CloseMarker + c);
    FenceAssoc(a, x, CloseMarker + c);
    MarkerFreeBefore(a);
    assert s == a + ("```" + (x + (CloseMarker + c)));
    assert s == (a + "```") + (x + (CloseMarker + c));
    forall i | 0 <= i < |u| ensures !StartsAt(s, i, CloseMarker) {
      if i + 5 <= |a| {
        StartsAtWithin(a, "```" + (x + (CloseMarker + c)), i, CloseMarker);
      } else if i < |a| {
        NotMarkerChar(s, i, |a|);
      } else if i < |a| + 3 {
        NotMarkerChar(s, i, i);
      } else {
        CloseInBody(a + "```", x, c, i - |a| - 3);
      }
    }
    ReplaceAllAfter(u, CloseMarker, "```", c);
    ReplaceAllAbsent(c, CloseMarker, "```");
    FenceAssoc(a, x, "```" + c);
  }

  /** A `}@}@}` starting inside a body is one of `x}@}@}`. */
  lemma CloseInBody(p: String, x: String, c: String, m: nat)
    requires NoInnerClose(x) && m < |x|
    ensures !StartsAt(p + (x + (CloseMarker + c)), |p| + m, CloseMarker)
  {
    StartsAtShift(p, x + (CloseMarker + c), m, CloseMarker);
    assert x + (CloseMarker + c) == (x + CloseMarker) + c;
    StartsAtWithin(x + CloseMarker, c, m, CloseMarker);
  }

  lemma FenceAssoc(a: String, x: String, y: String)
    ensures a + ("```" + (x + y)) == (a + ("```" + x)) + y
  {
  }

  /** Whatever the text, no disguise marker survives undisguising. */
  lemma UndisguiseLeavesNoMarker(s: String)
    ensures MarkerFree(Undisguise(s))
  {
    var inline := ReplaceAllIn(s, SingleLineRec, InlineCode);
    var u := ReplaceAll(inline, OpenMarker, "```");
    ReplaceAllLeavesNone(inline, OpenMarker, "```");
    ReplaceAllKeepsAbsent(u, CloseMarker, "```", OpenMarker);
    ReplaceAllLeavesNone(u, CloseMarker, "```");
  }

  // ---------------------------------------------------------------------
  // Routing: only text outside disguised fences is converted.

  /**
   * Where the lazy body of `nonCodeBlockRegexp` ends, searching from `q`:
   * at the end of the text, or just before a `{@{@{` that starts a line.
   */
  function SegmentEnd(s: String, q: nat): (r: nat)
    requires 1 <= q <= |s|
    decreases |s| - q
    ensures q <= r <= |s|
    ensures r < |s| ==> s[r - 1] == '\n' && StartsAt(s, r, OpenMarker)
    ensures forall i | q <= i < r :: !(s[i - 1] == '\n' && StartsAt(s, i, OpenMarker))
  {
    if q == |s| || (s[q - 1] == '\n' && StartsAt(s, q, OpenMarker)) then q
    else SegmentEnd(s, q + 1)
  }

  /** The match of `nonCodeBlockRegexp` whose body starts at `b`, closing fence marker included. */
  function SegmentFrom(s: String, b: nat): (m: Match)
    requires b < |s|
    ensures b < m.len <= |s|
  {
    var q := SegmentEnd(s, b + 1);
    var len := if q == |s| then q else q + 5;
    Match(len, [s[..len]])
  }

  /**
   * The pattern `(?m)(?:}@}@}$|\A)(?s)(.+?)(?:^{@{@{|\z)`: a segment starts
   * at a `}@}@}` that ends its line, or at the start of the text, and runs
   * lazily to the next `{@{@{` that starts a line, or to the end.
   */
  function NonCodeRec(s: String, atStart: bool): Option<Match> {
    if HasPrefix(s, CloseMarker) && |s| > 5 && s[5] == '\n' then Some(SegmentFrom(s, 5))
    else if atStart && s != [] then Some(SegmentFrom(s, 0))
    else None
  }

  /** The callback receives the whole match. */
  function ApplyToWhole(f: String -> String): seq<String> -> String {
    groups => f(Group(groups, 0))
  }

  /** convertNonCodeBlocks */
  function ConvertNonCodeBlocks(s: String, f: String -> String): String {
    ReplaceAllIn(s, NonCodeRec, ApplyToWhole(f))
  }

  /** The empty text is not converted at all: the pattern needs one character. */
  lemma ConvertNonCodeEmpty(f: String -> String)
    ensures ConvertNonCodeBlocks("", f) == ""
  {
  }

  /** No `{@{@{` starts a line of `s` after its first. */
  predicate NoLineOpen(s: String) {
    forall i | 1 <= i < |s| :: !(s[i - 1] == '\n' && StartsAt(s, i, OpenMarker))
  }

  /**
   * Text in which no line after the first starts with `{@{@{` is handed to
   * the conversion whole: markers in the middle of a line, such as those of
   * inline code, do not split it.
   */
  lemma ConvertNonCodeWithoutFences(s: String, f: String -> String)
    requires s != [] && NoLineOpen(s)
    ensures ConvertNonCodeBlocks(s, f) == f(s)
  {
    SegmentEndAtEnd(s, 1);
    if |s| >= 6 {
      SegmentEndAtEnd(s, 6);
    }
    assert s[..|s|] == s;
    assert NonCodeRec(s, true) == Some(Match(|s|, [s]));
    MatchWhole(s, NonCodeRec, ApplyToWhole(f), true);
    assert ApplyToWhole(f)([s]) == f(Group([s], 0)) == f(s);
  }

  /** Without a line-initial `{@{@{` from `q` on, the segment runs to the end. */
  lemma SegmentEndAtEnd(s: String, q: nat)
    requires 1 <= q <= |s|
    requires forall i | q <= i < |s| :: !(s[i - 1] == '\n' && StartsAt(s, i, OpenMarker))
    ensures SegmentEnd(s, q) == |s|
  {
  }

  /** The segment ends at the first line-initial `{@{@{` from `q` on. */
  lemma {:induction false} SegmentEndAt(s: String, q: nat, r: nat)
    requires 1 <= q <= r < |s|
    requires forall i | q <= i < r :: !StartsAt(s, i, OpenMarker)
    requires s[r - 1] == '\n' && StartsAt(s, r, OpenMarker)
    ensures SegmentEnd(s, q) == r
    decreases r - q
  {
    if q < r {
      SegmentEndAt(s, q + 1, r);
    }
  }

  /** A marker-free line, with its newline, holds no marker start. */
  lemma NoMarkerInLine(a: String, rest: String)
    requires MarkerFree(a)
    ensures forall i | 0 <= i <= |a| ::
      !StartsAt(a + ("\n" + rest), i, OpenMarker) && !StartsAt(a + ("\n" + rest), i, CloseMarker)
  {
    var s := a + ("\n" + rest);
    forall i | 0 <= i <= |a| ensures !StartsAt(s, i, OpenMarker) && !StartsAt(s, i, CloseMarker) {
      if i + 5 <= |a| {
        StartsAtWithin(a, "\n" + rest, i, OpenMarker);
        StartsAtWithin(a, "\n" + rest, i, CloseMarker);
      } else {
        NotMarkerChar(s, i, |a|);
      }
    }
  }

  /** The text before a fence, up to and including its `{@{@{`, is the first segment. */
  lemma LeadingSegment(a: String, rest: String)
    requires MarkerFree(a)
    ensures var s := a + ("\n" + (OpenMarker + rest));
      NonCodeRec(s, true) == Some(Match(|a| + 6, [a + "\n" + OpenMarker]))
  {
    var s := a + ("\n" + (OpenMarker + rest));
    NoMarkerInLine(a, OpenMarker + rest);
    StartsAtPrefix(s, 0, CloseMarker);
    assert s[0..] == s;
    assert s[|a|] == '\n' && s[|a| + 1..|a| + 6] == OpenMarker;
    SegmentEndAt(s, 1, |a| + 1);
    assert s[..|a| + 6] == a + "\n" + OpenMarker;
  }

  /** The text between two fences, from one `}@}@}` to the next `{@{@{`, is one segment. */
  lemma MiddleSegment(t: String, rest: String)
    requires MarkerFree(t)
    ensures var s := (CloseMarker + "\n" + t + "\n" + OpenMarker) + rest;
      NonCodeRec(s, false) == Some(Match(|t| + 12, [CloseMarker + "\n" + t + "\n" + OpenMarker]))
  {
    var p := CloseMarker + "\n";
    var s := (CloseMarker + "\n" + t + "\n" + OpenMarker) + rest;
    assert s == p + (t + ("\n" + (OpenMarker + rest)));
    NoMarkerInLine(t, OpenMarker + rest);
    forall i | 6 <= i <= |t| + 6 ensures !StartsAt(s, i, OpenMarker) {
      StartsAtShift(p, t + ("\n" + (OpenMarker + rest)), i - 6, OpenMarker);
    }
    assert s[..5] == CloseMarker && s[5] == '\n';
    assert s[|t| + 6] == '\n' && s[|t| + 7..|t| + 12] == OpenMarker;
    SegmentEndAt(s, 6, |t| + 7);
    assert s[..|t| + 12] == CloseMarker + "\n" + t + "\n" + OpenMarker;
  }

  /** From a `}@}@}` that ends its line, with no further marker, the segment runs to the end. */
  lemma TrailingSegment(c: String, f: String -> String)
    requires MarkerFree(c)
    ensures ReplaceAllFunc(CloseMarker + ("\n" + c), NonCodeRec, ApplyToWhole(f), false) == f(CloseMarker + ("\n" + c))
  {
    var p := CloseMarker + "\n";
    var t := CloseMarker + ("\n" + c);
    assert t == p + c;
    forall i | 6 <= i < |t| ensures !StartsAt(t, i, OpenMarker) {
      StartsAtShift(p, c, i - 6, OpenMarker);
    }
    assert t[..5] == CloseMarker && t[5] == '\n';
    SegmentEndAtEnd(t, 6);
    assert t[..|t|] == t;
    assert NonCodeRec(t, false) == Some(Match(|t|, [t]));
    MatchWhole(t, NonCodeRec, ApplyToWhole(f), false);
    assert ApplyToWhole(f)([t]) == f(Group([t], 0)) == f(t);
  }

  /** No segment of the router starts inside a fence body: scanning resumes at its `}@}@}`. */
  lemma BodySkipped(b: String, y: String, f: String -> String)
    requires NoInnerClose(b) && HasPrefix(y, CloseMarker)
    ensures ReplaceAllFunc(b + y, NonCodeRec, ApplyToWhole(f), false) == b + ReplaceAllFunc(y, NonCodeRec, ApplyToWhole(f), false)
  {
    if b == [] {
      assert b + y == y;
    } else {
      assert y == CloseMarker + y[5..];
      assert b + y == (b + CloseMarker) + y[5..];
      forall k | 0 <= k < |b| ensures !MatchesHere(NonCodeRec, (b + y)[k..], false) {
        StartsAtPrefix(b + y, k, CloseMarker);
        StartsAtWithin(b + CloseMarker, y[5..], k, CloseMarker);
      }
      SkipPrefix(b, y, NonCodeRec, ApplyToWhole(f), false);
    }
  }

  /** A fence body is skipped by the router and the text after the fence is converted whole. */
  lemma FenceBodySkipped(b: String, c: String, f: String -> String)
    requires NoInnerClose(b) && MarkerFree(c)
    ensures ReplaceAllFunc(b + (CloseMarker + ("\n" + c)), NonCodeRec, ApplyToWhole(f), false)
      == b + f(CloseMarker + ("\n" + c))
  {
    TrailingSegment(c, f);
    BodySkipped(b, CloseMarker + ("\n" + c), f);
  }

  /**
   * Only text outside a disguised fence goes through the conversion: the
   * text before the fence is converted together with the fence's opening
   * marker, the text after it together with the closing marker, and the
   * fence body comes out exactly as it went in.
   */
  lemma ConvertNonCodeKeepsFenceBody(a: String, b: String, c: String, f: String -> String)
    requires MarkerFree(a) && NoInnerClose(b) && MarkerFree(c)
    ensures ConvertNonCodeBlocks(a + ("\n" + (OpenMarker + (b + (CloseMarker + ("\n" + c))))), f)
      == f(a + "\n" + OpenMarker) + (b + f(CloseMarker + ("\n" + c)))
  {
    var rest := b + (CloseMarker + ("\n" + c));
    var s := a + ("\n" + (OpenMarker + rest));
    var p1 := a + "\n" + OpenMarker;
    LeadingSegment(a, rest);
    assert s == p1 + rest;
    MatchAtFront(p1, rest, NonCodeRec, ApplyToWhole(f), true);
    assert ApplyToWhole(f)([p1]) == f(Group([p1], 0)) == f(p1);
    FenceBodySkipped(b, c, f);
  }

  /** The conversion that changes nothing. */
  function Identity(s: String): String { s }

  /** A segment's only group is the segment itself. */
  lemma SegmentGroups(s: String, atStart: bool)
    requires NonCodeRec(s, atStart).Some?
    ensures var m := NonCodeRec(s, atStart).value; m.groups == [s[..m.len]]
  {
    if HasPrefix(s, CloseMarker) && |s| > 5 && s[5] == '\n' {
      var m := SegmentFrom(s, 5);
    } else {
      var m := SegmentFrom(s, 0);
    }
  }

  /**
   * The router loses and repeats nothing, whatever the text: segments and
   * skipped fence bodies put back together give the text itself.
   */
  lemma ConvertNonCodeIdentity(s: String)
    ensures ConvertNonCodeBlocks(s, Identity) == s
  {
    forall t: String, b: bool | MatchesHere(NonCodeRec, t, b)
      ensures ApplyToWhole(Identity)(NonCodeRec(t, b).value.groups) == t[..NonCodeRec(t, b).value.len]
    {
      SegmentGroups(t, b);
      var m := NonCodeRec(t, b).value;
      assert ApplyToWhole(Identity)(m.groups) == Identity(Group(m.groups, 0));
    }
    CopyingUnchanged(s, NonCodeRec, ApplyToWhole(Identity), true);
  }

  /** A fence of a disguised text: its body, and the text after the line its `}@}@}` ends. */
  datatype Fence = Fence(body: String, after: String)

  /**
   * `lead + t`, then for each fence a line-initial `{@{@{`, its body, and a
   * `}@}@}` ending its line, followed by the fence's `after` text.
   */
  function Fenced(lead: String, t: String, fences: seq<Fence>): String
    decreases |fences|
  {
    if fences == [] then lead + t
    else (lead + t + "\n" + OpenMarker) + (fences[0].body + Fenced(CloseMarker + "\n", fences[0].after, fences[1..]))
  }

  /** `Fenced` with `f` applied to each stretch outside the fence bodies, markers included. */
  function Routed(lead: String, t: String, fences: seq<Fence>, f: String -> String): String
    decreases |fences|
  {
    if fences == [] then f(lead + t)
    else f(lead + t + "\n" + OpenMarker) + (fences[0].body + Routed(CloseMarker + "\n", fences[0].after, fences[1..], f))
  }

  /** Each body holds no `}@}@}` before its own and each text after a fence no marker. */
  predicate WellFenced(fences: seq<Fence>) {
    forall k | 0 <= k < |fences| :: NoInnerClose(fences[k].body) && MarkerFree(fences[k].after)
  }

  lemma FencedAfterClose(t: String, fences: seq<Fence>)
    ensures HasPrefix(Fenced(CloseMarker + "\n", t, fences), CloseMarker)
  {
    var s := Fenced(CloseMarker + "\n", t, fences);
    if fences == [] {
      assert s == CloseMarker + ("\n" + t);
    } else {
      assert s == CloseMarker + (("\n" + t + "\n" + OpenMarker) + (fences[0].body + Fenced(CloseMarker + "\n", fences[0].after, fences[1..])));
    }
    assert s[..5] == CloseMarker;
  }

  lemma {:induction false} RouteFrom(lead: String, t: String, fences: seq<Fence>, f: String -> String)
    requires lead == [] || lead == CloseMarker + "\n"
    requires MarkerFree(t) && WellFenced(fences)
    requires lead != [] || t != [] || fences != []
    ensures ReplaceAllFunc(Fenced(lead, t, fences), NonCodeRec, ApplyToWhole(f), lead == []) == Routed(lead, t, fences, f)
    decreases |fences|
  {
    if fences == [] {
      if lead == [] {
        assert lead + t == t;
        ConvertNonCodeWithoutFences(t, f);
      } else {
        assert lead + t == CloseMarker + ("\n" + t);
        TrailingSegment(t, f);
      }
    } else {
      var seg := lead + t + "\n" + OpenMarker;
      var tail := Fenced(CloseMarker + "\n", fences[0].after, fences[1..]);
      var rest := fences[0].body + tail;
      if lead == [] {
        assert seg + rest == t + ("\n" + (OpenMarker + rest));
        assert seg == t + "\n" + OpenMarker;
        LeadingSegment(t, rest);
      } else {
        assert seg == CloseMarker + "\n" + t + "\n" + OpenMarker;
        MiddleSegment(t, rest);
      }
      MatchAtFront(seg, rest, NonCodeRec, ApplyToWhole(f), lead == []);
      assert ApplyToWhole(f)([seg]) == f(Group([seg], 0)) == f(seg);
      FencedAfterClose(fences[0].after, fences[1..]);
      BodySkipped(fences[0].body, tail, f);
      assert WellFenced(fences[1..]) by {
        forall k | 0 <= k < |fences[1..]| ensures NoInnerClose(fences[1..][k].body) && MarkerFree(fences[1..][k].after) {
          assert fences[1..][k] == fences[k + 1];
        }
      }
      RouteFrom(CloseMarker + "\n", fences[0].after, fences[1..], f);
    }
  }

  /**
   * Whatever the number of fences, the router applies the conversion to
   * each stretch of text between them, each together with the markers that
   * bound it, and copies every fence body unchanged.
   */
  lemma ConvertNonCodeFences(t: String, fences: seq<Fence>, f: String -> String)
    requires MarkerFree(t) && WellFenced(fences)
    requires t != [] || fences != []
    ensures ConvertNonCodeBlocks(Fenced([], t, fences), f) == Routed([], t, fences, f)
  {
    RouteFrom([], t, fences, f);
  }
}
