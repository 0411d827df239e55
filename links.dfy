/**
 * Trac link conversion (markdown/link.go).
 *
 * Links are converted in three phases. The bracket phase disposes of Trac's
 * `[[…]]` and `[…]` syntax; the resolve phase turns each Trac link form into
 * a "marked" URL `(@@url@@)` by asking the Gitea and Trac accessors, and
 * leaves the link text alone when a lookup fails; the unmark phase turns the
 * marks into Markdown links and autolinks and drops the zero-width spaces the
 * bracket phase left behind.
 */
module Links {
  import opened Wrappers
  import opened Text
  import opened Scanning

  /** The "no such entity" identifiers of the Trac and Gitea accessors. */
  const TracNullID: int := -1
  const GiteaNullID: int := -1

  /** The Gitea accessor calls the link converter makes; errors are `Err`. */
  datatype GiteaAccessor = GiteaAccessor(
    getIssueID: int -> Result<int, String>,
    getIssueCommentIDsByTime: (int, int) -> Result<seq<int>, String>,
    getIssueCommentURL: (int, int) -> String,
    getMilestoneID: String -> Result<int, String>,
    getMilestoneURL: int -> String,
    getIssueAttachmentUUID: (int, String) -> Result<String, String>,
    getIssueAttachmentURL: (int, String) -> String,
    getWikiAttachmentRelPath: (String, String) -> String,
    getWikiFileURL: String -> String,
    getWikiHtdocRelPath: String -> String,
    getCommitURL: String -> String,
    getSourceURL: (String, String) -> String,
    getIssueURL: int -> String,
    translateWikiPageName: String -> String)

  /** The Trac accessor calls the link converter makes. */
  datatype TracAccessor = TracAccessor(
    getTicketCommentTime: (int, int) -> Result<int, String>)

  // ---------------------------------------------------------------------
  // Character classes of the link patterns.

  /** `[[:alnum:]\-._~:/?#@!$&'"()*+,;%=]`: URL characters of http, htdocs and milestone links. */
  predicate IsUrlChar(c: char) { IsAlnum(c) || c in "-._~:/?#@!$&'\"()*+,;%=" }

  /** Attachment names: the URL characters without `:`. */
  predicate IsAttachmentChar(c: char) { IsAlnum(c) || c in "-._~/?#@!$&'\"()*+,;%=" }

  /** The `link=` target of an image: the URL characters without `)` and `,`. */
  predicate IsImageLinkChar(c: char) { IsAlnum(c) || c in "-._~:/?#@!$&'\"(*+;%=" }

  /** `[[:alnum:]-._,]`: characters of a local file name. */
  predicate IsLocalFileChar(c: char) { IsAlnum(c) || c in "-._," }

  /** Characters of a `wiki:` page name. */
  predicate IsWikiPageChar(c: char) { IsAlnum(c) || c in ":-._&'" }

  /** Characters of a `wiki:` anchor. */
  predicate IsWikiAnchorChar(c: char) { IsAlnum(c) || c in "?/:@-._~!$&'*+,;=" }

  /** Characters of a CamelCase anchor (the `wiki:` ones plus brackets). */
  predicate IsCamelAnchorChar(c: char) { IsAlnum(c) || c in "?/:@-._~!$&'()*+,;=" }

  /** What may stand before a CamelCase link: a space, a zero-width space or `]`. */
  predicate IsCamelLead(c: char) { IsPosixSpace(c) || c == ZeroWidthSpace || c == ']' }

  function ZWSP(): String { [ZeroWidthSpace] }

  // ---------------------------------------------------------------------
  // Marks.

  /** markLink: the marked form every resolved link takes until the unmark phase. */
  function Mark(u: String): String { "(@@" + u + "@@)" }

  /** `strings.EqualFold(link, "br")`. */
  predicate IsBr(link: String) {
    |link| == 2 && (link[0] == 'b' || link[0] == 'B') && (link[1] == 'r' || link[1] == 'R')
  }

  // ---------------------------------------------------------------------
  // Recognisers, one per pattern. Groups are [whole, $1, $2, …].

  /** `https?://` then URL characters up to the last alphanumeric one. */
  function HttpRec(s: String, atStart: bool): (r: Option<Match>)
    ensures r.Some? ==> (HasPrefix(s, "http://") || HasPrefix(s, "https://")) && 0 < r.value.len <= |s|
  {
    var p := if HasPrefix(s, "https://") then 8 else if HasPrefix(s, "http://") then 7 else 0;
    if p == 0 then None
    else
      var body := s[p..];
      var n := AlnumPrefixEnd(body[..Run(body, IsUrlChar)]);
      if n == 0 then None else Some(Match(p + n, [s[..p + n]]))
  }

  /** Somewhere in `u` an http(s) link starts (`httpLinkRegexp.MatchString`). */
  predicate ContainsHttpLink(u: String) {
    exists k | 0 <= k < |u| :: HttpRec(u[k..], k == 0).Some?
  }

  /** `keyword` followed by a non-empty run of `p`; group 1 is the run. */
  function KeywordRun(s: String, keyword: String, p: char -> bool): (r: Option<Match>)
    ensures r.Some? ==> HasPrefix(s, keyword) && |keyword| < r.value.len <= |s|
  {
    if HasPrefix(s, keyword) then
      var n := Run(s[|keyword|..], p);
      if n == 0 then None
      else Some(Match(|keyword| + n, [s[..|keyword| + n], s[|keyword|..|keyword| + n]]))
    else None
  }

  /** `htdocs:([URL chars]+)` */
  function HtdocsRec(s: String, atStart: bool): Option<Match> { KeywordRun(s, "htdocs:", IsUrlChar) }

  /** `milestone:([URL chars]+)` */
  function MilestoneRec(s: String, atStart: bool): Option<Match> { KeywordRun(s, "milestone:", IsUrlChar) }

  /** `ticket:([[:digit:]]+)` */
  function TicketRec(s: String, atStart: bool): Option<Match> { KeywordRun(s, "ticket:", IsDigit) }

  /** `comment:([[:digit:]]+)(?::ticket:([[:digit:]]+))?` */
  function CommentRec(s: String, atStart: bool): (r: Option<Match>)
    ensures r.Some? ==> HasPrefix(s, "comment:") && r.value.len <= |s|
  {
    match KeywordRun(s, "comment:", IsDigit)
    case None => None
    case Some(m) =>
      match KeywordRun(s[m.len..], ":ticket:", IsDigit)
      case None => Some(Match(m.len, m.groups + [""]))
      case Some(t) => Some(Match(m.len + t.len, [s[..m.len + t.len], m.groups[1], t.groups[1]]))
  }

  /** `(?:[[:upper:]][[:lower:]]*)+`: an upper-case letter and then any letters. */
  function WikiNameRun(s: String): (n: nat)
    ensures n <= |s|
  {
    if s != [] && IsUpper(s[0]) then 1 + Run(s[1..], IsAlpha) else 0
  }

  /**
   * `attachment:([attachment chars]+)` then optionally `:wiki:` and a page
   * name, or `:ticket:` and digits; groups [whole, file, page, ticket].
   */
  function AttachmentRec(s: String, atStart: bool): (r: Option<Match>)
    ensures r.Some? ==> HasPrefix(s, "attachment:") && r.value.len <= |s|
  {
    match KeywordRun(s, "attachment:", IsAttachmentChar)
    case None => None
    case Some(m) =>
      var rest := s[m.len..];
      var file := m.groups[1];
      if HasPrefix(rest, ":wiki:") && WikiNameRun(rest[6..]) > 0 then
        var n := m.len + 6 + WikiNameRun(rest[6..]);
        Some(Match(n, [s[..n], file, s[m.len + 6..n], ""]))
      else
        match KeywordRun(rest, ":ticket:", IsDigit)
        case Some(t) => Some(Match(m.len + t.len, [s[..m.len + t.len], file, "", t.groups[1]]))
        case None => Some(Match(m.len, [s[..m.len], file, "", ""]))
  }

  /** `changeset:"([[:xdigit:]]+)/[^"]+"`; group 1 is the commit id. */
  function ChangesetRec(s: String, atStart: bool): (r: Option<Match>)
    ensures r.Some? ==> HasPrefix(s, "changeset:\"") && r.value.len <= |s|
  {
    if !HasPrefix(s, "changeset:\"") then None
    else
      var x := Run(s[11..], IsXDigit);
      var slash := 11 + x;
      if x == 0 || slash >= |s| || s[slash] != '/' then None
      else
        var n := Run(s[slash + 1..], c => c != '"');
        var quote := slash + 1 + n;
        if n == 0 || quote >= |s| then None
        else Some(Match(quote + 1, [s[..quote + 1], s[11..slash]]))
  }

  /** `source:"[^/]+/([^"]+)"`; group 1 is the path after the first `/`. */
  function SourceRec(s: String, atStart: bool): (r: Option<Match>)
    ensures r.Some? ==> HasPrefix(s, "source:\"") && r.value.len <= |s|
  {
    if !HasPrefix(s, "source:\"") then None
    else
      var a := Run(s[8..], c => c != '/');
      var slash := 8 + a;
      if a == 0 || slash >= |s| then None
      else
        var n := Run(s[slash + 1..], c => c != '"');
        var quote := slash + 1 + n;
        if n == 0 || quote >= |s| then None
        else Some(Match(quote + 1, [s[..quote + 1], s[slash + 1..quote]]))
  }

  /**
   * `wiki:([page chars]*[[:alnum:]])(?:#([anchor chars]+))?`: the page name
   * ends at the last alphanumeric character of the run.
   */
  function WikiRec(s: String, atStart: bool): (r: Option<Match>)
    ensures r.Some? ==> HasPrefix(s, "wiki:") && r.value.len <= |s|
  {
    if !HasPrefix(s, "wiki:") then None
    else
      var p := WikiPageLen(s);
      var e := 5 + p;
      if p == 0 then None
      else
        var t := WikiAnchorLen(s, e);
        if t > 0 then
          var n := e + 1 + t;
          Some(Match(n, [s[..n], s[5..e], s[e + 1..n]]))
        else Some(Match(e, [s[..e], s[5..e], ""]))
  }

  /** The length of the page name after `wiki:`: the page characters, cut back to the last alphanumeric one. */
  function WikiPageLen(s: String): (p: nat)
    requires |s| >= 5
    ensures 5 + p <= |s|
  {
    var body := s[5..];
    AlnumPrefixEnd(body[..Run(body, IsWikiPageChar)])
  }

  /** The length of the anchor after a `#` at `e`; 0 without one. */
  function WikiAnchorLen(s: String, e: nat): (t: nat)
    requires e <= |s|
    ensures t > 0 ==> e + 1 + t <= |s|
  {
    if e < |s| && s[e] == '#' then Run(s[e + 1..], IsWikiAnchorChar) else 0
  }

  /** Length of one syllable: the leading character and the lower-case letters after it. */
  function SyllableLen(s: String): nat
    requires s != []
  {
    1 + Run(s[1..], IsLower)
  }

  /** Number and total length of the leading `[[:upper:]][[:lower:]]+` syllables. */
  function Syllables(s: String): (r: (nat, nat))
    ensures r.1 <= |s|
    decreases |s|
  {
    if |s| >= 2 && IsUpper(s[0]) && IsLower(s[1]) then
      var rest := Syllables(s[SyllableLen(s)..]);
      (rest.0 + 1, SyllableLen(s) + rest.1)
    else (0, 0)
  }

  /** The CamelCase name and optional anchor from index `i` on; `s[..i]` is the lead. */
  function CamelFrom(s: String, i: nat): (r: Option<Match>)
    requires i <= |s|
    ensures r.Some? ==> r.value.len <= |s|
  {
    var e := i + Syllables(s[i..]).1;
    if Syllables(s[i..]).0 < 2 then None
    else
      var t := CamelAnchorLen(s, e);
      if t > 0 then
        var n := e + 1 + t;
        Some(Match(n, [s[..n], s[..i], s[i..e], s[e + 1..n]]))
      else Some(Match(e, [s[..e], s[..i], s[i..e], ""]))
  }

  /** The length of the anchor after a `#` at `e`; 0 without one. */
  function CamelAnchorLen(s: String, e: nat): (t: nat)
    requires e <= |s|
    ensures t > 0 ==> e + 1 + t <= |s|
  {
    if e < |s| && s[e] == '#' then Run(s[e + 1..], IsCamelAnchorChar) else 0
  }

  /**
   * `([[:space:]\x{200B}\]]|\A)((?:[[:upper:]][[:lower:]]+){2,})(?:#([anchor chars]+))?`;
   * groups [whole, lead, name, anchor].
   */
  function CamelCaseRec(s: String, atStart: bool): (r: Option<Match>)
    ensures r.Some? ==> r.value.len <= |s|
  {
    if s != [] && IsCamelLead(s[0]) then CamelFrom(s, 1)
    else if atStart then CamelFrom(s, 0)
    else None
  }

  /** `^[[:alnum:]-._,]+\.[[:alpha:]]+$` */
  predicate IsLocalFile(name: String) {
    exists i | 1 <= i < |name| - 1 :: name[i] == '.' &&
      (forall j | 0 <= j < i :: IsLocalFileChar(name[j])) &&
      (forall j | i < j < |name| :: IsAlpha(name[j]))
  }

  /** `[^\]]*\]\]` from `from`: the first `]` must be followed by another; the end of the match. */
  function ImageTail(s: String, from: nat): (r: Option<nat>)
    ensures r.Some? ==> from + 2 <= r.value <= |s|
  {
    match IndexFrom(s, from, ']')
    case None => None
    case Some(q) => if q + 1 < |s| && s[q + 1] == ']' then Some(q + 2) else None
  }

  /** The image group has length `g`: try `, *link=…` first, then without it. */
  function ImageWith(s: String, g: nat): (r: Option<Match>)
    requires 8 + g <= |s|
  {
    var p := 8 + g;
    var spaces := if p < |s| && s[p] == ',' then Run(s[p + 1..], c => c == ' ') else 0;
    var l := p + 1 + spaces;
    var withLink :=
      if p < |s| && s[p] == ',' && StartsAt(s, l, "link=") && Run(s[l + 5..], IsImageLinkChar) > 0
      then Some(l + 5 + Run(s[l + 5..], IsImageLinkChar)) else None;
    match ImageTail(s, if withLink.Some? then withLink.value else p)
    case Some(n) =>
      if withLink.Some? then Some(Match(n, [s[..n], s[8..p], s[l + 5..withLink.value]]))
      else Some(Match(n, [s[..n], s[8..p], ""]))
    case None => None
  }

  /** Greedy image group `[^,)]+`: the longest length `g` that lets the rest match. */
  function ImageSearch(s: String, g: nat): Option<Match>
    requires 8 + g <= |s|
    decreases g
  {
    if g == 0 then None
    else match ImageWith(s, g)
      case Some(m) => Some(m)
      case None => ImageSearch(s, g - 1)
  }

  /** `\[\[Image\(([^,)]+)(?:, *link=([link chars]+))?[^\]]*\]\]`; groups [whole, image, link]. */
  function ImageRec(s: String, atStart: bool): (r: Option<Match>)
    ensures r.Some? ==> HasPrefix(s, "[[Image(")
  {
    if !HasPrefix(s, "[[Image(") then None
    else ImageSearch(s, Run(s[8..], c => c != ',' && c != ')'))
  }

  /** `[^|\]]`: a character of a bracketted link target. */
  predicate NotBarOrClose(c: char) { c != '|' && c != ']' }

  /** `[^\]]`: a character of bracketted link text. */
  predicate NotClose(c: char) { c != ']' }

  /** `\[\[([[:alpha:]][^|\]]*)(?:\|([^\]]+))?\]\]`; groups [whole, link, text]. */
  function DoubleBracketRec(s: String, atStart: bool): (r: Option<Match>)
    ensures r.Some? ==> HasPrefix(s, "[[") && r.value.len <= |s|
  {
    if !(|s| >= 3 && s[0] == '[' && s[1] == '[' && IsAlpha(s[2])) then None
    else
      var p := DoubleTargetEnd(s);
      var t := DoubleTextLen(s, p);
      if t > 0 && StartsAt(s, p + 1 + t, "]]") then
        Some(Match(p + 3 + t, [s[..p + 3 + t], s[2..p], s[p + 1..p + 1 + t]]))
      else if StartsAt(s, p, "]]") then Some(Match(p + 2, [s[..p + 2], s[2..p], ""]))
      else None
  }

  /** Where the target of a double-bracket link ends: the first `|` or `]` after its first letter. */
  function DoubleTargetEnd(s: String): (p: nat)
    requires |s| >= 3
    ensures 3 <= p <= |s|
  {
    3 + Run(s[3..], NotBarOrClose)
  }

  /** The length of the link text after a `|` at `p`; 0 without one. */
  function DoubleTextLen(s: String, p: nat): (t: nat)
    requires p <= |s|
    ensures p + t <= |s|
  {
    if p < |s| && s[p] == '|' then Run(s[p + 1..], NotClose) else 0
  }

  /** `\[([[:alpha:]][^ \]]*)(?: +([^\]]+))?\]`; groups [whole, link, text]. */
  function SingleBracketRec(s: String, atStart: bool): (r: Option<Match>)
    ensures r.Some? ==> HasPrefix(s, "[") && r.value.len <= |s|
  {
    if !(|s| >= 2 && s[0] == '[' && IsAlpha(s[1])) then None
    else
      var p := SingleTargetEnd(s);
      var n := SpaceRunAt(s, p);
      var t := SingleTextLen(s, p + n);
      if n > 0 && t > 0 && p + n + t < |s| then
        Some(Match(p + n + t + 1, [s[..p + n + t + 1], s[1..p], s[p + n..p + n + t]]))
      else if n >= 2 && t == 0 && p + n < |s| then
        // the text backs off to the last space so that `]` can follow
        Some(Match(p + n + 1, [s[..p + n + 1], s[1..p], " "]))
      else if p < |s| && s[p] == ']' then Some(Match(p + 1, [s[..p + 1], s[1..p], ""]))
      else None
  }

  /** `[^ \]]`: a character of a single-bracket link target. */
  predicate NotSpaceOrClose(c: char) { c != ' ' && c != ']' }

  /** ` `: the separator between a single-bracket target and its text. */
  predicate IsPlainSpace(c: char) { c == ' ' }

  /** Where the target of a single-bracket link ends: the first space or `]` after its first letter. */
  function SingleTargetEnd(s: String): (p: nat)
    requires |s| >= 2
    ensures 2 <= p <= |s|
  {
    2 + Run(s[2..], NotSpaceOrClose)
  }

  /** The number of spaces starting at `p`. */
  function SpaceRunAt(s: String, p: nat): (n: nat)
    requires p <= |s|
    ensures p + n <= |s|
  {
    Run(s[p..], IsPlainSpace)
  }

  /** The length of the run of non-`]` characters starting at `q`. */
  function SingleTextLen(s: String, q: nat): (t: nat)
    requires q <= |s|
    ensures q + t <= |s|
  {
    Run(s[q..], NotClose)
  }

  /** `\(@@([^@]+)@@\)`; groups [whole, url]. */
  function MarkedRec(s: String, atStart: bool): (r: Option<Match>)
    ensures r.Some? ==> HasPrefix(s, "(@@") && r.value.len <= |s|
  {
    if !HasPrefix(s, "(@@") then None
    else
      var n := Run(s[3..], c => c != '@');
      if n > 0 && StartsAt(s, 3 + n, "@@)") then Some(Match(n + 6, [s[..n + 6], s[3..3 + n]]))
      else None
  }

  /** `([^\]])\(@@([^@]+)@@\)`; groups [whole, lead, url]. */
  function NoTextMarkedRec(s: String, atStart: bool): (r: Option<Match>)
    ensures r.Some? ==> |s| > 0 && s[0] != ']' && r.value.len <= |s|
  {
    if s == [] || s[0] == ']' then None
    else match MarkedRec(s[1..], false)
      case None => None
      case Some(m) => Some(Match(m.len + 1, [s[..m.len + 1], s[..1], m.groups[1]]))
  }

  // ---------------------------------------------------------------------
  // Resolution of one link; a failed lookup leaves the link text alone.

  /** A found URL is marked; no URL leaves the link as it was. */
  function Resolved(link: String, url: Option<String>): String {
    if url.Some? then Mark(url.value) else link
  }

  function ResolveHTTPLink(link: String): String { Mark(link) }

  /** The htdocs file is copied into the wiki (not modelled) and linked there. */
  function ResolveHtdocsLink(g: GiteaAccessor, path: String): String {
    Mark(g.getWikiFileURL(g.getWikiHtdocRelPath(path)))
  }

  /** The Gitea issue of a Trac ticket, if there is one. */
  function IssueOf(g: GiteaAccessor, ticketID: int): Option<int> {
    var r := g.getIssueID(ticketID);
    if r.Err? || r.value == GiteaNullID then None else Some(r.value)
  }

  /** The ticket a comment link refers to: its `:ticket:` suffix, else the current ticket. */
  function CommentTicket(ticketID: int, ticketStr: String): Option<int> {
    if ticketStr != "" then ParseDecimal(ticketStr)
    else if ticketID == TracNullID then None
    else Some(ticketID)
  }

  function CommentURL(g: GiteaAccessor, t: TracAccessor, ticketID: int, numStr: String, ticketStr: String): Option<String> {
    match ParseDecimal(numStr)
    case None => None
    case Some(num) =>
      match CommentTicket(ticketID, ticketStr)
      case None => None
      case Some(tid) =>
        match IssueOf(g, tid)
        case None => None
        case Some(issue) =>
          var time := t.getTicketCommentTime(tid, num);
          if time.Err? || time.value == 0 then None
          else
            var ids := g.getIssueCommentIDsByTime(issue, time.value);
            if ids.Err? || ids.value == [] then None
            else Some(g.getIssueCommentURL(issue, ids.value[0]))
  }

  function ResolveTicketCommentLink(g: GiteaAccessor, t: TracAccessor, ticketID: int, link: String, numStr: String, ticketStr: String): String {
    Resolved(link, CommentURL(g, t, ticketID, numStr, ticketStr))
  }

  function MilestoneURL(g: GiteaAccessor, name: String): Option<String> {
    var r := g.getMilestoneID(name);
    if r.Err? || r.value == GiteaNullID then None else Some(g.getMilestoneURL(r.value))
  }

  function ResolveMilestoneLink(g: GiteaAccessor, link: String, name: String): String {
    Resolved(link, MilestoneURL(g, name))
  }

  function TicketAttachmentURL(g: GiteaAccessor, ticketID: int, name: String): Option<String> {
    match IssueOf(g, ticketID)
    case None => None
    case Some(issue) =>
      var uuid := g.getIssueAttachmentUUID(issue, name);
      if uuid.Err? || uuid.value == "" then None
      else Some(g.getIssueAttachmentURL(issue, uuid.value))
  }

  function WikiAttachmentURL(g: GiteaAccessor, page: String, name: String): String {
    g.getWikiFileURL(g.getWikiAttachmentRelPath(page, name))
  }

  /** An explicit `:ticket:`, else an explicit `:wiki:`, else the current ticket, else the current page. */
  function AttachmentURL(g: GiteaAccessor, ticketID: int, wikiPage: String, name: String, page: String, ticketStr: String): Option<String> {
    if ticketStr != "" then
      match ParseDecimal(ticketStr)
      case None => None
      case Some(tid) => TicketAttachmentURL(g, tid, name)
    else if page != "" then Some(WikiAttachmentURL(g, page, name))
    else if ticketID != TracNullID then TicketAttachmentURL(g, ticketID, name)
    else if wikiPage != "" then Some(WikiAttachmentURL(g, wikiPage, name))
    else None
  }

  function ResolveAttachmentLink(g: GiteaAccessor, ticketID: int, wikiPage: String, link: String, name: String, page: String, ticketStr: String): String {
    Resolved(link, AttachmentURL(g, ticketID, wikiPage, name, page, ticketStr))
  }

  function ResolveChangesetLink(g: GiteaAccessor, id: String): String { Mark(g.getCommitURL(id)) }

  /** Trac source links carry no branch; `master` is assumed. */
  function ResolveSourceLink(g: GiteaAccessor, path: String): String { Mark(g.getSourceURL("master", path)) }

  function TicketURL(g: GiteaAccessor, idStr: String): Option<String> {
    match ParseDecimal(idStr)
    case None => None
    case Some(id) =>
      match IssueOf(g, id)
      case None => None
      case Some(issue) => Some(g.getIssueURL(issue))
  }

  function ResolveTicketLink(g: GiteaAccessor, link: String, idStr: String): String {
    Resolved(link, TicketURL(g, idStr))
  }

  /** The translated page name, with `#anchor` when there is one. */
  function WikiTarget(g: GiteaAccessor, page: String, anchor: String): String {
    if anchor == "" then g.translateWikiPageName(page)
    else g.translateWikiPageName(page) + "#" + anchor
  }

  function ResolveWikiLink(g: GiteaAccessor, page: String, anchor: String): String {
    Mark(WikiTarget(g, page, anchor))
  }

  /** The character before a CamelCase name stays outside the mark. */
  function ResolveWikiCamelCaseLink(g: GiteaAccessor, lead: String, page: String, anchor: String): String {
    lead + Mark(WikiTarget(g, page, anchor))
  }

  // ---------------------------------------------------------------------
  // The replacement callbacks of each pass.

  function HttpReplacer(groups: seq<String>): String { ResolveHTTPLink(Group(groups, 0)) }

  function HtdocsReplacer(g: GiteaAccessor): seq<String> -> String {
    groups => ResolveHtdocsLink(g, Group(groups, 1))
  }

  function CommentReplacer(g: GiteaAccessor, t: TracAccessor, ticketID: int): seq<String> -> String {
    groups => ResolveTicketCommentLink(g, t, ticketID, Group(groups, 0), Group(groups, 1), Group(groups, 2))
  }

  function MilestoneReplacer(g: GiteaAccessor): seq<String> -> String {
    groups => ResolveMilestoneLink(g, Group(groups, 0), Group(groups, 1))
  }

  function AttachmentReplacer(g: GiteaAccessor, ticketID: int, wikiPage: String): seq<String> -> String {
    groups => ResolveAttachmentLink(g, ticketID, wikiPage, Group(groups, 0), Group(groups, 1), Group(groups, 2), Group(groups, 3))
  }

  function ChangesetReplacer(g: GiteaAccessor): seq<String> -> String {
    groups => ResolveChangesetLink(g, Group(groups, 1))
  }

  function SourceReplacer(g: GiteaAccessor): seq<String> -> String {
    groups => ResolveSourceLink(g, Group(groups, 1))
  }

  function TicketReplacer(g: GiteaAccessor): seq<String> -> String {
    groups => ResolveTicketLink(g, Group(groups, 0), Group(groups, 1))
  }

  function WikiReplacer(g: GiteaAccessor): seq<String> -> String {
    groups => ResolveWikiLink(g, Group(groups, 1), Group(groups, 2))
  }

  function CamelCaseReplacer(g: GiteaAccessor): seq<String> -> String {
    groups => ResolveWikiCamelCaseLink(g, Group(groups, 1), Group(groups, 2), Group(groups, 3))
  }

  /** Images become Markdown images; a bare local file name is looked up as a page attachment. */
  function ImageReplacer(g: GiteaAccessor, wikiPage: String): seq<String> -> String {
    groups =>
      var image := Group(groups, 1);
      var link := Group(groups, 2);
      var shown := if IsLocalFile(image) then Mark(g.getWikiAttachmentRelPath(wikiPage, image)) else image;
      if link == "" then "![]" + shown + ZWSP() else "[![]" + shown + "]" + link + ZWSP()
  }

  /** `[[link|text]]` becomes `[link text]` and `[[link]]` becomes `[link]`; `[[br]]` stays. */
  function DoubleBracketReplacer(groups: seq<String>): String {
    var link := Group(groups, 1);
    var text := Group(groups, 2);
    if text == "" then (if IsBr(link) then Group(groups, 0) else "[" + link + "]")
    else "[" + link + " " + text + "]"
  }

  /** `[link text]` becomes `[text]link` and `[link]` becomes `link`, each set off by zero-width spaces; `[br]` stays. */
  function SingleBracketReplacer(groups: seq<String>): String {
    var link := Group(groups, 1);
    var text := Group(groups, 2);
    if text == "" then (if IsBr(link) then Group(groups, 0) else ZWSP() + link + ZWSP())
    else "[" + text + "]" + link + ZWSP()
  }

  /** A mark with no link text becomes an autolink (http) or a link labelled with its own URL. */
  function Standalone(url: String): String {
    if ContainsHttpLink(url) then "<" + url + ">" else "[" + url + "](" + url + ")"
  }

  function NoTextMarkedReplacer(groups: seq<String>): String {
    Group(groups, 1) + Standalone(Group(groups, 2))
  }

  /** Any other mark follows a `[text]` and becomes the `(url)` of a Markdown link. */
  function MarkedReplacer(groups: seq<String>): String {
    "(" + Group(groups, 1) + ")"
  }

  // ---------------------------------------------------------------------
  // The three phases.

  function ImagePass(g: GiteaAccessor, wikiPage: String, s: String): String {
    ReplaceAllIn(s, ImageRec, ImageReplacer(g, wikiPage))
  }

  function DoubleBracketPass(s: String): String { ReplaceAllIn(s, DoubleBracketRec, DoubleBracketReplacer) }

  function SingleBracketPass(s: String): String { ReplaceAllIn(s, SingleBracketRec, SingleBracketReplacer) }

  function ConvertBrackettedTracLinks(g: GiteaAccessor, wikiPage: String, s: String): String {
    SingleBracketPass(DoubleBracketPass(ImagePass(g, wikiPage, s)))
  }

  function HttpPass(s: String): String { ReplaceAllIn(s, HttpRec, HttpReplacer) }
  function HtdocsPass(g: GiteaAccessor, s: String): String { ReplaceAllIn(s, HtdocsRec, HtdocsReplacer(g)) }
  function CommentPass(g: GiteaAccessor, t: TracAccessor, ticketID: int, s: String): String {
    ReplaceAllIn(s, CommentRec, CommentReplacer(g, t, ticketID))
  }
  function MilestonePass(g: GiteaAccessor, s: String): String { ReplaceAllIn(s, MilestoneRec, MilestoneReplacer(g)) }
  function AttachmentPass(g: GiteaAccessor, ticketID: int, wikiPage: String, s: String): String {
    ReplaceAllIn(s, AttachmentRec, AttachmentReplacer(g, ticketID, wikiPage))
  }
  function ChangesetPass(g: GiteaAccessor, s: String): String { ReplaceAllIn(s, ChangesetRec, ChangesetReplacer(g)) }
  function SourcePass(g: GiteaAccessor, s: String): String { ReplaceAllIn(s, SourceRec, SourceReplacer(g)) }
  function TicketPass(g: GiteaAccessor, s: String): String { ReplaceAllIn(s, TicketRec, TicketReplacer(g)) }
  function WikiPass(g: GiteaAccessor, s: String): String { ReplaceAllIn(s, WikiRec, WikiReplacer(g)) }
  function CamelCasePass(g: GiteaAccessor, s: String): String { ReplaceAllIn(s, CamelCaseRec, CamelCaseReplacer(g)) }

  /**
   * The resolve phase. Comment and attachment links are resolved before bare
   * `ticket:` and `wiki:` links, which can appear as their suffixes.
   */
  function ConvertUnbrackettedTracLinks(g: GiteaAccessor, t: TracAccessor, ticketID: int, wikiPage: String, s: String): String {
    var s1 := HttpPass(s);
    var s2 := HtdocsPass(g, s1);
    var s3 := CommentPass(g, t, ticketID, s2);
    var s4 := MilestonePass(g, s3);
    var s5 := AttachmentPass(g, ticketID, wikiPage, s4);
    var s6 := ChangesetPass(g, s5);
    var s7 := SourcePass(g, s6);
    var s8 := TicketPass(g, s7);
    var s9 := WikiPass(g, s8);
    CamelCasePass(g, s9)
  }

  function UnmarkLinks(s: String): String {
    var s1 := ReplaceAllIn(s, NoTextMarkedRec, NoTextMarkedReplacer);
    var s2 := ReplaceAllIn(s1, MarkedRec, MarkedReplacer);
    ReplaceAll(s2, ZWSP(), "")
  }

  function ConvertLinks(g: GiteaAccessor, t: TracAccessor, ticketID: int, wikiPage: String, s: String): String {
    UnmarkLinks(ConvertUnbrackettedTracLinks(g, t, ticketID, wikiPage, ConvertBrackettedTracLinks(g, wikiPage, s)))
  }

  // ---------------------------------------------------------------------
  // Disguising `http(s)://` from the font-style pass.

  /** `(https?)://`; group 1 is the scheme. */
  function DisguiseRec(s: String, atStart: bool): (r: Option<Match>)
    ensures r.Some? ==> HasPrefix(s, "http") && r.value.len <= |s|
  {
    if HasPrefix(s, "https://") then Some(Match(8, [s[..8], "https"]))
    else if HasPrefix(s, "http://") then Some(Match(7, [s[..7], "http"]))
    else None
  }

  /** `(https?):@@`; group 1 is the scheme. */
  function UndisguiseRec(s: String, atStart: bool): (r: Option<Match>)
    ensures r.Some? ==> HasPrefix(s, "http") && r.value.len <= |s|
  {
    if HasPrefix(s, "https:@@") then Some(Match(8, [s[..8], "https"]))
    else if HasPrefix(s, "http:@@") then Some(Match(7, [s[..7], "http"]))
    else None
  }

  function DisguiseReplacer(groups: seq<String>): String { Group(groups, 1) + ":@@" }
  function UndisguiseReplacer(groups: seq<String>): String { Group(groups, 1) + "://" }

  function DisguiseLinks(s: String): String { ReplaceAllIn(s, DisguiseRec, DisguiseReplacer) }
  function UndisguiseLinks(s: String): String { ReplaceAllIn(s, UndisguiseRec, UndisguiseReplacer) }

  // ---------------------------------------------------------------------
  // Disguise and undisguise are inverse.

  /** `[c] + y` starts with `w` exactly when `w` is empty or is `c` and then a prefix of `y`. */
  lemma ConsPrefix(c: char, y: String, w: String)
    ensures HasPrefix([c] + y, w) <==> (w == [] || (w[0] == c && HasPrefix(y, w[1..])))
  {
    if w != [] && |w| <= |y| + 1 {
      assert ([c] + y)[..|w|] == [c] + y[..|w| - 1];
      assert w == [w[0]] + w[1..];
    }
  }

  /** Text without `w` anywhere has no `w` in any suffix either. */
  lemma NotOccursSuffix(s: String, k: nat, w: String)
    requires k <= |s| && !Occurs(s, w)
    ensures !Occurs(s[k..], w)
  {
    forall i: nat | i <= |s[k..]| ensures !StartsAt(s[k..], i, w) {
      assert !StartsAt(s, k + i, w);
      if i + |w| <= |s[k..]| {
        assert s[k..][i..i + |w|] == s[k + i..k + i + |w|];
      }
    }
  }

  /** Disguising only rewrites text that starts with `h`: a prefix without `h` comes from the input. */
  lemma {:induction false} DisguisePrefix(x: String, w: String, atStart: bool)
    requires forall i | 0 <= i < |w| :: w[i] != 'h'
    ensures HasPrefix(ReplaceAllFunc(x, DisguiseRec, DisguiseReplacer, atStart), w) ==> HasPrefix(x, w)
    decreases |w|
  {
    var d := ReplaceAllFunc(x, DisguiseRec, DisguiseReplacer, atStart);
    if w != [] && x != [] {
      if MatchesHere(DisguiseRec, x, atStart) {
        assert d[0] == 'h';
      } else {
        var d1 := ReplaceAllFunc(x[1..], DisguiseRec, DisguiseReplacer, false);
        assert d == [x[0]] + d1;
        DisguisePrefix(x[1..], w[1..], false);
        ConsPrefix(x[0], d1, w);
        ConsPrefix(x[0], x[1..], w);
        assert [x[0]] + x[1..] == x;
      }
    }
  }

  function Disguised(s: String, a: bool): String { ReplaceAllFunc(s, DisguiseRec, DisguiseReplacer, a) }
  function Undisguised(s: String, b: bool): String { ReplaceAllFunc(s, UndisguiseRec, UndisguiseReplacer, b) }

  /** One step of the round trip over a link scheme `scheme` + `://` at the front. */
  lemma RoundTripScheme(s: String, scheme: String, a: bool, b: bool)
    requires scheme == "https" || scheme == "http"
    requires HasPrefix(s, scheme + "://")
    requires scheme == "http" ==> !HasPrefix(s, "https://")
    requires Undisguised(Disguised(s[|scheme| + 3..], false), false) == s[|scheme| + 3..]
    ensures Undisguised(Disguised(s, a), b) == s
  {
    var n := |scheme| + 3;
    DisguiseStep(s, scheme, a);
    UndisguiseStep(scheme, Disguised(s[n..], false), b);
    SchemeSplit(s, scheme);
  }

  /** Disguising `scheme://…` writes `scheme:@@` and carries on after the `://`. */
  lemma DisguiseStep(s: String, scheme: String, a: bool)
    requires scheme == "https" || scheme == "http"
    requires HasPrefix(s, scheme + "://")
    requires scheme == "http" ==> !HasPrefix(s, "https://")
    ensures Disguised(s, a) == (scheme + ":@@") + Disguised(s[|scheme| + 3..], false)
  {
    var n := |scheme| + 3;
    SchemeSplit(s, scheme);
    MatchAtFront(s[..n], s[n..], DisguiseRec, DisguiseReplacer, a);
  }

  /** Undisguising `scheme:@@…` writes `scheme://` and carries on after the `:@@`. */
  lemma UndisguiseStep(scheme: String, d1: String, b: bool)
    requires scheme == "https" || scheme == "http"
    ensures Undisguised((scheme + ":@@") + d1, b) == (scheme + "://") + Undisguised(d1, false)
  {
    var n := |scheme| + 3;
    var d := (scheme + ":@@") + d1;
    assert d[..n] == scheme + ":@@";
    assert d[4] == (if scheme == "http" then ':' else 's');
    MatchAtFront(scheme + ":@@", d1, UndisguiseRec, UndisguiseReplacer, b);
  }

  lemma SchemeSplit(s: String, scheme: String)
    requires HasPrefix(s, scheme + "://")
    ensures s == s[..|scheme| + 3] + s[|scheme| + 3..] && s[..|scheme| + 3] == scheme + "://"
  {
  }

  /** One step of the round trip over a character that starts no link. */
  lemma RoundTripChar(s: String, a: bool, b: bool)
    requires s != [] && !HasPrefix(s, "https://") && !HasPrefix(s, "http://")
    requires !HasPrefix(s, "http:@@") && !HasPrefix(s, "https:@@")
    requires Undisguised(Disguised(s[1..], false), false) == s[1..]
    ensures Undisguised(Disguised(s, a), b) == s
  {
    var rest := s[1..];
    var d1 := Disguised(rest, false);
    var d := Disguised(s, a);
    assert d == [s[0]] + d1;
    DisguisePrefix(rest, "ttp:@@", false);
    DisguisePrefix(rest, "ttps:@@", false);
    ConsPrefix(s[0], rest, "http:@@");
    ConsPrefix(s[0], rest, "https:@@");
    ConsPrefix(s[0], d1, "http:@@");
    ConsPrefix(s[0], d1, "https:@@");
    assert [s[0]] + rest == s;
  }

  lemma {:induction false} DisguiseRoundTripFrom(s: String, a: bool, b: bool)
    requires !Occurs(s, "http:@@") && !Occurs(s, "https:@@")
    ensures Undisguised(Disguised(s, a), b) == s
    decreases |s|
  {
    if s != [] {
      var k := if HasPrefix(s, "https://") then 8 else if HasPrefix(s, "http://") then 7 else 1;
      NotOccursSuffix(s, k, "http:@@");
      NotOccursSuffix(s, k, "https:@@");
      DisguiseRoundTripFrom(s[k..], false, false);
      if k == 8 {
        RoundTripScheme(s, "https", a, b);
      } else if k == 7 {
        RoundTripScheme(s, "http", a, b);
      } else {
        NotOccursNotPrefix(s, "http:@@");
        NotOccursNotPrefix(s, "https:@@");
        RoundTripChar(s, a, b);
      }
    }
  }

  lemma NotOccursNotPrefix(s: String, w: String)
    requires !Occurs(s, w)
    ensures !HasPrefix(s, w)
  {
    assert !StartsAt(s, 0, w);
  }

  /** Undisguising restores every link that disguising hid, on text that has no disguised link of its own. */
  lemma DisguiseRoundTrip(s: String)
    requires !Occurs(s, "http:@@") && !Occurs(s, "https:@@")
    ensures UndisguiseLinks(DisguiseLinks(s)) == s
  {
    DisguiseRoundTripFrom(s, true, true);
  }

  // ---------------------------------------------------------------------
  // The unmark phase.

  /** A mark around a URL without `@` is recognised whole, with the URL as its group. */
  lemma MarkMatch(u: String, atStart: bool)
    requires u != [] && forall i | 0 <= i < |u| :: u[i] != '@'
    ensures MarkedRec(Mark(u), atStart) == Some(Match(|u| + 6, [Mark(u), u]))
  {
    var m := Mark(u);
    assert m[3..] == u + "@@)";
    RunExact(m[3..], c => c != '@', |u|);
    assert m[3 + |u|..3 + |u| + 3] == "@@)";
    assert m[..|u| + 6] == m;
    assert m[3..3 + |u|] == u;
  }

  /** No mark is recognised starting inside a mark whose URL has no `@`. */
  lemma NoMarkInsideMark(u: String, j: nat, atStart: bool)
    requires forall i | 0 <= i < |u| :: u[i] != '@'
    requires 1 <= j <= |u| + 6
    ensures MarkedRec(Mark(u)[j..], atStart).None?
  {
    var m := Mark(u);
    var x := m[j..];
    if j >= |u| {
      TooShortForMark(x, atStart);
    } else {
      MarkChars(u);
      if j <= 2 {
        assert x[0] == m[j];
      } else {
        assert x[1] == m[j + 1];
      }
      NoMarkStart(x, atStart);
    }
  }

  /** The characters of a mark around `u`. */
  lemma MarkChars(u: String)
    ensures var m := Mark(u);
      |m| == |u| + 6 && m[0] == '(' && m[1] == '@' && m[2] == '@' &&
      forall i | 0 <= i < |u| :: m[3 + i] == u[i]
  {
  }

  /** A mark needs at least seven characters. */
  lemma TooShortForMark(x: String, atStart: bool)
    requires |x| < 7
    ensures MarkedRec(x, atStart).None?
  {
  }

  /** Text not starting with `(@` starts no mark. */
  lemma NoMarkStart(x: String, atStart: bool)
    requires |x| < 2 || x[0] != '(' || x[1] != '@'
    ensures MarkedRec(x, atStart).None?
  {
    if |x| >= 3 {
      assert x[..3][0] == x[0] && x[..3][1] == x[1];
    }
  }

  /** The unmark recogniser for a mark with no link text fires nowhere in a bare mark. */
  lemma NoTextMarkNowhere(p: String, u: String)
    requires p == [] || p == "]"
    requires forall i | 0 <= i < |u| :: u[i] != '@'
    ensures NoMatchIn(NoTextMarkedRec, p + Mark(u), true)
  {
    var s := p + Mark(u);
    forall k | 0 <= k < |s| ensures !MatchesHere(NoTextMarkedRec, s[k..], k == 0) {
      NoTextMarkAt(p, u, k);
    }
  }

  lemma NoTextMarkAt(p: String, u: String, k: nat)
    requires p == [] || p == "]"
    requires forall i | 0 <= i < |u| :: u[i] != '@'
    requires k < |p + Mark(u)|
    ensures !MatchesHere(NoTextMarkedRec, (p + Mark(u))[k..], k == 0)
  {
    var s := p + Mark(u);
    if s[k] != ']' {
      assert k >= |p|;
      TailOfAppendSlice(p, Mark(u), k);
      NoMarkInsideMark(u, k - |p| + 1, false);
    }
  }

  lemma TailOfAppendSlice(p: String, m: String, k: nat)
    requires |p| <= k < |p + m|
    ensures (p + m)[k..][1..] == m[k - |p| + 1..]
  {
  }

  /** Text with no `@` after its first character contains no mark. */
  lemma MarkedAbsent(s: String, f: seq<String> -> String)
    requires forall i | 1 <= i < |s| :: s[i] != '@'
    ensures ReplaceAllIn(s, MarkedRec, f) == s
  {
    forall k | 0 <= k < |s| ensures !MatchesHere(MarkedRec, s[k..], k == 0) {
      if k + 1 < |s| {
        assert s[k..][1] == s[k + 1];
      }
    }
    NoMatchUnchanged(s, MarkedRec, f, true);
  }

  /** Text with no zero-width space is left alone by its removal. */
  lemma NoZeroWidthUnchanged(s: String)
    requires forall i | 0 <= i < |s| :: s[i] != ZeroWidthSpace
    ensures ReplaceAll(s, ZWSP(), "") == s
  {
    forall i: nat | i <= |s| ensures !StartsAt(s, i, ZWSP()) {
      NoZeroWidthAt(s, i);
    }
    ReplaceAllAbsent(s, ZWSP(), "");
  }

  lemma NoZeroWidthAt(s: String, i: nat)
    requires i <= |s| && (i < |s| ==> s[i] != ZeroWidthSpace)
    ensures !StartsAt(s, i, ZWSP())
  {
    if i < |s| {
      assert s[i..i + 1][0] == s[i];
    }
  }

  /** No zero-width space survives the unmark phase. */
  lemma UnmarkRemovesZeroWidth(s: String)
    ensures ZeroWidthSpace !in UnmarkLinks(s)
  {
    var s1 := ReplaceAllIn(s, NoTextMarkedRec, NoTextMarkedReplacer);
    var s2 := ReplaceAllIn(s1, MarkedRec, MarkedReplacer);
    ReplaceAllDeletesChar(s2, ZeroWidthSpace);
  }

  /** A standalone link uses no `@` and no zero-width space when its URL does not. */
  lemma StandaloneChars(u: String)
    requires forall i | 0 <= i < |u| :: u[i] != '@' && u[i] != ZeroWidthSpace
    ensures forall i | 0 <= i < |Standalone(u)| :: Standalone(u)[i] != '@' && Standalone(u)[i] != ZeroWidthSpace
  {
  }

  /** A mark after a character other than `]` is recognised together with that character. */
  lemma NoTextMatch(c: char, u: String)
    requires c != ']'
    requires u != [] && forall i | 0 <= i < |u| :: u[i] != '@'
    ensures NoTextMarkedRec([c] + Mark(u), true) == Some(Match(|u| + 7, [[c] + Mark(u), [c], u]))
  {
    var s := [c] + Mark(u);
    MarkMatch(u, false);
    assert s[1..] == Mark(u);
    assert s[..|u| + 7] == s && s[..1] == [c];
  }

  /** The first unmark pass turns a mark after a character other than `]` into a standalone link. */
  lemma NoTextPassStandalone(c: char, u: String)
    requires c != ']'
    requires u != [] && forall i | 0 <= i < |u| :: u[i] != '@'
    ensures ReplaceAllIn([c] + Mark(u), NoTextMarkedRec, NoTextMarkedReplacer) == [c] + Standalone(u)
  {
    var s := [c] + Mark(u);
    NoTextMatch(c, u);
    MatchWhole(s, NoTextMarkedRec, NoTextMarkedReplacer, true);
  }

  /**
   * A mark after any character but `]` has no link text: an http(s) URL
   * becomes an autolink, any other URL a link labelled with itself. The
   * character before it is kept.
   */
  lemma UnmarkStandalone(c: char, u: String)
    requires c != ']' && c != ZeroWidthSpace
    requires u != [] && forall i | 0 <= i < |u| :: u[i] != '@' && u[i] != ZeroWidthSpace
    ensures UnmarkLinks([c] + Mark(u)) == [c] + Standalone(u)
  {
    NoTextPassStandalone(c, u);
    var s1 := [c] + Standalone(u);
    AfterCharStandalone(c, u);
    MarkedAbsent(s1, MarkedReplacer);
    NoZeroWidthUnchanged(s1);
  }

  /** The character before a standalone link is followed by no `@` and no zero-width space. */
  lemma AfterCharStandalone(c: char, u: String)
    requires c != ZeroWidthSpace
    requires forall i | 0 <= i < |u| :: u[i] != '@' && u[i] != ZeroWidthSpace
    ensures var s1 := [c] + Standalone(u);
      (forall i | 1 <= i < |s1| :: s1[i] != '@') && (forall i | 0 <= i < |s1| :: s1[i] != ZeroWidthSpace)
  {
    StandaloneChars(u);
    ConsChars(c, Standalone(u));
  }

  lemma ConsChars(c: char, x: String)
    requires c != ZeroWidthSpace
    requires forall i | 0 <= i < |x| :: x[i] != '@' && x[i] != ZeroWidthSpace
    ensures var s1 := [c] + x;
      (forall i | 1 <= i < |s1| :: s1[i] != '@') && (forall i | 0 <= i < |s1| :: s1[i] != ZeroWidthSpace)
  {
    var s1 := [c] + x;
    forall i | 1 <= i < |s1| ensures s1[i] == x[i - 1] {
    }
  }

  /** The first unmark pass leaves a bare mark, or one after `]`, alone. */
  lemma NoTextPassSkipsMark(p: String, u: String)
    requires p == [] || p == "]"
    requires forall i | 0 <= i < |u| :: u[i] != '@'
    ensures ReplaceAllIn(p + Mark(u), NoTextMarkedRec, NoTextMarkedReplacer) == p + Mark(u)
  {
    NoTextMarkNowhere(p, u);
    NoMatchUnchanged(p + Mark(u), NoTextMarkedRec, NoTextMarkedReplacer, true);
  }

  /** The second unmark pass turns a mark at the end of the text into `(url)`. */
  lemma MarkedPassAtEnd(p: String, u: String)
    requires p == [] || p == "]"
    requires u != [] && forall i | 0 <= i < |u| :: u[i] != '@'
    ensures ReplaceAllIn(p + Mark(u), MarkedRec, MarkedReplacer) == p + ("(" + u + ")")
  {
    var a := p == [];
    MarkMatch(u, a);
    assert Mark(u) + [] == Mark(u);
    MatchAtFront(Mark(u), [], MarkedRec, MarkedReplacer, a);
    if p == [] {
      assert p + Mark(u) == Mark(u);
    } else {
      assert !MatchesHere(MarkedRec, p + Mark(u), true);
      SkipPrefix(p, Mark(u), MarkedRec, MarkedReplacer, true);
    }
  }

  /** A mark right after `]` follows a `[text]` and becomes its `(url)`. */
  lemma UnmarkAfterBracket(u: String)
    requires u != [] && forall i | 0 <= i < |u| :: u[i] != '@' && u[i] != ZeroWidthSpace
    ensures UnmarkLinks("]" + Mark(u)) == "](" + u + ")"
  {
    UnmarkAfter("]", u);
    ParenAssoc("]", u);
  }

  /**
   * The pattern for a mark with no link text needs a character before the
   * mark, so a mark at the very start of the text becomes `(url)`, as if it
   * followed link text.
   */
  lemma UnmarkAtStart(u: String)
    requires u != [] && forall i | 0 <= i < |u| :: u[i] != '@' && u[i] != ZeroWidthSpace
    ensures UnmarkLinks(Mark(u)) == "(" + u + ")"
  {
    UnmarkAfter([], u);
    EmptyPrefix(Mark(u));
    EmptyPrefix("(" + u + ")");
  }

  /** The three unmarking passes on a lone mark, at the start or after `]`. */
  lemma UnmarkAfter(p: String, u: String)
    requires p == [] || p == "]"
    requires u != [] && forall i | 0 <= i < |u| :: u[i] != '@' && u[i] != ZeroWidthSpace
    ensures UnmarkLinks(p + Mark(u)) == p + ("(" + u + ")")
  {
    NoTextPassSkipsMark(p, u);
    MarkedPassAtEnd(p, u);
    ParenNoZeroWidth(p, u);
  }

  lemma ParenNoZeroWidth(p: String, u: String)
    requires p == [] || p == "]"
    requires forall i | 0 <= i < |u| :: u[i] != ZeroWidthSpace
    ensures ReplaceAll(p + ("(" + u + ")"), ZWSP(), "") == p + ("(" + u + ")")
  {
    NoZeroWidthUnchanged(p + ("(" + u + ")"));
  }

  lemma ParenAssoc(p: String, u: String)
    ensures p + ("(" + u + ")") == p + "(" + u + ")"
  {
  }

  lemma EmptyPrefix(x: String)
    ensures [] + x == x
  {
  }

  // ---------------------------------------------------------------------
  // The bracket phase.

  /** No `[[` anywhere. */
  predicate NoDoubleOpen(s: String) {
    forall i | 0 <= i < |s| - 1 :: s[i] != '[' || s[i + 1] != '['
  }

  /** Without `[[` the image and double-bracket passes find nothing. */
  lemma NoDoubleOpenPasses(g: GiteaAccessor, wikiPage: String, s: String)
    requires NoDoubleOpen(s)
    ensures ImagePass(g, wikiPage, s) == s && DoubleBracketPass(s) == s
  {
    forall k | 0 <= k < |s| ensures !MatchesHere(ImageRec, s[k..], k == 0) && !MatchesHere(DoubleBracketRec, s[k..], k == 0) {
      if k + 1 < |s| {
        assert s[k..][0] == s[k] && s[k..][1] == s[k + 1];
      }
    }
    NoMatchUnchanged(s, ImageRec, ImageReplacer(g, wikiPage), true);
    NoMatchUnchanged(s, DoubleBracketRec, DoubleBracketReplacer, true);
  }

  /** A link target of a single-bracket link: a letter, then no space and no brackets. */
  predicate IsBracketTarget(l: String) {
    l != [] && IsAlpha(l[0]) && forall i | 0 <= i < |l| :: l[i] != ' ' && l[i] != ']' && l[i] != '['
  }

  /** Link text: not empty, not starting with a space, no brackets. */
  predicate IsBracketText(t: String) {
    t != [] && t[0] != ' ' && forall i | 0 <= i < |t| :: t[i] != ']' && t[i] != '['
  }

  /** `[link]` followed by anything is recognised with empty text. */
  lemma SingleBracketBare(l: String, y: String, atStart: bool)
    requires l != [] && IsAlpha(l[0]) && forall i | 0 <= i < |l| :: l[i] != ' ' && l[i] != ']'
    ensures SingleBracketRec("[" + l + "]" + y, atStart) == Some(Match(|l| + 2, ["[" + l + "]", l, ""]))
  {
    var w := "[" + l + "]";
    var s := w + y;
    var p := |l| + 1;
    CloseAssoc("[" + l, y);
    SingleTargetOf(l, "]" + y);
    assert s[p] == ']';
    PrefixOfAppend(w, y);
    SingleBracketBareAt(s, p, l, w, atStart);
  }

  /** SingleBracketRec where the target `l` ends at `p`, right before a `]`. */
  lemma SingleBracketBareAt(s: String, p: nat, l: String, w: String, atStart: bool)
    requires |s| >= 2 && s[0] == '[' && IsAlpha(s[1])
    requires SingleTargetEnd(s) == p && p < |s| && s[p] == ']'
    requires s[1..p] == l && s[..p + 1] == w
    ensures SingleBracketRec(s, atStart) == Some(Match(p + 1, [w, l, ""]))
  {
    assert s[p..][0] == ']';
  }

  /** `[link text]` followed by anything is recognised with the text after the single space. */
  lemma SingleBracketWithText(l: String, t: String, y: String, atStart: bool)
    requires IsBracketTarget(l) && IsBracketText(t)
    ensures SingleBracketRec("[" + l + " " + t + "]" + y, atStart) == Some(Match(|l| + |t| + 3, ["[" + l + " " + t + "]", l, t]))
  {
    var w := "[" + l + " " + t + "]";
    var s := w + y;
    var p := |l| + 1;
    SpaceTextAssoc("[" + l, t, y);
    SingleTargetOf(l, " " + (t + ("]" + y)));
    SingleTextOf(s, p, t, y);
    PrefixOfAppend(w, y);
    SingleBracketTextAt(s, p, |t|, l, t, w, atStart);
  }

  /** SingleBracketRec where the target `l` ends at `p`, followed by one space, the text `t` and `]`. */
  lemma SingleBracketTextAt(s: String, p: nat, n: nat, l: String, t: String, w: String, atStart: bool)
    requires |s| >= 2 && s[0] == '[' && IsAlpha(s[1])
    requires SingleTargetEnd(s) == p && p < |s| && SpaceRunAt(s, p) == 1
    requires 0 < n && SingleTextLen(s, p + 1) == n && p + 1 + n < |s|
    requires s[1..p] == l && s[p + 1..p + 1 + n] == t && s[..p + n + 2] == w
    ensures SingleBracketRec(s, atStart) == Some(Match(p + n + 2, [w, l, t]))
  {
  }

  lemma CloseAssoc(h: String, y: String)
    ensures h + ("]" + y) == h + "]" + y
  {
  }

  lemma SpaceTextAssoc(h: String, t: String, y: String)
    ensures h + (" " + (t + ("]" + y))) == h + " " + t + "]" + y
  {
  }

  lemma PrefixOfAppend(w: String, y: String)
    ensures |w| <= |w + y| && (w + y)[..|w|] == w
  {
  }

  /** The target of `[l…` ends where `l` does, at the space or `]` that follows it. */
  lemma SingleTargetOf(l: String, rest: String)
    requires l != [] && IsAlpha(l[0]) && forall i | 0 <= i < |l| :: l[i] != ' ' && l[i] != ']'
    requires rest != [] && (rest[0] == ' ' || rest[0] == ']')
    ensures var s := "[" + l + rest;
      |s| >= 2 && s[0] == '[' && IsAlpha(s[1]) &&
      SingleTargetEnd(s) == 1 + |l| && s[1..1 + |l|] == l && s[1 + |l|..] == rest
  {
    var s := "[" + l + rest;
    assert s[2..] == l[1..] + rest;
    RunExact(s[2..], NotSpaceOrClose, |l| - 1);
    assert s[1..1 + |l|] == l;
    assert s[1 + |l|..] == rest;
  }

  /** One space, link text `t` and `]` at `p`. */
  lemma SingleTextOf(s: String, p: nat, t: String, y: String)
    requires IsBracketText(t)
    requires p <= |s| && s[p..] == " " + (t + ("]" + y))
    ensures SpaceRunAt(s, p) == 1 && SingleTextLen(s, p + 1) == |t| && p + 1 + |t| < |s|
    ensures s[p + 1..p + 1 + |t|] == t
  {
    assert s[p..][1] == t[0];
    RunExact(s[p..], IsPlainSpace, 1);
    assert s[p + 1..] == t + ("]" + y);
    RunExact(s[p + 1..], NotClose, |t|);
  }

  /** The single-bracket pass on `[link]`. */
  lemma SinglePassBare(l: String)
    requires l != [] && IsAlpha(l[0]) && forall i | 0 <= i < |l| :: l[i] != ' ' && l[i] != ']'
    ensures SingleBracketPass("[" + l + "]") == SingleBracketReplacer(["[" + l + "]", l, ""])
  {
    var s := "[" + l + "]";
    SingleBracketBare(l, [], true);
    assert s + [] == s;
    MatchAtFront(s, [], SingleBracketRec, SingleBracketReplacer, true);
  }

  /** The single-bracket pass on `[link text]`. */
  lemma SinglePassWithText(l: String, t: String)
    requires IsBracketTarget(l) && IsBracketText(t)
    ensures SingleBracketPass("[" + l + " " + t + "]") == "[" + t + "]" + l + ZWSP()
  {
    var s := "[" + l + " " + t + "]";
    SingleBracketWithText(l, t, [], true);
    assert s + [] == s;
    MatchAtFront(s, [], SingleBracketRec, SingleBracketReplacer, true);
  }

  /** `[link]` becomes the bare link set off by zero-width spaces. */
  lemma BracketBareLink(g: GiteaAccessor, wikiPage: String, l: String)
    requires IsBracketTarget(l) && !IsBr(l)
    ensures ConvertBrackettedTracLinks(g, wikiPage, "[" + l + "]") == ZWSP() + l + ZWSP()
  {
    var s := "[" + l + "]";
    assert forall i | 1 <= i < |s| :: s[i] != '[';
    NoDoubleOpenPasses(g, wikiPage, s);
    SinglePassBare(l);
  }

  /** `[link text]` becomes `[text]link` and a zero-width space. */
  lemma BracketLinkWithText(g: GiteaAccessor, wikiPage: String, l: String, t: String)
    requires IsBracketTarget(l) && IsBracketText(t)
    ensures ConvertBrackettedTracLinks(g, wikiPage, "[" + l + " " + t + "]") == "[" + t + "]" + l + ZWSP()
  {
    var s := "[" + l + " " + t + "]";
    assert forall i | 1 <= i < |s| :: s[i] != '[';
    NoDoubleOpenPasses(g, wikiPage, s);
    SinglePassWithText(l, t);
  }

  /** An image pass finds nothing in text with no image at the front and no `[[` after it. */
  lemma ImagePassSkips(g: GiteaAccessor, wikiPage: String, s: String)
    requires s != [] && !HasPrefix(s, "[[Image(") && NoDoubleOpen(s[1..])
    ensures ImagePass(g, wikiPage, s) == s
  {
    forall k | 0 <= k < |s| ensures !MatchesHere(ImageRec, s[k..], k == 0) {
      if k > 0 {
        NoImageAfterFirst(s, k);
      }
    }
    NoMatchUnchanged(s, ImageRec, ImageReplacer(g, wikiPage), true);
  }

  lemma NoImageAfterFirst(s: String, k: nat)
    requires 1 <= k < |s| && NoDoubleOpen(s[1..])
    ensures !HasPrefix(s[k..], "[[Image(")
  {
    if k < |s| - 1 {
      assert s[k..][0] == s[1..][k - 1] && s[k..][1] == s[1..][k];
    }
  }

  /** `[[link|text]]` is recognised whole by the double-bracket pattern. */
  lemma DoubleBracketWithText(l: String, t: String)
    requires IsBracketTarget(l) && '|' !in l && IsBracketText(t)
    ensures DoubleBracketRec("[[" + l + "|" + t + "]]", true) == Some(Match(|l| + |t| + 5, ["[[" + l + "|" + t + "]]", l, t]))
  {
    var s := "[[" + l + "|" + t + "]]";
    var p := 2 + |l|;
    WithTextParts(l, t);
    DoubleTextOf(s, p, t);
    DoubleBracketTextAt(s, p, |t|, l, t);
  }

  /** The target part of `[[l|t]]`. */
  lemma WithTextParts(l: String, t: String)
    requires IsBracketTarget(l) && '|' !in l
    ensures var s := "[[" + l + "|" + t + "]]";
      |s| == |l| + |t| + 5 && |s| >= 3 && s[0] == '[' && s[1] == '[' && IsAlpha(s[2]) &&
      DoubleTargetEnd(s) == 2 + |l| && s[2..2 + |l|] == l && s[2 + |l|..] == "|" + (t + "]]")
  {
    BarTextAssoc("[[" + l, t);
    DoubleTargetOf(l, "|" + (t + "]]"));
  }

  lemma BarTextAssoc(h: String, t: String)
    ensures h + ("|" + (t + "]]")) == h + "|" + t + "]]"
  {
  }

  /** The target of `[[l…` ends where `l` does, at the `|` or `]` that follows it. */
  lemma DoubleTargetOf(l: String, rest: String)
    requires IsBracketTarget(l) && '|' !in l
    requires rest != [] && (rest[0] == '|' || rest[0] == ']')
    ensures var s := "[[" + l + rest;
      |s| >= 3 && s[0] == '[' && s[1] == '[' && IsAlpha(s[2]) &&
      DoubleTargetEnd(s) == 2 + |l| && s[2..2 + |l|] == l && s[2 + |l|..] == rest
  {
    var s := "[[" + l + rest;
    assert s[3..] == l[1..] + rest;
    RunExact(s[3..], NotBarOrClose, |l| - 1);
    assert s[2..2 + |l|] == l;
    assert s[2 + |l|..] == rest;
  }

  /** Link text `t` after a `|` at `p`, closed by `]]`. */
  lemma DoubleTextOf(s: String, p: nat, t: String)
    requires IsBracketText(t)
    requires p < |s| && s[p..] == "|" + (t + "]]")
    ensures DoubleTextLen(s, p) == |t| && StartsAt(s, p + 1 + |t|, "]]") && s[p + 1..p + 1 + |t|] == t
  {
    assert s[p] == '|';
    assert s[p + 1..] == t + "]]";
    RunExact(s[p + 1..], NotClose, |t|);
    assert s[p + 1 + |t|..p + 3 + |t|] == "]]";
  }

  /** DoubleBracketRec where the target `l` ends at `p`, followed by `|`, the text `t` and `]]` ending the input. */
  lemma DoubleBracketTextAt(s: String, p: nat, n: nat, l: String, t: String)
    requires |s| >= 3 && s[0] == '[' && s[1] == '[' && IsAlpha(s[2])
    requires DoubleTargetEnd(s) == p && DoubleTextLen(s, p) == n
    requires 0 < n && StartsAt(s, p + 1 + n, "]]") && |s| == p + 3 + n
    requires s[2..p] == l && s[p + 1..p + 1 + n] == t
    ensures DoubleBracketRec(s, true) == Some(Match(|s|, [s, l, t]))
  {
    assert s[..p + 3 + n] == s;
  }

  /** `[[link]]` is recognised whole by the double-bracket pattern, with empty text. */
  lemma DoubleBracketBare(l: String)
    requires IsBracketTarget(l) && '|' !in l
    ensures DoubleBracketRec("[[" + l + "]]", true) == Some(Match(|l| + 4, ["[[" + l + "]]", l, ""]))
  {
    var s := "[[" + l + "]]";
    var p := 2 + |l|;
    DoubleTargetOf(l, "]]");
    assert s[p] == ']' && s[p..p + 2] == "]]";
    assert s[..p + 2] == s;
  }

  /** A double-bracket link is not an image when its target does not start with `Image(`. */
  lemma NotImage(l: String, rest: String)
    requires !HasPrefix(l, "Image(") && '|' !in l && ']' !in l
    requires rest != [] && (rest[0] == '|' || rest[0] == ']')
    ensures !HasPrefix("[[" + l + rest, "[[Image(")
  {
    var s := "[[" + l + rest;
    if |l| >= 6 {
      assert s[2..8] == l[..6];
    } else {
      assert s[2 + |l|] == rest[0];
    }
  }

  /** `[[link|text]]` becomes `[text]link` and a zero-width space, by way of `[link text]`. */
  lemma BracketDoubleWithText(g: GiteaAccessor, wikiPage: String, l: String, t: String)
    requires IsBracketTarget(l) && '|' !in l && !HasPrefix(l, "Image(") && IsBracketText(t)
    ensures ConvertBrackettedTracLinks(g, wikiPage, "[[" + l + "|" + t + "]]") == "[" + t + "]" + l + ZWSP()
  {
    var s := "[[" + l + "|" + t + "]]";
    NotImage(l, "|" + t + "]]");
    assert s == "[[" + l + ("|" + t + "]]");
    assert forall i | 1 <= i < |s[1..]| :: s[1..][i] != '[';
    ImagePassSkips(g, wikiPage, s);
    DoubleBracketWithText(l, t);
    assert s + [] == s;
    MatchAtFront(s, [], DoubleBracketRec, DoubleBracketReplacer, true);
    assert DoubleBracketPass(s) == "[" + l + " " + t + "]";
    SinglePassWithText(l, t);
  }

  /** `[[link]]` becomes the bare link set off by zero-width spaces, by way of `[link]`. */
  lemma BracketDoubleBare(g: GiteaAccessor, wikiPage: String, l: String)
    requires IsBracketTarget(l) && '|' !in l && !HasPrefix(l, "Image(") && !IsBr(l)
    ensures ConvertBrackettedTracLinks(g, wikiPage, "[[" + l + "]]") == ZWSP() + l + ZWSP()
  {
    var s := "[[" + l + "]]";
    NotImage(l, "]]");
    assert s == "[[" + l + "]]";
    assert forall i | 1 <= i < |s[1..]| :: s[1..][i] != '[';
    ImagePassSkips(g, wikiPage, s);
    DoubleBracketBare(l);
    assert s + [] == s;
    MatchAtFront(s, [], DoubleBracketRec, DoubleBracketReplacer, true);
    assert DoubleBracketPass(s) == "[" + l + "]";
    SinglePassBare(l);
  }

  /** `[br]`, in any case, is a Trac line break and is left alone. */
  lemma BracketBreakKept(g: GiteaAccessor, wikiPage: String, b: String)
    requires IsBr(b)
    ensures ConvertBrackettedTracLinks(g, wikiPage, "[" + b + "]") == "[" + b + "]"
  {
    var s := "[" + b + "]";
    assert forall i | 1 <= i < |s| :: s[i] != '[';
    NoDoubleOpenPasses(g, wikiPage, s);
    SinglePassBare(b);
  }

  /** Scanning `[br]]` keeps the `[br]` and the `]` after it. */
  lemma BreakThenBracket(b: String)
    requires IsBr(b)
    ensures ReplaceAllFunc("[" + b + "]" + "]", SingleBracketRec, SingleBracketReplacer, false) == "[" + b + "]" + "]"
  {
    var inner := "[" + b + "]";
    SingleBracketBare(b, "]", false);
    MatchAtFront(inner, "]", SingleBracketRec, SingleBracketReplacer, false);
    assert !MatchesHere(SingleBracketRec, "]", false);
    NoMatchUnchanged("]", SingleBracketRec, SingleBracketReplacer, false);
  }

  /** The single-bracket pass keeps the `[br]` inside `[[br]]`. */
  lemma SinglePassDoubleBreak(b: String)
    requires IsBr(b)
    ensures SingleBracketPass("[[" + b + "]]") == "[[" + b + "]]"
  {
    var rest := "[" + b + "]" + "]";
    var s := "[" + rest;
    assert s == "[[" + b + "]]";
    assert s[1] == '[';
    SkipPrefix("[", rest, SingleBracketRec, SingleBracketReplacer, true);
    BreakThenBracket(b);
  }

  /** `[[br]]`, in any case, is a Trac line break and is left alone. */
  lemma BracketDoubleBreakKept(g: GiteaAccessor, wikiPage: String, b: String)
    requires IsBr(b)
    ensures ConvertBrackettedTracLinks(g, wikiPage, "[[" + b + "]]") == "[[" + b + "]]"
  {
    var s := "[[" + b + "]]";
    NotImage(b, "]]");
    assert forall i | 1 <= i < |s[1..]| :: s[1..][i] != '[';
    ImagePassSkips(g, wikiPage, s);
    DoubleBracketBare(b);
    assert s + [] == s;
    MatchAtFront(s, [], DoubleBracketRec, DoubleBracketReplacer, true);
    assert DoubleBracketPass(s) == s;
    SinglePassDoubleBreak(b);
  }

  // ---------------------------------------------------------------------
  // The resolve phase: where a link points, and what happens when a lookup fails.

  predicate AllDigits(n: String) { forall i | 0 <= i < |n| :: IsDigit(n[i]) }

  /**
   * Attachment targets are chosen in order: an explicit `:ticket:`, an
   * explicit `:wiki:` page, the current ticket, the current wiki page; with
   * none of them the link is left as it was.
   */
  lemma AttachmentPrecedence(g: GiteaAccessor, ticketID: int, wikiPage: String, link: String, name: String, page: String, ticketStr: String)
    ensures ticketStr != "" ==> forall otherID: int, otherWiki: String, otherPage: String ::
      AttachmentURL(g, ticketID, wikiPage, name, page, ticketStr) == AttachmentURL(g, otherID, otherWiki, name, otherPage, ticketStr)
    ensures ticketStr == "" && page != "" ==> AttachmentURL(g, ticketID, wikiPage, name, page, ticketStr) == Some(WikiAttachmentURL(g, page, name))
    ensures ticketStr == "" && page == "" && ticketID != TracNullID ==>
      AttachmentURL(g, ticketID, wikiPage, name, page, ticketStr) == TicketAttachmentURL(g, ticketID, name)
    ensures ticketStr == "" && page == "" && ticketID == TracNullID && wikiPage != "" ==>
      AttachmentURL(g, ticketID, wikiPage, name, page, ticketStr) == Some(WikiAttachmentURL(g, wikiPage, name))
    ensures ticketStr == "" && page == "" && ticketID == TracNullID && wikiPage == "" ==>
      ResolveAttachmentLink(g, ticketID, wikiPage, link, name, page, ticketStr) == link
  {
  }

  /** A ticket-attachment lookup fails when the ticket has no issue or the issue has no such attachment. */
  lemma TicketAttachmentFails(g: GiteaAccessor, ticketID: int, name: String)
    ensures TicketAttachmentURL(g, ticketID, name).None? <==>
      (g.getIssueID(ticketID).Err? || g.getIssueID(ticketID).value == GiteaNullID ||
       g.getIssueAttachmentUUID(g.getIssueID(ticketID).value, name).Err? ||
       g.getIssueAttachmentUUID(g.getIssueID(ticketID).value, name).value == "")
  {
  }

  /** `keyword` and a run of `p` that takes up the whole text are one match. */
  lemma KeywordRunWhole(keyword: String, n: String, p: char -> bool)
    requires n != [] && forall i | 0 <= i < |n| :: p(n[i])
    ensures KeywordRun(keyword + n, keyword, p) == Some(Match(|keyword| + |n|, [keyword + n, n]))
  {
    var s := keyword + n;
    assert s[..|keyword|] == keyword && s[|keyword|..] == n;
    RunExact(n, p, |n|);
    assert s[..|keyword| + |n|] == s;
  }

  /** A digit string is a valid 64-bit id exactly when its value fits. */
  lemma ParseDigits(n: String)
    requires n != [] && AllDigits(n)
    ensures ParseDecimal(n) == if DecimalValue(n) <= MaxInt64 then Some(DecimalValue(n)) else None
  {
  }

  /**
   * `ticket:N` becomes the marked URL of the ticket's issue, and stays as it
   * was when N overflows or the ticket has no issue.
   */
  lemma TicketPassLink(g: GiteaAccessor, n: String)
    requires n != [] && AllDigits(n)
    ensures var r := TicketPass(g, "ticket:" + n);
      var id := DecimalValue(n);
      (id <= MaxInt64 && IssueOf(g, id).Some? ==> r == Mark(g.getIssueURL(IssueOf(g, id).value))) &&
      (id > MaxInt64 || IssueOf(g, id).None? ==> r == "ticket:" + n)
  {
    var s := "ticket:" + n;
    KeywordRunWhole("ticket:", n, IsDigit);
    assert s + [] == s;
    MatchAtFront(s, [], TicketRec, TicketReplacer(g), true);
    ParseDigits(n);
  }

  /** `comment:N` with no `:ticket:` suffix, met outside any ticket, is left as it was. */
  lemma CommentPassUnknownTicket(g: GiteaAccessor, t: TracAccessor, n: String)
    requires n != [] && AllDigits(n)
    ensures CommentPass(g, t, TracNullID, "comment:" + n) == "comment:" + n
  {
    var s := "comment:" + n;
    KeywordRunWhole("comment:", n, IsDigit);
    assert s[|s|..] == [];
    assert KeywordRun(s[|s|..], ":ticket:", IsDigit) == None;
    assert [s, n] + [""] == [s, n, ""];
    assert CommentRec(s, true) == Some(Match(|s|, [s, n, ""]));
    assert s + [] == s;
    MatchAtFront(s, [], CommentRec, CommentReplacer(g, t, TracNullID), true);
  }

  /**
   * A comment link resolves to the first Gitea comment made at the Trac
   * comment's time, and is left alone exactly when one step of the lookup
   * fails: the number or the ticket id does not parse, no ticket is known,
   * the ticket has no issue, the comment has no time or a zero time, or the
   * issue has no comment at that time. An explicit `:ticket:` wins over the
   * current ticket.
   */
  lemma CommentURLFails(g: GiteaAccessor, t: TracAccessor, ticketID: int, numStr: String, ticketStr: String)
    ensures CommentURL(g, t, ticketID, numStr, ticketStr).None? <==>
      (ParseDecimal(numStr).None? || CommentTicket(ticketID, ticketStr).None? ||
       var num := ParseDecimal(numStr).value;
       var tid := CommentTicket(ticketID, ticketStr).value;
       IssueOf(g, tid).None? || t.getTicketCommentTime(tid, num).Err? || t.getTicketCommentTime(tid, num).value == 0 ||
       g.getIssueCommentIDsByTime(IssueOf(g, tid).value, t.getTicketCommentTime(tid, num).value).Err? ||
       g.getIssueCommentIDsByTime(IssueOf(g, tid).value, t.getTicketCommentTime(tid, num).value).value == [])
    ensures CommentURL(g, t, ticketID, numStr, ticketStr).Some? ==>
      var tid := CommentTicket(ticketID, ticketStr).value;
      var issue := IssueOf(g, tid).value;
      var ids := g.getIssueCommentIDsByTime(issue, t.getTicketCommentTime(tid, ParseDecimal(numStr).value).value);
      CommentURL(g, t, ticketID, numStr, ticketStr) == Some(g.getIssueCommentURL(issue, ids.value[0]))
    ensures ticketStr != "" ==> forall otherID: int ::
      CommentURL(g, t, ticketID, numStr, ticketStr) == CommentURL(g, t, otherID, numStr, ticketStr)
    ensures ticketStr == "" && ticketID == TracNullID ==> CommentURL(g, t, ticketID, numStr, ticketStr).None?
  {
  }

  /**
   * `milestone:Name` becomes the marked URL of the Gitea milestone, and stays
   * as it was when the lookup fails or finds no milestone.
   */
  lemma MilestonePassLink(g: GiteaAccessor, n: String)
    requires n != [] && forall i | 0 <= i < |n| :: IsUrlChar(n[i])
    ensures var r := MilestonePass(g, "milestone:" + n);
      var id := g.getMilestoneID(n);
      (id.Ok? && id.value != GiteaNullID ==> r == Mark(g.getMilestoneURL(id.value))) &&
      (id.Err? || id.value == GiteaNullID ==> r == "milestone:" + n)
  {
    KeywordRunWhole("milestone:", n, IsUrlChar);
    MatchWhole("milestone:" + n, MilestoneRec, MilestoneReplacer(g), true);
  }

  /** Text without an `h` holds neither an http(s) nor an htdocs link. */
  lemma NoHPasses(g: GiteaAccessor, s: String)
    requires forall i | 0 <= i < |s| :: s[i] != 'h'
    ensures HtdocsPass(g, HttpPass(s)) == s
  {
    forall k | 0 <= k < |s|
      ensures !MatchesHere(HttpRec, s[k..], k == 0) && !MatchesHere(HtdocsRec, s[k..], k == 0)
    {
      NoHNoMatch(s[k..], k == 0);
    }
    NoMatchUnchanged(s, HttpRec, HttpReplacer, true);
    NoMatchUnchanged(s, HtdocsRec, HtdocsReplacer(g), true);
  }

  lemma NoHNoMatch(w: String, atStart: bool)
    requires w != [] && w[0] != 'h'
    ensures !MatchesHere(HttpRec, w, atStart) && !MatchesHere(HtdocsRec, w, atStart)
  {
    assert !HasPrefix(w, "https://") && !HasPrefix(w, "http://") && !HasPrefix(w, "htdocs:");
  }

  /** `comment:N:ticket:M` is one comment match: number N, ticket M. */
  lemma CommentRecWithTicket(n: String, m: String)
    requires n != [] && AllDigits(n) && m != [] && AllDigits(m)
    ensures var s := "comment:" + n + ":ticket:" + m;
      CommentRec(s, true) == Some(Match(|s|, [s, n, m]))
  {
    var s := "comment:" + n + ":ticket:" + m;
    var head := "comment:" + n;
    var rest := ":ticket:" + m;
    assert s == head + rest;
    KeywordRunBefore("comment:", n, rest, IsDigit);
    assert s[|head|..] == rest;
    KeywordRunWhole(":ticket:", m, IsDigit);
    assert s[..|head| + |rest|] == s;
  }

  /** `keyword`, a run of `p` and a character outside `p`: the match ends with the run. */
  lemma KeywordRunBefore(keyword: String, n: String, rest: String, p: char -> bool)
    requires n != [] && forall i | 0 <= i < |n| :: p(n[i])
    requires rest != [] && !p(rest[0])
    ensures KeywordRun((keyword + n) + rest, keyword, p) == Some(Match(|keyword| + |n|, [keyword + n, n]))
  {
    var s := (keyword + n) + rest;
    assert s[..|keyword|] == keyword;
    assert s[|keyword|..] == n + rest;
    RunExact(n + rest, p, |n|);
    assert s[..|keyword| + |n|] == keyword + n;
    assert s[|keyword|..|keyword| + |n|] == n;
  }

  /** `ticket:` never starts inside `comment:N:`, whose only `t` is followed by `:`. */
  lemma NoTicketInCommentHead(n: String, y: String)
    requires AllDigits(n)
    ensures var x := "comment:" + n + ":";
      forall k | 0 <= k < |x| :: !MatchesHere(TicketRec, (x + y)[k..], k == 0)
  {
    var x := "comment:" + n + ":";
    forall k | 0 <= k < |x|
      ensures !MatchesHere(TicketRec, (x + y)[k..], k == 0)
    {
      var w := (x + y)[k..];
      assert w[0] == x[k];
      if k == 6 {
        assert w[1] == ':';
      }
    }
  }

  /**
   * Why comment links are resolved before bare ticket links: the comment
   * pass takes `comment:N:ticket:M` as one link, which becomes one marked
   * comment URL of ticket M whatever the current ticket is, or stays as it
   * was; a ticket pass run first would have split off `ticket:M` as a link
   * of its own.
   */
  lemma CommentBeforeTicket(g: GiteaAccessor, t: TracAccessor, ticketID: int, n: String, m: String)
    requires n != [] && AllDigits(n) && m != [] && AllDigits(m)
    ensures var s := "comment:" + n + ":ticket:" + m;
      var url := CommentURL(g, t, ticketID, n, m);
      var r := CommentPass(g, t, ticketID, HtdocsPass(g, HttpPass(s)));
      (url.Some? ==> r == Mark(url.value)) && (url.None? ==> r == s)
    ensures var s := "comment:" + n + ":ticket:" + m;
      TicketPass(g, s) == "comment:" + n + ":" + TicketPass(g, "ticket:" + m)
  {
    var s := "comment:" + n + ":ticket:" + m;
    CommentLinkNoH(n, m);
    NoHPasses(g, s);
    CommentRecWithTicket(n, m);
    MatchWhole(s, CommentRec, CommentReplacer(g, t, ticketID), true);
    TicketPassInComment(g, n, m);
  }

  lemma CommentLinkNoH(n: String, m: String)
    requires AllDigits(n) && AllDigits(m)
    ensures var s := "comment:" + n + ":ticket:" + m;
      forall i | 0 <= i < |s| :: s[i] != 'h'
  {
    var s := "comment:" + n + ":ticket:" + m;
    forall i | 0 <= i < |s| ensures s[i] != 'h' {
      if 8 <= i < 8 + |n| { assert s[i] == n[i - 8]; }
      else if 16 + |n| <= i { assert s[i] == m[i - 16 - |n|]; }
    }
  }

  /** The ticket pass skips `comment:N:` and takes `ticket:M` on its own. */
  lemma TicketPassInComment(g: GiteaAccessor, n: String, m: String)
    requires AllDigits(n) && m != [] && AllDigits(m)
    ensures TicketPass(g, "comment:" + n + ":ticket:" + m) == "comment:" + n + ":" + TicketPass(g, "ticket:" + m)
  {
    var x := "comment:" + n + ":";
    var y := "ticket:" + m;
    assert x + y == "comment:" + n + ":ticket:" + m;
    NoTicketInCommentHead(n, y);
    SkipPrefix(x, y, TicketRec, TicketReplacer(g), true);
    KeywordRunWhole("ticket:", m, IsDigit);
    MatchWhole(y, TicketRec, TicketReplacer(g), false);
    MatchWhole(y, TicketRec, TicketReplacer(g), true);
  }

  predicate AllAlnum(p: String) { forall i | 0 <= i < |p| :: IsAlnum(p[i]) }

  /** `wiki:Page` becomes the marked, translated page name. */
  lemma WikiPassPage(g: GiteaAccessor, p: String)
    requires p != [] && AllAlnum(p)
    ensures WikiPass(g, "wiki:" + p) == Mark(g.translateWikiPageName(p))
  {
    var s := "wiki:" + p;
    WikiRecPage(p);
    MatchWhole(s, WikiRec, WikiReplacer(g), true);
  }

  lemma WikiRecPage(p: String)
    requires p != [] && AllAlnum(p)
    ensures var s := "wiki:" + p; WikiRec(s, true) == Some(Match(|s|, [s, p, ""]))
  {
    var s := "wiki:" + p;
    WikiPageParts(p);
    WikiPageLenOf(s, p, []);
    WikiRecPageAt(s, |p|, p);
  }

  /** The parts of `wiki:p`. */
  lemma WikiPageParts(p: String)
    ensures var s := "wiki:" + p;
      HasPrefix(s, "wiki:") && |s| == 5 + |p| && s[5..] == p + [] && s[5..5 + |p|] == p
  {
    var s := "wiki:" + p;
    assert s[..5] == "wiki:";
    assert s[5..] == p + [];
    assert s[5..5 + |p|] == p;
  }

  /** The page name of `wiki:` followed by the alphanumeric `p` and then `#…` or nothing is `p`. */
  lemma WikiPageLenOf(s: String, p: String, rest: String)
    requires |s| >= 5 && s[5..] == p + rest
    requires p != [] && AllAlnum(p) && (rest == [] || rest[0] == '#')
    ensures WikiPageLen(s) == |p|
  {
    WikiPageRun(p, rest);
  }

  lemma WikiRecPageAt(s: String, np: nat, p: String)
    requires |s| >= 5 && HasPrefix(s, "wiki:") && 0 < np
    requires WikiPageLen(s) == np && |s| == 5 + np && s[5..5 + np] == p
    ensures WikiRec(s, true) == Some(Match(|s|, [s, p, ""]))
  {
    assert s[..|s|] == s;
  }

  /** `wiki:Page#anchor` becomes the marked, translated page name followed by the anchor. */
  lemma WikiPassAnchor(g: GiteaAccessor, p: String, a: String)
    requires p != [] && AllAlnum(p) && a != [] && AllAlnum(a)
    ensures WikiPass(g, "wiki:" + p + "#" + a) == Mark(g.translateWikiPageName(p) + "#" + a)
  {
    var s := "wiki:" + p + "#" + a;
    WikiRecAnchor(p, a);
    MatchWhole(s, WikiRec, WikiReplacer(g), true);
    assert WikiReplacer(g)([s, p, a]) == Mark(g.translateWikiPageName(p) + "#" + a);
  }

  lemma WikiRecAnchor(p: String, a: String)
    requires p != [] && AllAlnum(p) && a != [] && AllAlnum(a)
    ensures var s := "wiki:" + p + "#" + a; WikiRec(s, true) == Some(Match(|s|, [s, p, a]))
  {
    var s := "wiki:" + p + "#" + a;
    WikiAnchorParts(p, a);
    WikiPageRun(p, "#" + a);
    RunExact(a, IsWikiAnchorChar, |a|);
    WikiRecAnchorAt(s, p, a);
  }

  /** The parts of `wiki:p#a`. */
  lemma WikiAnchorParts(p: String, a: String)
    ensures var s := "wiki:" + p + "#" + a;
      HasPrefix(s, "wiki:") && |s| == 6 + |p| + |a| && s[5..] == p + ("#" + a) &&
      s[5 + |p|] == '#' && s[5 + |p| + 1..] == a && s[5..5 + |p|] == p
  {
    var s := "wiki:" + p + "#" + a;
    assert s[..5] == "wiki:";
    assert s[5..] == p + ("#" + a);
    assert s[5 + |p| + 1..] == a;
    assert s[5..5 + |p|] == p;
  }

  /** The page-name run of `p` followed by `#…` or nothing is `p`, all of it alphanumeric. */
  lemma WikiPageRun(p: String, rest: String)
    requires p != [] && AllAlnum(p) && (rest == [] || rest[0] == '#')
    ensures var body := p + rest;
      Run(body, IsWikiPageChar) == |p| && body[..|p|] == p && AlnumPrefixEnd(p) == |p|
  {
    var body := p + rest;
    RunExact(body, IsWikiPageChar, |p|);
    assert body[..|p|] == p;
  }

  /** WikiRec on `wiki:p#a` once the page name and the anchor are known. */
  lemma WikiRecAnchorAt(s: String, p: String, a: String)
    requires HasPrefix(s, "wiki:") && p != [] && a != []
    requires |s| == 6 + |p| + |a| && s[5 + |p|] == '#'
    requires Run(s[5..], IsWikiPageChar) == |p| && s[5..][..|p|] == p && AlnumPrefixEnd(p) == |p|
    requires s[5..5 + |p|] == p && s[5 + |p| + 1..] == a && Run(a, IsWikiAnchorChar) == |a|
    ensures WikiRec(s, true) == Some(Match(|s|, [s, p, a]))
  {
    WikiRecWhole(s, |p|, |a|, p, a);
  }

  lemma WikiRecWhole(s: String, np: nat, na: nat, p: String, a: String)
    requires |s| >= 5 && HasPrefix(s, "wiki:") && 0 < np && 0 < na
    requires WikiPageLen(s) == np && WikiAnchorLen(s, 5 + np) == na && |s| == 5 + np + 1 + na
    requires s[5..5 + np] == p && s[5 + np + 1..|s|] == a
    ensures WikiRec(s, true) == Some(Match(|s|, [s, p, a]))
  {
    assert s[..|s|] == s;
  }

  predicate AllLower(x: String) { forall i | 0 <= i < |x| :: IsLower(x[i]) }

  lemma SyllablesUnfold(s: String)
    requires |s| >= 2 && IsUpper(s[0]) && IsLower(s[1])
    ensures Syllables(s).0 == Syllables(s[SyllableLen(s)..]).0 + 1
    ensures Syllables(s).1 == SyllableLen(s) + Syllables(s[SyllableLen(s)..]).1
  {
  }

  lemma SyllableOf(u: char, x: String, rest: String)
    requires IsUpper(u) && x != [] && AllLower(x)
    requires rest == [] || !IsLower(rest[0])
    ensures var s := [u] + x + rest;
      |s| >= 2 && IsUpper(s[0]) && IsLower(s[1]) && SyllableLen(s) == 1 + |x| && s[1 + |x|..] == rest
  {
    var s := [u] + x + rest;
    assert s[0] == u && s[1] == x[0];
    assert s[1..] == x + rest;
    RunExact(x + rest, IsLower, |x|);
    assert s[1 + |x|..] == rest;
  }

  /** One `[[:upper:]][[:lower:]]+` syllable at the front adds one to the count. */
  lemma SyllableStep(u: char, x: String, rest: String)
    requires IsUpper(u) && x != [] && AllLower(x)
    requires rest == [] || !IsLower(rest[0])
    ensures Syllables([u] + x + rest).0 == Syllables(rest).0 + 1
    ensures Syllables([u] + x + rest).1 == 1 + |x| + Syllables(rest).1
  {
    var s := [u] + x + rest;
    SyllableOf(u, x, rest);
    SyllablesUnfold(s);
  }

  /**
   * Two capitalised syllables, at the start of the text or after a space,
   * zero-width space or `]`, are a wiki link; the lead is kept outside the mark.
   */
  lemma CamelCaseWord(g: GiteaAccessor, lead: String, u1: char, x: String, u2: char, y: String)
    requires lead == [] || (|lead| == 1 && IsCamelLead(lead[0]))
    requires IsUpper(u1) && x != [] && AllLower(x)
    requires IsUpper(u2) && y != [] && AllLower(y)
    ensures var w := [u1] + x + [u2] + y;
      CamelCasePass(g, lead + w) == lead + Mark(g.translateWikiPageName(w))
  {
    var w := [u1] + x + [u2] + y;
    CamelMatchWhole(lead, u1, x, u2, y);
    MatchWhole(lead + w, CamelCaseRec, CamelCaseReplacer(g), true);
    assert CamelCaseReplacer(g)([lead + w, lead, w, ""]) == lead + Mark(g.translateWikiPageName(w));
  }

  lemma CamelMatchWhole(lead: String, u1: char, x: String, u2: char, y: String)
    requires lead == [] || (|lead| == 1 && IsCamelLead(lead[0]))
    requires IsUpper(u1) && x != [] && AllLower(x)
    requires IsUpper(u2) && y != [] && AllLower(y)
    ensures var w := [u1] + x + [u2] + y;
      CamelCaseRec(lead + w, true) == Some(Match(|lead + w|, [lead + w, lead, w, ""]))
  {
    TwoSyllables(u1, x, u2, y);
    CamelRecWhole(lead, [u1] + x + [u2] + y);
  }

  lemma CamelRecWhole(lead: String, w: String)
    requires lead == [] || (|lead| == 1 && IsCamelLead(lead[0]))
    requires w != [] && IsUpper(w[0]) && Syllables(w).0 >= 2 && Syllables(w).1 == |w|
    ensures CamelCaseRec(lead + w, true) == Some(Match(|lead + w|, [lead + w, lead, w, ""]))
  {
    var s := lead + w;
    var i := |lead|;
    assert s[i..] == w && s[..i] == lead;
    CamelFromWhole(s, i);
    if lead == [] {
      CamelRecNoLead(s);
    } else {
      assert s[0] == lead[0];
    }
  }

  lemma CamelRecNoLead(s: String)
    requires s != [] && IsUpper(s[0])
    ensures CamelCaseRec(s, true) == CamelFrom(s, 0)
  {
    UpperNotLead(s[0]);
  }

  lemma TwoSyllables(u1: char, x: String, u2: char, y: String)
    requires IsUpper(u1) && x != [] && AllLower(x)
    requires IsUpper(u2) && y != [] && AllLower(y)
    ensures var w := [u1] + x + [u2] + y; Syllables(w).0 == 2 && Syllables(w).1 == |w|
  {
    assert [u2] + y + [] == [u2] + y;
    SyllableStep(u2, y, []);
    assert [u1] + x + [u2] + y == [u1] + x + ([u2] + y);
    SyllableStep(u1, x, [u2] + y);
  }

  /** Syllables reaching the end of the text, with no anchor, are matched whole. */
  lemma CamelFromWhole(s: String, i: nat)
    requires i <= |s| && Syllables(s[i..]).0 >= 2 && i + Syllables(s[i..]).1 == |s|
    ensures CamelFrom(s, i) == Some(Match(|s|, [s, s[..i], s[i..], ""]))
  {
    WholeSlices(s, i);
  }

  lemma WholeSlices(s: String, i: nat)
    requires i <= |s|
    ensures s[..|s|] == s && s[i..|s|] == s[i..]
  {
  }

  /** A single capitalised word is not a CamelCase link. */
  lemma CamelCaseSingleWordKept(g: GiteaAccessor, u: char, x: String)
    requires IsUpper(u) && x != [] && AllLower(x)
    ensures CamelCasePass(g, [u] + x) == [u] + x
  {
    var w := [u] + x;
    OneSyllable(u, x);
    UpperNotLead(u);
    forall k | 0 <= k < |w| ensures !MatchesHere(CamelCaseRec, w[k..], k == 0) {
      if k > 0 {
        assert w[k..][0] == x[k - 1];
        NoCamelAtLower(w[k..]);
      }
    }
    NoMatchUnchanged(w, CamelCaseRec, CamelCaseReplacer(g), true);
  }

  /** A capitalised word is one syllable. */
  lemma OneSyllable(u: char, x: String)
    requires IsUpper(u) && x != [] && AllLower(x)
    ensures Syllables([u] + x).0 == 1
  {
    EmptySuffix([u] + x);
    SyllableStep(u, x, []);
  }

  lemma EmptySuffix(w: String)
    ensures w + [] == w
  {
  }

  lemma UpperNotLead(c: char)
    requires IsUpper(c)
    ensures !IsCamelLead(c)
  {
  }

  /** No CamelCase link starts at a lower-case letter inside the text. */
  lemma NoCamelAtLower(v: String)
    requires v != [] && IsLower(v[0])
    ensures CamelCaseRec(v, false).None?
  {
    LowerNotLead(v[0]);
  }

  lemma LowerNotLead(c: char)
    requires IsLower(c)
    ensures !IsCamelLead(c)
  {
  }

  // ---------------------------------------------------------------------
  // Text with no link syntax passes through the whole conversion unchanged.

  /** Every link form needs one of these characters somewhere in it. */
  predicate LinkChar(c: char) { c == '[' || c == ':' || c == '(' || c == ZeroWidthSpace || IsUpper(c) }

  predicate LinkFree(s: String) { forall i | 0 <= i < |s| :: !LinkChar(s[i]) }

  lemma LinkFreeSuffix(s: String, k: nat)
    requires LinkFree(s) && k <= |s|
    ensures LinkFree(s[k..])
  {
    assert forall i | 0 <= i < |s| - k :: s[k..][i] == s[k + i];
  }

  /** A link-free text cannot start with a word that holds a link character. */
  lemma NoLinkPrefix(x: String, w: String, j: nat)
    requires LinkFree(x) && j < |w| && LinkChar(w[j])
    ensures !HasPrefix(x, w)
  {
    if |w| <= |x| {
      assert x[..|w|][j] == x[j];
    }
  }

  lemma LinkFreeNoBracketMatch(x: String, atStart: bool)
    requires LinkFree(x)
    ensures ImageRec(x, atStart).None? && DoubleBracketRec(x, atStart).None? && SingleBracketRec(x, atStart).None?
  {
    NoLinkPrefix(x, "[", 0);
    NoLinkPrefix(x, "[[Image(", 0);
    NoLinkPrefix(x, "[[", 0);
  }

  lemma LinkFreeNoKeywordMatch(x: String, atStart: bool)
    requires LinkFree(x)
    ensures HttpRec(x, atStart).None? && HtdocsRec(x, atStart).None? && CommentRec(x, atStart).None?
    ensures MilestoneRec(x, atStart).None? && AttachmentRec(x, atStart).None? && ChangesetRec(x, atStart).None?
    ensures SourceRec(x, atStart).None? && TicketRec(x, atStart).None? && WikiRec(x, atStart).None?
  {
    NoLinkPrefix(x, "http://", 4);
    NoLinkPrefix(x, "https://", 5);
    NoLinkPrefix(x, "htdocs:", 6);
    NoLinkPrefix(x, "comment:", 7);
    NoLinkPrefix(x, "milestone:", 9);
    NoLinkPrefix(x, "attachment:", 10);
    NoLinkPrefix(x, "changeset:\"", 9);
    NoLinkPrefix(x, "source:\"", 6);
    NoLinkPrefix(x, "ticket:", 6);
    NoLinkPrefix(x, "wiki:", 4);
  }

  lemma LinkFreeNoCamelCase(x: String, atStart: bool)
    requires LinkFree(x)
    ensures CamelCaseRec(x, atStart).None?
  {
    if |x| >= 2 {
      assert !IsUpper(x[0]) && !IsUpper(x[1]);
      assert x[1..][0] == x[1];
    } else {
      assert x == [] || !IsUpper(x[0]);
      if x != [] {
        assert x[1..] == [];
      }
    }
  }

  lemma LinkFreeNoMarkMatch(x: String, atStart: bool)
    requires LinkFree(x)
    ensures MarkedRec(x, atStart).None? && NoTextMarkedRec(x, atStart).None?
  {
    NoLinkPrefix(x, "(@@", 0);
    if x != [] {
      LinkFreeSuffix(x, 1);
      NoLinkPrefix(x[1..], "(@@", 0);
    }
  }

  lemma BracketPhaseLinkFree(g: GiteaAccessor, wikiPage: String, s: String)
    requires LinkFree(s)
    ensures ConvertBrackettedTracLinks(g, wikiPage, s) == s
  {
    forall k | 0 <= k < |s| ensures !MatchesHere(ImageRec, s[k..], k == 0)
      && !MatchesHere(DoubleBracketRec, s[k..], k == 0) && !MatchesHere(SingleBracketRec, s[k..], k == 0)
    {
      LinkFreeSuffix(s, k);
      LinkFreeNoBracketMatch(s[k..], k == 0);
    }
    NoMatchUnchanged(s, ImageRec, ImageReplacer(g, wikiPage), true);
    NoMatchUnchanged(s, DoubleBracketRec, DoubleBracketReplacer, true);
    NoMatchUnchanged(s, SingleBracketRec, SingleBracketReplacer, true);
  }

  lemma ResolvePhaseLinkFree(g: GiteaAccessor, t: TracAccessor, ticketID: int, wikiPage: String, s: String)
    requires LinkFree(s)
    ensures ConvertUnbrackettedTracLinks(g, t, ticketID, wikiPage, s) == s
  {
    forall k | 0 <= k < |s| ensures
      !MatchesHere(HttpRec, s[k..], k == 0) && !MatchesHere(HtdocsRec, s[k..], k == 0) &&
      !MatchesHere(CommentRec, s[k..], k == 0) && !MatchesHere(MilestoneRec, s[k..], k == 0) &&
      !MatchesHere(AttachmentRec, s[k..], k == 0) && !MatchesHere(ChangesetRec, s[k..], k == 0) &&
      !MatchesHere(SourceRec, s[k..], k == 0) && !MatchesHere(TicketRec, s[k..], k == 0) &&
      !MatchesHere(WikiRec, s[k..], k == 0) && !MatchesHere(CamelCaseRec, s[k..], k == 0)
    {
      LinkFreeSuffix(s, k);
      LinkFreeNoKeywordMatch(s[k..], k == 0);
      LinkFreeNoCamelCase(s[k..], k == 0);
    }
    NoMatchUnchanged(s, HttpRec, HttpReplacer, true);
    NoMatchUnchanged(s, HtdocsRec, HtdocsReplacer(g), true);
    NoMatchUnchanged(s, CommentRec, CommentReplacer(g, t, ticketID), true);
    NoMatchUnchanged(s, MilestoneRec, MilestoneReplacer(g), true);
    NoMatchUnchanged(s, AttachmentRec, AttachmentReplacer(g, ticketID, wikiPage), true);
    NoMatchUnchanged(s, ChangesetRec, ChangesetReplacer(g), true);
    NoMatchUnchanged(s, SourceRec, SourceReplacer(g), true);
    NoMatchUnchanged(s, TicketRec, TicketReplacer(g), true);
    NoMatchUnchanged(s, WikiRec, WikiReplacer(g), true);
    NoMatchUnchanged(s, CamelCaseRec, CamelCaseReplacer(g), true);
  }

  lemma UnmarkLinkFree(s: String)
    requires LinkFree(s)
    ensures UnmarkLinks(s) == s
  {
    forall k | 0 <= k < |s| ensures
      !MatchesHere(NoTextMarkedRec, s[k..], k == 0) && !MatchesHere(MarkedRec, s[k..], k == 0)
    {
      LinkFreeSuffix(s, k);
      LinkFreeNoMarkMatch(s[k..], k == 0);
    }
    NoMatchUnchanged(s, NoTextMarkedRec, NoTextMarkedReplacer, true);
    NoMatchUnchanged(s, MarkedRec, MarkedReplacer, true);
    NoZeroWidthUnchanged(s);
  }

  /**
   * Text without `[`, `:`, `(`, zero-width spaces or upper-case letters holds
   * no link of any form and comes out of the link conversion unchanged.
   */
  lemma ConvertLinksLinkFree(g: GiteaAccessor, t: TracAccessor, ticketID: int, wikiPage: String, s: String)
    requires LinkFree(s)
    ensures ConvertLinks(g, t, ticketID, wikiPage, s) == s
  {
    BracketPhaseLinkFree(g, wikiPage, s);
    ResolvePhaseLinkFree(g, t, ticketID, wikiPage, s);
    UnmarkLinkFree(s);
  }
}
