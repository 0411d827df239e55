# trac2gitea core, modelled in Dafny

trac2gitea migrates a Trac project to Gitea. This project models the core of that migration:

- **The Trac-to-Markdown converter** (`markdown/`):
  - the `{{{…}}}` code-block parser, including its disguise of code blocks and the final undisguise;
  - the three link phases:
    - bracketted links;
    - unbracketted link resolution through the Gitea and Trac accessors;
    - unmarking into Markdown links;
  - the `[[TOC]]` removal;
  - the order of the conversion stages in `convertNonCodeBlockText` and `convert`.
- **Two Trac accessor operations:**
  - keyword collection (`GetKeywords`);
  - ticket-change delivery: the SQL fragments it builds, the synthetic initial changes and the recorded changes.
- **Ticket-attachment import**, with the UUID derived from the attachment path and the last-update fold.
- **Gitea issue comments**: find, insert, update, add and the comment URL, modelled over a comment table.
- **The wiki-repository settings** that `CreateDefaultAccessor` derives: the clone directory, the URL and the token.

## Modelling choices

**Regular expressions.** Each regular expression the core uses is written as a recogniser. A recogniser takes the text at a position and returns the length and groups of the leftmost-first match. One scanner (`Scanning.ReplaceAllFunc`) replays Go's `ReplaceAllString` and `ReplaceAllStringFunc`:

- a non-overlapping, left-to-right scan;
- after an empty match, the scan moves on by one character.

**Accessors.** The Gitea and Trac accessors the converter calls are records of functions (`Links.GiteaAccessor`, `Links.TracAccessor`). A lookup that can fail returns a `Result`.

**Handlers.** A callback handler is a function from the item to an optional error. Every method that delivers items to a handler is specified with `Delivery.HandledInOrder`:

- items are delivered in order;
- the first error stops the delivery and is returned.

**State.** The in-place state of the source is modelled as classes:

- the Gitea comment table is `IssueComments.CommentTable`;
- the accessor's wiki fields are `WikiRepo.WikiRepoFields`.

**Loops.** The accessor loops are methods, each proved against the function that specifies it.

## Model

| member | source | states |
|---|---|---|
| Toc.TocRec | markdown/toc.go:9 | a match of `\[\[TOC\]\]\n+` starts with the marker and one newline, and covers only newlines after the marker |
| Toc.RemoveTOCNotLonger | markdown/toc.go:11-14 | removing TOC markers never makes the text longer |
| Toc.RemoveTOCWithoutMarker | markdown/toc.go:11-14 | text with no `[[TOC]]` directly followed by a newline is returned unchanged |
| Toc.TocMatchLength | markdown/toc.go:9 | the marker followed by exactly n newlines is one match of length 7 + n |
| Toc.RemoveTOCAnywhere | markdown/toc.go:9-13 | the pattern has no start anchor, so scanning from the middle of a text behaves as scanning from its start |
| Toc.RemoveTOCDropsMarker | markdown/toc.go:11-14 | the first marker and all its following newlines are removed; the text before is kept and the text after is converted in turn |
| Toc.RemoveTOCKeepsBareMarker | markdown/toc.go:9-13 | a `[[TOC]]` not followed by a newline is kept |
| CodeBlocks.NextBoundary | markdown/codeBlock.go:19 | the index returned is the leftmost `{{{` or `}}}` at or after the start position |
| CodeBlocks.ParseDirective | markdown/codeBlock.go:20 | the `^\s*#!(\w[^\n]*)?` directive: what it consumes and the processor name it yields, or nothing consumed when it does not match |
| CodeBlocks.DirectiveShape | markdown/codeBlock.go:20 | a processor name starts with a word character, holds no newline, and the consumed text includes `#!` |
| CodeBlocks.DirectiveLine | markdown/codeBlock.go:20 | on `ws#!p\n…`, the processor is `p` and the text after it starts at the newline |
| CodeBlocks.NoDirectiveAheadExact | markdown/codeBlock.go:20 | the directive consumes nothing exactly when no `#!` follows the leading white space (`NoDirectiveAhead`) |
| CodeBlocks.FirstTagPrefix | markdown/codeBlock.go:87-93 | the tag found is the first of the tag list that the processor starts with; when there is none, the processor starts with no tag |
| CodeBlocks.LanguageFence | markdown/codeBlock.go:68-83 | the loop over the known languages yields the fence opening `FenceText` defines: `#!` and the processor, replaced by the Gitea name of a known language |
| CodeBlocks.FindHtmlTag | markdown/codeBlock.go:87-93 | the loop over the tags returns the first tag the processor starts with, as `FirstTagPrefix` defines, or none |
| CodeBlocks.ClassifyOpening | markdown/codeBlock.go:55-106 | the step-by-step classification computes the opening text and the block kind that `OpeningFor` defines |
| CodeBlocks.OpeningWithoutProcessor | markdown/codeBlock.go:55-58 | an opening without a processor is a plain `{@{@{` fence |
| CodeBlocks.OpeningCommitTicketReference | markdown/codeBlock.go:65-67 | a `CommitTicketReference` processor is dropped, leaving a plain fence |
| CodeBlocks.OpeningFence | markdown/codeBlock.go:68-83 | a processor that is not a known language and not special is kept after `#!`; a known language replaces it |
| CodeBlocks.OpeningCpp | markdown/codeBlock.go:26-27 | `c++` opens a fence for `cpp` |
| CodeBlocks.OpeningUnknownProcessor | markdown/codeBlock.go:68-71 | an unknown processor is kept after `#!` in the fence |
| CodeBlocks.OpeningHtmlTag | markdown/codeBlock.go:87-93 | a processor starting with a block HTML tag opens that tag, with the whole processor inside the tag |
| CodeBlocks.OpeningComment | markdown/codeBlock.go:96-99 | `comment` opens an HTML comment |
| CodeBlocks.OpeningHtmlComment | markdown/codeBlock.go:96-106 | `htmlcomment` is overridden by the later `html` check and becomes raw html |
| CodeBlocks.Step | markdown/codeBlock.go:44-146 | one round of the recursion: the input strictly shrinks, the text before the boundary is copied, and the stack grows by one, shrinks by one, or stays empty |
| CodeBlocks.ParseUnfold | markdown/codeBlock.go:146 | parsing text with a boundary is one step followed by the parse of the rest |
| CodeBlocks.ConvertCodeBlocks | markdown/codeBlock.go:149-155 | the loop computes the parse from an empty stack: the output, plus the blocks left open |
| CodeBlocks.ParseWithoutBoundary | markdown/codeBlock.go:37-43 | text with no boundary comes back unchanged, and the open blocks stay open |
| CodeBlocks.ParseUnmatchedClose | markdown/codeBlock.go:115-117 | a `}}}` met when no block is open, after text with no earlier boundary, is copied literally and nothing is opened |
| CodeBlocks.ParseOpening | markdown/codeBlock.go:53-110 | after text with no earlier boundary, an opening becomes the text its directive calls for, consumes the directive, and pushes exactly one frame |
| CodeBlocks.ParseOpeningWith | markdown/codeBlock.go:53-110 | the same, for a directive that is already known |
| CodeBlocks.ParseClosing | markdown/codeBlock.go:113-142 | after text with no earlier boundary, a `}}}` pops the most recent frame, and that frame's kind decides the closing text |
| CodeBlocks.ParsePlainBlock | markdown/codeBlock.go:53-142 | `{{{x}}}`, where x has no `{{{` or `}}}` and starts with no directive, becomes `{@{@{x}@}@}` with x unchanged, and the rest is parsed with the stack as before |
| CodeBlocks.ParseProcessorOpening | markdown/codeBlock.go:47-58 | an opening line `{{{ws#!p` is consumed up to its newline |
| CodeBlocks.ParseProcessorBlock | markdown/codeBlock.go:47-142 | `{{{ws#!p` + newline + x + `}}}`, for any x without `{{{` or `}}}`, becomes the opening and the closing that `p` calls for around newline + x |
| CodeBlocks.ParseNestedBlocks | markdown/codeBlock.go:109-141 | an example of nesting: one plain block inside another becomes two nested fences, the inner one closed first, and the rest is parsed with the stack as before |
| CodeBlocks.ParseUnclosedBlock | markdown/codeBlock.go:37-110 | a plain block that is never closed stays on the stack, and its text, which has no boundary, is still emitted |
| CodeBlocks.LazyCloseFinds | markdown/codeBlock.go:17 | the lazy body `[^\n]+?` of a one-line body ends at the first `}@}@}`, which is the block's own |
| CodeBlocks.LazyCloseFails | markdown/codeBlock.go:17 | the inline pattern fails when a newline comes before the closing marker |
| CodeBlocks.NoInlineIn | markdown/codeBlock.go:17 | no inline block starts in text holding no marker |
| CodeBlocks.InlinePass | markdown/codeBlock.go:160 | a disguised block with a non-empty one-line body, whose own `}@}@}` is the first after its opening and with no marker elsewhere, becomes inline code in backticks |
| CodeBlocks.InlinePassMultiLine | markdown/codeBlock.go:160 | the inline pass leaves alone a block whose body spans lines, when no other marker is in the text |
| CodeBlocks.OpenMarkerOnlyAt | markdown/codeBlock.go:160-163 | in a disguised block with no other marker around it, `{@{@{` occurs only at its opening |
| CodeBlocks.UndisguiseInline | markdown/codeBlock.go:157-167 | a one-line disguised block, the only marked block in the text, turns into `` `x` ``; nothing else changes |
| CodeBlocks.UndisguiseFence | markdown/codeBlock.go:157-167 | a disguised block that spans lines, the only marked block in the text, turns into a triple-backtick fence with its body unchanged; nothing else changes |
| CodeBlocks.UndisguiseLeavesNoMarker | markdown/codeBlock.go:157-167 | whatever the text, no `{@{@{` or `}@}@}` is left after undisguising |
| Text.ReplaceAllLeavesNone | markdown/codeBlock.go:163-164 | strings.ReplaceAll of a pattern by text sharing no character with it leaves no occurrence of the pattern |
| Text.ReplaceAllKeepsAbsent | markdown/codeBlock.go:163-164 | strings.ReplaceAll does not create an occurrence of a word that shares no character with the replacement |
| CodeBlocks.SegmentEnd | markdown/codeBlock.go:15 | the lazy body of the non-code pattern ends at the end of the text or at the first line-initial `{@{@{` |
| CodeBlocks.ConvertNonCodeEmpty | markdown/codeBlock.go:169-171 | the empty text is never handed to the conversion |
| CodeBlocks.ConvertNonCodeWithoutFences | markdown/codeBlock.go:169-171 | text in which no line after the first starts with `{@{@{` is handed to the conversion whole; a marker in the middle of a line, such as that of inline code, does not split it |
| CodeBlocks.LeadingSegment | markdown/codeBlock.go:15 | the first segment is the marker-free text before a fence, with its newline and the fence's `{@{@{` |
| CodeBlocks.MiddleSegment | markdown/codeBlock.go:15 | between two fences, the segment runs from the `}@}@}` that ends a line to the next line-initial `{@{@{`, both included |
| CodeBlocks.TrailingSegment | markdown/codeBlock.go:15 | from a `}@}@}` that ends its line, followed by marker-free text, the segment runs to the end |
| CodeBlocks.FenceBodySkipped | markdown/codeBlock.go:15 | no segment starts inside a fence body that holds no `}@}@}` before its own; the text after the fence is one segment |
| CodeBlocks.ConvertNonCodeKeepsFenceBody | markdown/codeBlock.go:169-171 | with one fence: the text before it and the text after it are converted, each with its marker, and the fence body is kept exactly |
| CodeBlocks.ConvertNonCodeFences | markdown/codeBlock.go:169-171 | with any number of fences: each stretch between fences is converted with the markers that bound it, and every fence body is kept exactly |
| CodeBlocks.ConvertNonCodeIdentity | markdown/codeBlock.go:169-171 | whatever the text, the segments and the skipped text put back together give the text itself: the router loses and repeats nothing |
| Scanning.CopyingUnchanged | markdown/codeBlock.go:170 | a ReplaceAllStringFunc whose function gives back each match unchanged leaves the text unchanged |
| Links.DisguiseRoundTrip | markdown/link.go:436-452 | undisguising restores every link that disguising hid, on text with no disguised link of its own |
| Links.DisguisePrefix | markdown/link.go:443 | disguising rewrites only text that starts with `h` |
| Links.MarkMatch | markdown/link.go:76 | a mark around a URL without `@` is recognised whole, with the URL as its group |
| Links.NoMarkInsideMark | markdown/link.go:76 | no mark is recognised starting inside another mark |
| Links.UnmarkRemovesZeroWidth | markdown/link.go:420 | no zero-width space survives unmarking |
| Links.UnmarkStandalone | markdown/link.go:400-412 | a mark after any character but `]` becomes an autolink (for an http URL) or a link labelled with its URL; the character before it is kept |
| Links.UnmarkAfterBracket | markdown/link.go:414-418 | a mark after `]` becomes `(url)` |
| Links.UnmarkAtStart | markdown/link.go:398-423 | a mark at the very start of the text becomes `(url)`, because the no-text pattern needs a character before it |
| Links.NoTextPassSkipsMark | markdown/link.go:400-412 | the first unmark pass leaves a mark after `]` (or at the start) alone |
| Links.MarkedPassAtEnd | markdown/link.go:414-418 | the second unmark pass turns a mark into `(url)` |
| Links.NoDoubleOpenPasses | markdown/link.go:286-318 | without `[[`, the image pass and the double-bracket pass find nothing |
| Links.SingleBracketBare | markdown/link.go:26 | `[link]` is recognised with empty text |
| Links.SingleBracketWithText | markdown/link.go:26 | `[link text]` is recognised, with the text after the single space |
| Links.BracketBareLink | markdown/link.go:320-331 | `[link]` becomes the bare link between zero-width spaces |
| Links.BracketLinkWithText | markdown/link.go:320-334 | `[link text]` becomes `[text]link` followed by a zero-width space |
| Links.DoubleBracketWithText | markdown/link.go:22 | `[[link|text]]` is recognised whole |
| Links.DoubleBracketBare | markdown/link.go:22 | `[[link]]` is recognised whole, with empty text |
| Links.BracketDoubleWithText | markdown/link.go:303-334 | `[[link|text]]` becomes `[text]link` and a zero-width space, by way of `[link text]` |
| Links.BracketDoubleBare | markdown/link.go:303-331 | `[[link]]` becomes the bare link between zero-width spaces, by way of `[link]` |
| Links.BracketBreakKept | markdown/link.go:325-329 | `[br]` in any letter case is left alone |
| Links.BracketDoubleBreakKept | markdown/link.go:303-334 | `[[br]]` in any letter case is left alone |
| Links.AttachmentPrecedence | markdown/link.go:195-223 | attachment targets are chosen in order: explicit ticket, then explicit wiki page, then the current ticket, then the current page; with none of them the link is kept |
| Links.TicketAttachmentFails | markdown/link.go:166-187 | a ticket-attachment lookup fails exactly when the issue lookup errs or is null, or the attachment UUID errs or is empty |
| Links.ParseDigits | markdown/link.go:239 | a digit string parses as a 64-bit id exactly when its value fits |
| Links.TicketPassLink | markdown/link.go:237-257 | `ticket:N` becomes the marked issue URL, and is kept when N overflows or the ticket has no issue |
| Links.CommentPassUnknownTicket | markdown/link.go:119-124 | `comment:N` with no ticket, met outside a ticket, is kept |
| Links.CommentURLFails | markdown/link.go:102-149 | the comment link resolves exactly when the number parses as a 64-bit id, a ticket is known, the ticket has an issue, the comment has a non-zero time and the issue has a comment at that time; the URL is that of the first such comment; an explicit `:ticket:` wins over the current ticket |
| Links.CommentBeforeTicket | markdown/link.go:343-375 | `comment:N:ticket:M` becomes one comment link, because the comment pass runs before the ticket pass, which would have taken `ticket:M` alone |
| Links.MilestonePassLink | markdown/link.go:151-163 | `milestone:Name` becomes the marked milestone URL, and stays as it was when the lookup errs or finds no milestone |
| Links.WikiPassPage | markdown/link.go:259-264 | `wiki:Page` becomes the marked, translated page name |
| Links.WikiPassAnchor | markdown/link.go:259-266 | `wiki:Page#anchor` becomes the marked, translated page name followed by the anchor |
| Links.CamelCaseWord | markdown/link.go:269-278 | two capitalised syllables at the start, or after white space, a zero-width space or `]`, become a wiki link, with the lead kept outside the mark |
| Links.CamelCaseSingleWordKept | markdown/link.go:70 | a single capitalised word is not a link |
| Links.BracketPhaseLinkFree | markdown/link.go:283-337 | the bracket phase leaves text without link syntax unchanged |
| Links.ResolvePhaseLinkFree | markdown/link.go:340-386 | the resolve phase leaves text without link syntax unchanged |
| Links.UnmarkLinkFree | markdown/link.go:398-423 | unmarking leaves text without link syntax unchanged |
| Links.ConvertLinksLinkFree | markdown/link.go:425-434 | text without `[`, `:`, `(`, zero-width spaces or capitals comes out of the link conversion unchanged |
| Converter.NonCodeStageOrder | markdown/defaultConverter.go:27-55 | each stage runs exactly once: TOC first, links before anchors, lists and headings, font styles directly between disguise and undisguise, paragraphs last |
| Converter.StageLinkFree | markdown/defaultConverter.go:27-55 | every stage leaves text without link syntax unchanged, given that the passes not modelled do |
| Converter.ConvertNonCodeBlockTextLinkFree | markdown/defaultConverter.go:27-55 | the whole non-code conversion is the identity on text without link syntax |
| Converter.ParseOneBlock | markdown/defaultConverter.go:67 | the code-block parse of a plain block standing on lines of its own, between lines without `{{{` or `}}}` |
| Converter.RouteOneBlock | markdown/defaultConverter.go:70-72 | the non-code routing converts only the text around the disguised block, which without link syntax is left as it is |
| Converter.UndisguiseOneBlock | markdown/defaultConverter.go:75 | undisguising the single block that spans lines gives a triple-backtick fence |
| Converter.ConvertKeepsCodeBlock | markdown/defaultConverter.go:57-78 | a `{{{x}}}` block on lines of its own whose body spans lines, `{{{` + newline + … + newline + `}}}` included, comes out of the whole conversion with x unchanged between triple-backtick fences, even when x holds link syntax; x has no boundary, no directive and no marker |
| Converter.EntryPointsKeepCodeBlock | markdown/defaultConverter.go:81-88 | both TicketConvert and WikiConvert keep such a code block's body |
| Converter.ConvertLeavesNoMarker | markdown/defaultConverter.go:57-78 | whatever the input, passes and ids, the converted text holds no disguise marker |
| Converter.ConvertWithoutCodeBlocks | markdown/defaultConverter.go:57-78 | text with no `{{{` or `}}}` and no line-initial `{@{@{` goes through the non-code conversion in one piece and is then undisguised |
| Keywords.RowKeywordsShape | accessor/trac/keywords.go:29 | every keyword of a row is non-empty and holds no comma and no white space |
| Keywords.KeywordOfRow | accessor/trac/keywords.go:23-36 | every keyword of every row is collected |
| Keywords.RowOfKeyword | accessor/trac/keywords.go:23-36 | every collected keyword comes from some row |
| Keywords.FirstIndex | accessor/trac/keywords.go:32 | the first index holding the value |
| Keywords.FirstOccurrencesNoDuplicates | accessor/trac/keywords.go:31-35 | the collected keywords hold no duplicates |
| Keywords.FirstOccurrencesSameValues | accessor/trac/keywords.go:31-35 | exactly the values seen are collected |
| Keywords.FirstOccurrencesOrder | accessor/trac/keywords.go:31-35 | keywords are kept in the order of their first occurrence |
| Keywords.CollectKeywords | accessor/trac/keywords.go:22-36 | the row loop computes the first occurrences of all row keywords, with no duplicates and nothing missing |
| Keywords.DeliverKeywords | accessor/trac/keywords.go:38-46 | each keyword is passed in turn as a label with an empty description; the first error stops delivery and is returned |
| Keywords.GetKeywords | accessor/trac/keywords.go:15-47 | the handler receives the collected keywords in order, each as a label with an empty description; every delivery but the last succeeded; with no error all are delivered, and an error is the last delivery's |
| Delivery.HandledInSequence | accessor/trac/ticketChange.go:213-219 | delivering one sequence without error and then a second is delivering their concatenation |
| TicketChanges.SqlForFieldList | accessor/trac/ticketChange.go:15-25 | the loop builds the bracketed list of quoted fields separated by `, ` |
| TicketChanges.QuotedListHasEachField | accessor/trac/ticketChange.go:17-22 | every field appears in the list, quoted |
| TicketChanges.FieldListShape | accessor/trac/ticketChange.go:15-25 | the empty list is `()`, and every field appears single-quoted |
| TicketChanges.SqlForFieldOrdering | accessor/trac/ticketChange.go:28-36 | the loop builds `CASE field`, then one `WHEN` case per field, then ` END` |
| TicketChanges.OrderingCasesMapIndex | accessor/trac/ticketChange.go:30-33 | the field at index i is mapped to `THEN i`, and i reads back as the index |
| TicketChanges.FirstChangeNamesEachField | accessor/trac/ticketChange.go:39-52 | the earliest-change query names every listed field |
| TicketChanges.TicketTableFieldShape | accessor/trac/ticketChange.go:55-66 | the ticket-table query is a source-2 row that reads the field from `ticket t<i>`, with '' for NULL, at time 0 |
| TicketChanges.GetInitialTicketChanges | accessor/trac/ticketChange.go:117-159 | the row loop hands the initial changes to the handler in order, stopping at the first error |
| TicketChanges.InitialChangesPrefix | accessor/trac/ticketChange.go:117-157 | the changes of a prefix of the rows are a prefix of the changes |
| TicketChanges.InitialChangesShape | accessor/trac/ticketChange.go:140-153 | every initial change goes from "" to a non-empty value, by the reporter, at the creation time, on the ticket |
| TicketChanges.SourceOneFieldsSeen | accessor/trac/ticketChange.go:126-131 | a field is in source1Fields exactly when an earlier source-1 row named it |
| TicketChanges.InitialChangesAreKept | accessor/trac/ticketChange.go:126-143 | the changes are those of the rows kept: a source-2 row is dropped when a source-1 row for its field came first, and empty values are dropped |
| TicketChanges.GetRecordedTicketChanges | accessor/trac/ticketChange.go:188-209 | each recorded change is handed over in order, stopping at the first error |
| TicketChanges.GetTicketChanges | accessor/trac/ticketChange.go:213-219 | the initial changes and then the recorded ones are handed over in order; an error among the initial changes stops everything |
| TicketAttachments.Split | import/issue/ticketAttachment.go:29 | strings.Split always yields at least one part |
| TicketAttachments.SplitJoin | import/issue/ticketAttachment.go:29 | joining the parts gives the path back, and no part holds the separator |
| TicketAttachments.SplitLastTwo | import/issue/ticketAttachment.go:29-31 | the last two parts of `base/dir/file` are `dir` and `file` |
| TicketAttachments.AttachmentUUIDOfPath | import/issue/ticketAttachment.go:29-36 | the UUID is `000078ac-` followed by the first twelve characters of the directory and file components, 36 characters in the 8-4-4-4-12 layout |
| TicketAttachments.AttachmentCommentShape | import/issue/ticketAttachment.go:17 | the comment starts with `**Attachment** ` and the name, and ends with a blank line and then the description |
| TicketAttachments.ImportDecision | import/issue/ticketAttachment.go:16-58 | every error returns ""; an existing attachment is skipped; a UUID is returned exactly when AddAttachment was called with it (under the new comment, with the path and time) and succeeded |
| TicketAttachments.Outcomes | import/issue/ticketAttachment.go:63-64 | one outcome per attachment |
| TicketAttachments.LastUpdateIsEarliest | import/issue/ticketAttachment.go:61-71 | without failure, lastUpdate is at most `created` and at most every newly added time, and equals one of them |
| TicketAttachments.StoppedStays | import/issue/ticketAttachment.go:63-77 | after a failure, later attachments change nothing |
| TicketAttachments.ImportTicketAttachments | import/issue/ticketAttachment.go:60-80 | the method returns the fold's outcome: on success the last update, on failure 0 and the error, or a path panic |
| IssueComments.FindIndex | accessor/gitea/issueComment.go:73-91 | none exactly when no row has the key; otherwise the first row with the key |
| IssueComments.LowestTypeIndex | accessor/gitea/issueComment.go:18-40 | none exactly when no comment has the issue and time; otherwise the lowest type, and the first row among rows of that type |
| IssueComments.AddInserts | accessor/gitea/issueComment.go:101-102 | with no comment under the key, the comment is appended under a new ID |
| IssueComments.AddOverwrites | accessor/gitea/issueComment.go:105-114 | with overwrite, the first comment under the key is replaced in place and keeps its ID |
| IssueComments.AddIgnores | accessor/gitea/issueComment.go:110-114 | without overwrite, an existing comment leaves the table alone and its ID is returned |
| IssueComments.AddKeepsValid | accessor/gitea/issueComment.go:94-115 | IDs stay positive, distinct and below the next ID |
| IssueComments.AddThenFind | accessor/gitea/issueComment.go:94-115 | after an add, the key finds a row holding the returned ID |
| IssueComments.AddThenFindID | accessor/gitea/issueComment.go:73-115 | findIssueComment after AddIssueComment returns the returned ID |
| IssueComments.AddTwice | accessor/gitea/issueComment.go:94-115 | adding the same comment twice leaves the table as the first add left it, and returns the same ID |
| IssueComments.IssueCommentURLInjective | accessor/gitea/issueComment.go:118-121 | distinct issue or comment numbers of one repository give distinct URLs |
| IssueComments.CommentTable.constructor | accessor/gitea/issueComment.go:94-115 | an empty table with the first ID 1 and the given overwrite setting |
| IssueComments.CommentTable.GetIssueCommentIDByTime | accessor/gitea/issueComment.go:18-40 | -1 exactly when no comment has the issue and time; otherwise the ID of a lowest-type comment |
| IssueComments.CommentTable.FindIssueComment | accessor/gitea/issueComment.go:73-91 | -1 exactly when no comment has the key; otherwise the ID of a comment with the key |
| IssueComments.CommentTable.InsertIssueComment | accessor/gitea/issueComment.go:58-70 | the comment, with the issue and creation time set, is appended under the next ID |
| IssueComments.CommentTable.UpdateIssueComment | accessor/gitea/issueComment.go:43-55 | the row is replaced in place by the comment, with the ID, issue and creation time set |
| IssueComments.CommentTable.AddIssueComment | accessor/gitea/issueComment.go:94-115 | the new table, next ID and returned ID are those of the add, and the table invariant is kept |
| WikiRepo.SubstringIndexFrom | accessor/gitea/defaultAccessor.go:167 | strings.Index: the first position where the word starts, or none |
| WikiRepo.GivenURLKept | accessor/gitea/defaultAccessor.go:164-185 | a given URL is used unchanged, and no token is stored |
| WikiRepo.DirectoryDecided | accessor/gitea/defaultAccessor.go:145-161 | the directory is the given one or `<cwd>/<repo>.wiki`; a cwd error or an existing directory is reported before any URL work |
| WikiRepo.CredentialsAfterSlashes | accessor/gitea/defaultAccessor.go:167-175 | `user:token@` is put right after the first `//`, and removing it gives the root URL back |
| WikiRepo.TokenNeedsSlashes | accessor/gitea/defaultAccessor.go:166-172 | a token with a ROOT_URL lacking `//` is an error |
| WikiRepo.TrailingSlashIdempotent | accessor/gitea/defaultAccessor.go:179-181 | the URL ends in exactly one added `/`, and a second application changes nothing |
| WikiRepo.DerivedURLShape | accessor/gitea/defaultAccessor.go:164-183 | a derived URL is the root URL (with credentials when there is a token) ending in `/`, then `<user>/<repo>.wiki.git`; the token is stored |
| WikiRepo.WikiRepoFields.constructor | accessor/gitea/defaultAccessor.go:90-103 | the wiki fields start empty |
| WikiRepo.WikiRepoFields.SetUpWikiRepo | accessor/gitea/defaultAccessor.go:145-185 | the fields become the derived settings, or the failure is reported |

## Left out

- **Regular expressions in general.** Each pattern is modelled as a recogniser for that pattern only. Nothing is proved about Go's regexp engine beyond the leftmost-first, non-overlapping scan that the recognisers and `Scanning.ReplaceAllFunc` replay.
- **The other converter passes**, which are not part of this model: anchors, escapes, lists, definition lists, headings, font styles, block quotes, tables, paragraphs and the EOL conversion.
  - They are parameters of `Converter.Converter`.
  - The lemmas that run the whole pipeline assume them to be the identity (`Transparent`).
- Converter.ConvertNonCodeBlockTextLinkFree: holds only under that assumption about the passes not modelled, and only for text free of link syntax.
- Converter.ConvertKeepsCodeBlock: holds only under that assumption, for one block on lines of its own whose body spans lines; the lines around it hold no link syntax, no boundary and no marker. A one-line body (inline code) and the empty body are not covered by this lemma.
- Converter.EntryPointsKeepCodeBlock: the same restrictions as Converter.ConvertKeepsCodeBlock.
- Converter.RouteOneBlock: the text around the block holds no link syntax, so that the conversion leaves it as it is.
- Converter.ParseOneBlock: a plain block only; blocks with a processor are covered by CodeBlocks.ParseProcessorBlock.
- CodeBlocks.ParseNestedBlocks: states one level of nesting of plain blocks, as an example. Deeper nesting follows from the single-step lemmas (CodeBlocks.ParseOpening, CodeBlocks.ParseClosing), but no lemma states it for any depth.
- CodeBlocks.ParsePlainBlock: x holds no boundary and starts with no directive. Without those conditions the block is not a plain block with body x: it closes earlier, nests, or takes a processor.
- CodeBlocks.ParseProcessorBlock: the body holds no boundary, for the same reason.
- CodeBlocks.ParseUnclosedBlock: a plain block whose text holds no boundary.
- CodeBlocks.UndisguiseInline: the text holds no marker but the block's own. Text with several blocks is covered only by CodeBlocks.UndisguiseLeavesNoMarker.
- CodeBlocks.UndisguiseFence: the same restriction as CodeBlocks.UndisguiseInline.
- CodeBlocks.InlinePass: the same restriction as CodeBlocks.UndisguiseInline.
- CodeBlocks.InlinePassMultiLine: the same restriction as CodeBlocks.UndisguiseInline.
- CodeBlocks.ConvertNonCodeKeepsFenceBody: the text around the fence is marker-free. CodeBlocks.ConvertNonCodeFences covers any number of fences.
- CodeBlocks.FenceBodySkipped: the text after the fence is marker-free.
- CodeBlocks.ConvertNonCodeFences: each fence's `{@{@{` starts a line and its `}@}@}` ends one, as the parser emits them for a block on lines of its own; fences whose markers sit mid-line are covered only by CodeBlocks.ConvertNonCodeIdentity and CodeBlocks.ConvertNonCodeWithoutFences.
- **Links, specific inputs only.** The link lemmas (Links.TicketPassLink, Links.WikiPassPage, Links.CamelCaseWord, the bracket lemmas) state the conversion of specific link shapes. They do not characterise every input.
- **Image links** are recognised (`Links.ImageRec`, with the local-file test), but no lemma states their conversion.
- **Logging and I/O.** All logging is omitted. Database queries are left out, and so are `rows.Scan` errors and query errors. The htdocs resolver's copy of the file into the wiki (`GetFullPath` and `CopyFileToWiki`, markdown/link.go:93-96) is a side effect the model leaves out; `ResolveHtdocsLink` only builds the link.
  - Query results are parameters.
  - Row order is taken to be the order the SQL `ORDER BY` gives.
- **`os.Getwd`, `os.Stat` and ROOT_URL** are parameters of the wiki setup.
- **The repository URL** behind `getUserRepoURL` is a parameter of the issue-comment URL.
- **WikiRepo.JoinPath:** this covers `filepath.Join` for a plain directory and name only. `filepath.Clean` of `..`, `.` and repeated slashes is not modelled.
- **Integer width.** Integers are unbounded. The 64-bit limit is modelled only where the source parses ids (`Links.ParseDigits`). Attachment times and sizes do not wrap.
- **Bytes versus characters.** The source slices strings by bytes, and the model by characters. They agree on the ASCII paths and UUIDs that Trac produces.
- **TicketAttachments.ImportTicketAttachments: the GetAttachments accessor is not part of this model.** Attachments are taken to be delivered in order, stopping at the handler's first error. A slicing panic on a malformed path is reported as a `PathPanic` outcome.
- **TicketAttachments.ImportDecision:** importTicketComment, GetTicketAttachmentPath, os.Stat, GetAttachmentUUID and AddAttachment are functions in a `Services` record. Any state they change in Gitea is not modelled.
- **GetTicketCommentTime** (accessor/trac/ticketChange.go:222-235) is a single database lookup. It is left out, and it appears only as the `Links.TracAccessor` function the comment-link resolver calls.
- **Field lists.** The contents of `initialTicketChangeFields` and `recordedTicketChangeFields` are not modelled. Their constants are defined outside the files modelled, so the SQL functions take the field list as a parameter.
- **The recorded-changes query's filter** is left out. That covers blank comments and the field list, which the SQL applies before the rows reach the loop.
- **Keywords.DeliverKeywords:** this states the delivered labels and the stop-at-first-error rule field by field, rather than through `Delivery.HandledInOrder`. The two say the same thing.
- **IssueComments.CommentTable:** only the columns the source reads or sets are modelled (ID, issue, type, created time, time, text). Database errors on insert, update and find are not modelled.
- **Comment ID lookup, version mismatch.** The link resolver calls `GetIssueCommentIDsByTime` (markdown/link.go:142), which returns a list. The accessor in accessor/gitea/issueComment.go:18 returns a single ID. The model follows each file as written, and the accessor is a parameter of the resolver.
- **IssueComments.CommentTable.GetIssueCommentIDByTime:** when several comments share the lowest type, the model returns the first in table order. The database makes no promise about that order.
- **CodeBlocks.ConvertCodeBlocks:** the source logs an error for blocks left open at the end. The model returns them instead.
- **WikiRepo.WikiRepoFields.SetUpWikiRepo:** this requires the wiki fields to be empty, as the accessor's struct literal leaves them. The other fields of `CreateDefaultAccessor` are not modelled.
- **HTML-tag processors:** the test file markdown/codeBlock_test.go expects a `#!span` processor to open a tag. `span` is not among the tags that markdown/codeBlock.go:24 lists. The model follows the code.
