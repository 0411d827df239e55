/**
 * Import of Trac ticket attachments (import/issue/ticketAttachment.go): the
 * Gitea UUID derived from the Trac attachment path, the skip/add decision
 * for one attachment, and the `lastUpdate` fold over all attachments of a
 * ticket.
 */
module TicketAttachments {
  import opened Wrappers
  import opened Text

  type Error = String

  // ---------------------------------------------------------------------
  // Paths.

  /** strings.Split on a single-character separator. */
  function Split(s: String, sep: char): (parts: seq<String>)
    ensures |parts| >= 1
  {
    if s == [] then [""]
    else
      var rest := Split(s[1..], sep);
      if s[0] == sep then [""] + rest else [[s[0]] + rest[0]] + rest[1..]
  }

  /** strings.Join on a single-character separator: the inverse of Split. */
  function Join(parts: seq<String>, sep: char): String
    requires |parts| >= 1
  {
    if |parts| == 1 then parts[0] else parts[0] + [sep] + Join(parts[1..], sep)
  }

  /** Splitting and joining again gives the path back, and no part holds the separator. */
  lemma {:induction false} SplitJoin(s: String, sep: char)
    ensures Join(Split(s, sep), sep) == s
    ensures forall k | 0 <= k < |Split(s, sep)| :: sep !in Split(s, sep)[k]
    decreases |s|
  {
    if s != [] {
      var rest := Split(s[1..], sep);
      SplitJoin(s[1..], sep);
      if s[0] == sep {
        assert Split(s, sep)[1..] == rest;
      } else {
        var parts := Split(s, sep);
        if |rest| == 1 {
          assert parts == [[s[0]] + rest[0]];
        } else {
          assert parts[1..] == rest[1..];
          assert Join(rest, sep) == rest[0] + [sep] + Join(rest[1..], sep);
        }
        forall k | 0 <= k < |parts| ensures sep !in parts[k] {
          if k > 0 {
            assert parts[k] == rest[k];
          }
        }
      }
    }
  }

  /** Prefix of every Trac attachment UUID (the marker trac2gogs uses). */
  const UUIDPrefix: String := "000078ac-"

  /**
   * The UUID of the attachment stored at `path`: built from the first twelve
   * characters of the last two path components. None where the slicing
   * panics: a path without `/`, or a component shorter than twelve.
   */
  function AttachmentUUID(path: String): Option<String> {
    var elems := Split(path, '/');
    if |elems| < 2 then None
    else
      var dir := elems[|elems| - 2];
      var file := elems[|elems| - 1];
      if |dir| < 12 || |file| < 12 then None
      else Some(UUIDPrefix + dir[0..4] + "-" + dir[4..8] + "-" + dir[8..12] + "-" + file[0..12])
  }

  /**
   * A path `<base>/<dir>/<file>` with no `/` in the last two components gives
   * the UUID made of their first twelve characters; it is 9 + 4 + 1 + 4 + 1 +
   * 4 + 1 + 12 = 36 characters long, in the 8-4-4-4-12 layout.
   */
  lemma AttachmentUUIDOfPath(base: String, dir: String, file: String)
    requires '/' !in dir && '/' !in file && |dir| >= 12 && |file| >= 12
    ensures var uuid := AttachmentUUID(base + "/" + dir + "/" + file);
      uuid == Some(UUIDPrefix + dir[0..4] + "-" + dir[4..8] + "-" + dir[8..12] + "-" + file[0..12]) &&
      |uuid.value| == 36 &&
      uuid.value[8] == '-' && uuid.value[13] == '-' && uuid.value[18] == '-' && uuid.value[23] == '-'
  {
    var path := base + "/" + dir + "/" + file;
    SplitLastTwo(base, dir, file, '/');
  }

  /** The last two parts of `base/dir/file` are `dir` and `file`. */
  lemma SplitLastTwo(base: String, dir: String, file: String, sep: char)
    requires sep !in dir && sep !in file
    ensures var parts := Split(base + [sep] + dir + [sep] + file, sep);
      |parts| >= 3 && parts[|parts| - 2] == dir && parts[|parts| - 1] == file
  {
    SplitLastTwoOf(base + [sep] + dir + [sep] + file, base, dir, file, sep);
  }

  lemma {:induction false} SplitLastTwoOf(s: String, base: String, dir: String, file: String, sep: char)
    requires sep !in dir && sep !in file
    requires s == base + [sep] + dir + [sep] + file
    ensures var parts := Split(s, sep);
      |parts| >= 3 && parts[|parts| - 2] == dir && parts[|parts| - 1] == file
    decreases |base|
  {
    if base == [] {
      SplitNoBase(dir, file, sep);
    } else {
      PathTail(base, dir, file, sep);
      SplitLastTwoOf(s[1..], base[1..], dir, file, sep);
      SplitKeepsLastTwo(s, sep);
    }
  }

  /** `/dir/file` splits into an empty first part, `dir` and `file`. */
  lemma SplitNoBase(dir: String, file: String, sep: char)
    requires sep !in dir && sep !in file
    ensures var parts := Split([] + [sep] + dir + [sep] + file, sep);
      |parts| >= 3 && parts[|parts| - 2] == dir && parts[|parts| - 1] == file
  {
    SplitTwoAfterSep(dir, file, sep);
    NoBasePath(dir, file, sep);
  }

  lemma NoBasePath(dir: String, file: String, sep: char)
    ensures [] + [sep] + dir + [sep] + file == [sep] + (dir + ([sep] + file))
  {
  }

  lemma PathTail(base: String, dir: String, file: String, sep: char)
    requires base != []
    ensures (base + [sep] + dir + [sep] + file)[1..] == base[1..] + [sep] + dir + [sep] + file
  {
  }

  /** The first character of a path changes only its first part, not its last two. */
  lemma SplitKeepsLastTwo(s: String, sep: char)
    requires s != [] && |Split(s[1..], sep)| >= 3
    ensures var parts := Split(s, sep); var rest := Split(s[1..], sep);
      |parts| >= 3 && parts[|parts| - 2] == rest[|rest| - 2] && parts[|parts| - 1] == rest[|rest| - 1]
  {
    var rest := Split(s[1..], sep);
    var head := if s[0] == sep then "" else [s[0]] + rest[0];
    var tail := if s[0] == sep then rest else rest[1..];
    SplitUnfold(s, sep);
    LastTwoOfCons(head, tail, rest);
  }

  lemma SplitUnfold(s: String, sep: char)
    requires s != []
    ensures var rest := Split(s[1..], sep);
      Split(s, sep) == if s[0] == sep then [""] + rest else [[s[0]] + rest[0]] + rest[1..]
  {
  }

  lemma LastTwoOfCons(head: String, tail: seq<String>, rest: seq<String>)
    requires |rest| >= 3 && (tail == rest || tail == rest[1..])
    ensures var parts := [head] + tail;
      |parts| >= 3 && parts[|parts| - 2] == rest[|rest| - 2] && parts[|parts| - 1] == rest[|rest| - 1]
  {
  }

  lemma SplitTwoAfterSep(dir: String, file: String, sep: char)
    requires sep !in dir && sep !in file
    ensures Split([sep] + (dir + ([sep] + file)), sep) == ["", dir, file]
  {
    var x := dir + ([sep] + file);
    SplitNoSep(file, sep);
    SplitCons(dir, [sep] + file, sep);
    assert ([sep] + file)[1..] == file;
    assert Split(x, sep) == [dir, file];
    assert ([sep] + x)[1..] == x;
  }

  lemma {:induction false} SplitNoSep(s: String, sep: char)
    requires sep !in s
    ensures Split(s, sep) == [s]
    decreases |s|
  {
    if s != [] {
      SplitNoSep(s[1..], sep);
      assert [s[0]] + s[1..] == s;
    }
  }

  /** A separator-free head becomes the first part, the rest split after its separator. */
  lemma {:induction false} SplitCons(head: String, tail: String, sep: char)
    requires sep !in head && tail != [] && tail[0] == sep
    ensures Split(head + tail, sep) == [head] + Split(tail[1..], sep)
    decreases |head|
  {
    if head == [] {
      assert head + tail == tail;
    } else {
      SplitCons(head[1..], tail, sep);
      assert (head + tail)[1..] == head[1..] + tail;
      assert [head[0]] + head[1..] == head;
    }
  }

  // ---------------------------------------------------------------------
  // One attachment.

  /** The text of the comment that announces an attachment. */
  function AttachmentComment(name: String, size: int, desc: String): String {
    "**Attachment** " + name + " (" + IntToString(size) + " bytes) added\n\n" + desc
  }

  /** The comment starts with the attachment's name and ends with its description after a blank line. */
  lemma AttachmentCommentShape(name: String, size: int, desc: String)
    ensures var c := AttachmentComment(name, size, desc);
      HasPrefix(c, "**Attachment** " + name + " (") &&
      |c| >= |desc| + 2 && c[|c| - |desc|..] == desc && c[|c| - |desc| - 2..|c| - |desc|] == "\n\n"
  {
    var c := AttachmentComment(name, size, desc);
    var head := "**Attachment** " + name + " (";
    assert c == head + (IntToString(size) + " bytes) added\n\n") + desc;
    assert c[..|head|] == head;
  }

  /** The arguments of an AddAttachment call. */
  datatype AddCall = AddCall(uuid: String, issueID: int, commentID: int, name: String, path: String, time: int)

  /**
   * The operations importTicketAttachment relies on, each as the outcome it
   * reports: importing the announcing comment (its ID or an error), the
   * Trac path of an attachment, os.Stat of that path, the UUID of an
   * existing Gitea attachment of that name ("" for none) and AddAttachment.
   */
  datatype Services = Services(
    importComment: (int, int, int, String, String) -> Result<int, Error>,
    attachmentPath: (int, String) -> String,
    stat: String -> Option<Error>,
    existingUUID: (int, String) -> Result<String, Error>,
    addAttachment: AddCall -> Option<Error>)

  /**
   * The outcome of importTicketAttachment: the UUID ("" when nothing new was
   * added), the error, and the AddAttachment call made if any; or the panic
   * the slicing raises on a path unfit for a UUID.
   */
  datatype Imported =
    | Imported(uuid: String, err: Option<Error>, added: Option<AddCall>)
    | PathPanic(path: String)

  /** importTicketAttachment. */
  function ImportTicketAttachment(sv: Services, issueID: int, ticketID: int, time: int, size: int,
                                  author: String, name: String, desc: String): Imported
  {
    match sv.importComment(issueID, ticketID, time, author, AttachmentComment(name, size, desc))
    case Err(e) => Imported("", Some(e), None)
    case Ok(commentID) =>
      var path := sv.attachmentPath(ticketID, name);
      if sv.stat(path).Some? then Imported("", sv.stat(path), None)
      else match AttachmentUUID(path)
        case None => PathPanic(path)
        case Some(uuid) =>
          match sv.existingUUID(issueID, name)
          case Err(e) => Imported("", Some(e), None)
          case Ok(existing) =>
            if existing != "" then Imported("", None, None)
            else
              var call := AddCall(uuid, issueID, commentID, name, path, time);
              match sv.addAttachment(call)
              case Some(e) => Imported("", Some(e), Some(call))
              case None => Imported(uuid, None, Some(call))
  }

  /**
   * The decision of importTicketAttachment: every error gives "" with that
   * error; an existing attachment of that name, whatever its UUID, gives ""
   * with no error and nothing added; a UUID is returned exactly when
   * AddAttachment was called for it, under the comment just imported, and
   * succeeded.
   */
  lemma ImportDecision(sv: Services, issueID: int, ticketID: int, time: int, size: int,
                       author: String, name: String, desc: String)
    ensures var r := ImportTicketAttachment(sv, issueID, ticketID, time, size, author, name, desc);
      var path := sv.attachmentPath(ticketID, name);
      var comment := sv.importComment(issueID, ticketID, time, author, AttachmentComment(name, size, desc));
      (r.Imported? && r.err.Some? ==> r.uuid == "") &&
      (comment.Err? ==> r == Imported("", Some(comment.error), None)) &&
      (r.PathPanic? <==> comment.Ok? && sv.stat(path).None? && AttachmentUUID(path).None?) &&
      (r.Imported? && r.added.Some? ==>
        comment.Ok? && sv.existingUUID(issueID, name) == Ok("") &&
        r.added == Some(AddCall(AttachmentUUID(path).value, issueID, comment.value, name, path, time))) &&
      (comment.Ok? && sv.stat(path).None? && AttachmentUUID(path).Some? &&
       sv.existingUUID(issueID, name).Ok? && sv.existingUUID(issueID, name).value != "" ==>
        r == Imported("", None, None)) &&
      (r.Imported? && r.uuid != "" <==>
        r.Imported? && r.added.Some? && sv.addAttachment(r.added.value).None?) &&
      (r.Imported? && r.uuid != "" ==> r.uuid == AttachmentUUID(path).value && r.err.None?)
  {
  }

  // ---------------------------------------------------------------------
  // All attachments of a ticket.

  /** An attachment as the Trac accessor hands it over. */
  datatype Attachment = Attachment(ticketID: int, time: int, size: int, author: String, filename: String, description: String)

  /** An attachment's time and the outcome of importing it. */
  datatype Handled = Handled(time: int, result: Imported)

  /** The outcome of importTicketAttachment for each attachment, in order. */
  function Outcomes(sv: Services, issueID: int, atts: seq<Attachment>): (hs: seq<Handled>)
    ensures |hs| == |atts|
  {
    seq(|atts|, i requires 0 <= i < |atts| =>
      var a := atts[i];
      Handled(a.time, ImportTicketAttachment(sv, issueID, a.ticketID, a.time, a.size, a.author, a.filename, a.description)))
  }

  /** Where the fold over the attachments stands. */
  datatype FoldState = Running(lastUpdate: int) | Stopped(err: Error) | Panicked(path: String)

  /** One call of the handler of importTicketAttachments. */
  function FoldStep(state: FoldState, h: Handled): FoldState {
    match state
    case Running(last) =>
      (match h.result
       case PathPanic(p) => Panicked(p)
       case Imported(uuid, err, _) =>
         if err.Some? then Stopped(err.value)
         else if uuid != "" && last > h.time then Running(h.time)
         else Running(last))
    case _ => state
  }

  /** The handler of importTicketAttachments run over the outcomes, starting from `created`. */
  function LastUpdateFold(created: int, hs: seq<Handled>): FoldState {
    if hs == [] then Running(created)
    else FoldStep(LastUpdateFold(created, hs[..|hs| - 1]), hs[|hs| - 1])
  }

  /** The attachment was newly added to Gitea. */
  predicate NewlyAdded(h: Handled) {
    h.result.Imported? && h.result.uuid != ""
  }

  /**
   * When no attachment failed, lastUpdate is the earliest of `created` and the
   * times of newly added attachments: it never exceeds `created`, and it is
   * either `created` or the time of some newly added attachment.
   */
  lemma {:induction false} LastUpdateIsEarliest(created: int, hs: seq<Handled>)
    ensures var f := LastUpdateFold(created, hs);
      f.Running? ==>
        f.lastUpdate <= created &&
        (forall i | 0 <= i < |hs| && NewlyAdded(hs[i]) :: f.lastUpdate <= hs[i].time) &&
        (f.lastUpdate == created || exists i | 0 <= i < |hs| :: NewlyAdded(hs[i]) && f.lastUpdate == hs[i].time)
    decreases |hs|
  {
    if hs != [] {
      var n := |hs| - 1;
      var init := hs[..n];
      LastUpdateIsEarliest(created, init);
      assert forall i | 0 <= i < n :: init[i] == hs[i];
      var f := LastUpdateFold(created, hs);
      var g := LastUpdateFold(created, init);
      if f.Running? {
        assert g.Running?;
        if f.lastUpdate != g.lastUpdate {
          assert NewlyAdded(hs[n]) && f.lastUpdate == hs[n].time;
        } else if g.lastUpdate != created {
          var i :| 0 <= i < n && NewlyAdded(init[i]) && g.lastUpdate == init[i].time;
          assert NewlyAdded(hs[i]) && f.lastUpdate == hs[i].time;
        }
      }
    }
  }

  /** A failure stops the fold for good: later attachments change nothing. */
  lemma {:induction false} StoppedStays(created: int, hs: seq<Handled>, n: nat)
    requires n <= |hs| && !LastUpdateFold(created, hs[..n]).Running?
    ensures LastUpdateFold(created, hs) == LastUpdateFold(created, hs[..n])
    decreases |hs| - n
  {
    if n == |hs| {
      assert hs[..n] == hs;
    } else {
      assert hs[..n + 1][..n] == hs[..n];
      StoppedStays(created, hs, n + 1);
    }
  }

  /**
   * importTicketAttachments over the attachments GetAttachments hands over:
   * on success the earliest time of a newly added attachment, or `created`;
   * a failure returns 0 with the error; a path panic is reported as such.
   */
  method ImportTicketAttachments(sv: Services, issueID: int, created: int, atts: seq<Attachment>)
    returns (lastUpdate: int, err: Option<Error>, panicked: bool)
    ensures match LastUpdateFold(created, Outcomes(sv, issueID, atts))
      case Running(l) => lastUpdate == l && err.None? && !panicked
      case Stopped(e) => lastUpdate == 0 && err == Some(e) && !panicked
      case Panicked(_) => panicked
    ensures err.None? && !panicked ==> lastUpdate <= created
  {
    ghost var hs := Outcomes(sv, issueID, atts);
    lastUpdate := created;
    var i := 0;
    while i < |atts|
      invariant 0 <= i <= |atts|
      invariant LastUpdateFold(created, hs[..i]) == Running(lastUpdate)
    {
      assert hs[..i + 1][..i] == hs[..i];
      var a := atts[i];
      var r := ImportTicketAttachment(sv, issueID, a.ticketID, a.time, a.size, a.author, a.filename, a.description);
      assert hs[i] == Handled(a.time, r);
      if r.PathPanic? {
        StoppedStays(created, hs, i + 1);
        return 0, None, true;
      }
      if r.err.Some? {
        StoppedStays(created, hs, i + 1);
        return 0, r.err, false;
      }
      if r.uuid != "" && lastUpdate > a.time {
        lastUpdate := a.time;
      }
      i := i + 1;
    }
    assert hs[..i] == hs;
    LastUpdateIsEarliest(created, hs);
    err, panicked := None, false;
  }
}
