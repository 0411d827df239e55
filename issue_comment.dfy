/**
 * Issue comments of the Gitea accessor (accessor/gitea/issueComment.go): the
 * comment table is searched by issue, creation time and comment type; a
 * comment is inserted under a fresh ID, overwritten in place keeping its
 * ID, or left alone, depending on whether it exists and on the overwrite
 * setting.
 */
module IssueComments {
  import opened Wrappers
  import opened Text

  /** A row of the comment table, reduced to the columns these operations use. */
  datatype IssueComment = IssueComment(id: int, issueID: int, commentType: int, createdTime: int, time: int, text: String)

  /** The key findIssueComment searches by: issue, creation time and type together. */
  predicate Matches(c: IssueComment, issueID: int, createdTime: int, commentType: int) {
    c.issueID == issueID && c.createdTime == createdTime && c.commentType == commentType
  }

  /** Comment IDs are positive and unique, and below the next ID to hand out. */
  ghost predicate ValidTable(rows: seq<IssueComment>, nextID: int) {
    nextID >= 1 &&
    (forall k | 0 <= k < |rows| :: 1 <= rows[k].id < nextID) &&
    (forall i, j | 0 <= i < j < |rows| :: rows[i].id != rows[j].id)
  }

  /** The first row with the key, in table order. */
  function FindIndex(rows: seq<IssueComment>, issueID: int, createdTime: int, commentType: int): (r: Option<nat>)
    ensures r.None? <==> forall k | 0 <= k < |rows| :: !Matches(rows[k], issueID, createdTime, commentType)
    ensures r.Some? ==>
      r.value < |rows| && Matches(rows[r.value], issueID, createdTime, commentType) &&
      forall k | 0 <= k < r.value :: !Matches(rows[k], issueID, createdTime, commentType)
  {
    if rows == [] then None
    else if Matches(rows[0], issueID, createdTime, commentType) then Some(0)
    else
      match FindIndex(rows[1..], issueID, createdTime, commentType)
      case None => None
      case Some(i) => Some(i + 1)
  }

  /** findIssueComment over a table: the ID of the first row with the key, or -1. */
  function FindIn(rows: seq<IssueComment>, issueID: int, createdTime: int, commentType: int): int {
    match FindIndex(rows, issueID, createdTime, commentType)
    case None => -1
    case Some(i) => rows[i].id
  }

  /**
   * The comment at (issue, time) of lowest type; among several of that type
   * the first in table order.
   */
  function LowestTypeIndex(rows: seq<IssueComment>, issueID: int, createdTime: int): (r: Option<nat>)
    ensures r.None? <==> forall k | 0 <= k < |rows| :: !(rows[k].issueID == issueID && rows[k].createdTime == createdTime)
    ensures r.Some? ==>
      r.value < |rows| && rows[r.value].issueID == issueID && rows[r.value].createdTime == createdTime &&
      (forall k | 0 <= k < |rows| && rows[k].issueID == issueID && rows[k].createdTime == createdTime ::
        rows[r.value].commentType <= rows[k].commentType) &&
      (forall k | 0 <= k < r.value && rows[k].issueID == issueID && rows[k].createdTime == createdTime ::
        rows[r.value].commentType < rows[k].commentType)
    decreases |rows|
  {
    if rows == [] then None
    else
      var n := |rows| - 1;
      var r := LowestTypeIndex(rows[..n], issueID, createdTime);
      assert forall k | 0 <= k < n :: rows[..n][k] == rows[k];
      if !(rows[n].issueID == issueID && rows[n].createdTime == createdTime) then r
      else if r.None? || rows[n].commentType < rows[r.value].commentType then Some(n)
      else r
  }

  /** The comment with the given text at the given position of the table, with its ID and issue set as insert and update set them. */
  function Stored(comment: IssueComment, id: int, issueID: int): IssueComment {
    comment.(id := id, issueID := issueID, createdTime := comment.time)
  }

  /** The table, the next ID, the returned ID and the caller's comment after AddIssueComment. */
  datatype AddOutcome = AddOutcome(rows: seq<IssueComment>, nextID: int, id: int, comment: IssueComment)

  /** What AddIssueComment does to a table. */
  function Add(rows: seq<IssueComment>, nextID: int, overwrite: bool, issueID: int, comment: IssueComment): AddOutcome {
    match FindIndex(rows, issueID, comment.createdTime, comment.commentType)
    case None =>
      var c := Stored(comment, nextID, issueID);
      AddOutcome(rows + [c], nextID + 1, nextID, c)
    case Some(i) =>
      if overwrite then
        var c := Stored(comment, rows[i].id, issueID);
        AddOutcome(rows[i := c], nextID, rows[i].id, c)
      else AddOutcome(rows, nextID, rows[i].id, comment)
  }

  /** With no comment under the key, the comment is appended under the next ID, which is new. */
  lemma AddInserts(rows: seq<IssueComment>, nextID: int, overwrite: bool, issueID: int, comment: IssueComment)
    requires ValidTable(rows, nextID)
    requires forall k | 0 <= k < |rows| :: !Matches(rows[k], issueID, comment.createdTime, comment.commentType)
    ensures var o := Add(rows, nextID, overwrite, issueID, comment);
      o.id == nextID && o.rows[..|rows|] == rows && |o.rows| == |rows| + 1 &&
      o.rows[|rows|] == o.comment &&
      o.comment.id == o.id && o.comment.issueID == issueID && o.comment.createdTime == comment.time &&
      o.comment.text == comment.text && o.comment.commentType == comment.commentType &&
      forall k | 0 <= k < |rows| :: rows[k].id != o.id
  {
  }

  /**
   * With overwrite, the first comment under the key is replaced in place and
   * keeps its ID; the other rows and the next ID are unchanged.
   */
  lemma AddOverwrites(rows: seq<IssueComment>, nextID: int, issueID: int, comment: IssueComment, i: nat)
    requires i < |rows| && Matches(rows[i], issueID, comment.createdTime, comment.commentType)
    requires forall k | 0 <= k < i :: !Matches(rows[k], issueID, comment.createdTime, comment.commentType)
    ensures var o := Add(rows, nextID, true, issueID, comment);
      o.id == rows[i].id && |o.rows| == |rows| && o.nextID == nextID &&
      o.rows[i] == o.comment && o.comment.id == rows[i].id && o.comment.issueID == issueID &&
      o.comment.createdTime == comment.time && o.comment.text == comment.text &&
      forall k | 0 <= k < |rows| && k != i :: o.rows[k] == rows[k]
  {
    assert FindIndex(rows, issueID, comment.createdTime, comment.commentType) == Some(i);
  }

  /** Without overwrite, an existing comment under the key leaves everything alone and its ID is returned. */
  lemma AddIgnores(rows: seq<IssueComment>, nextID: int, issueID: int, comment: IssueComment, i: nat)
    requires i < |rows| && Matches(rows[i], issueID, comment.createdTime, comment.commentType)
    requires forall k | 0 <= k < i :: !Matches(rows[k], issueID, comment.createdTime, comment.commentType)
    ensures Add(rows, nextID, false, issueID, comment) == AddOutcome(rows, nextID, rows[i].id, comment)
  {
    assert FindIndex(rows, issueID, comment.createdTime, comment.commentType) == Some(i);
  }

  /** IDs stay positive, unique and below the next ID. */
  lemma AddKeepsValid(rows: seq<IssueComment>, nextID: int, overwrite: bool, issueID: int, comment: IssueComment)
    requires ValidTable(rows, nextID)
    ensures var o := Add(rows, nextID, overwrite, issueID, comment);
      ValidTable(o.rows, o.nextID) && o.nextID >= nextID && 1 <= o.id < o.nextID
  {
    var o := Add(rows, nextID, overwrite, issueID, comment);
    var r := FindIndex(rows, issueID, comment.createdTime, comment.commentType);
    if r.None? {
      forall i, j | 0 <= i < j < |o.rows| ensures o.rows[i].id != o.rows[j].id {
        if j == |rows| {
          assert o.rows[i] == rows[i];
        } else {
          assert o.rows[i] == rows[i] && o.rows[j] == rows[j];
        }
      }
    } else if overwrite {
      var i := r.value;
      forall a, b | 0 <= a < b < |o.rows| ensures o.rows[a].id != o.rows[b].id {
        assert o.rows[a].id == rows[a].id && o.rows[b].id == rows[b].id;
      }
    }
  }

  /**
   * Once added, a comment whose creation time is its time is found under its
   * key, with the returned ID.
   */
  lemma AddThenFind(rows: seq<IssueComment>, nextID: int, overwrite: bool, issueID: int, comment: IssueComment)
    requires ValidTable(rows, nextID) && comment.createdTime == comment.time
    ensures var o := Add(rows, nextID, overwrite, issueID, comment);
      var r := FindIndex(rows, issueID, comment.createdTime, comment.commentType);
      var i := if r.None? then |rows| else r.value;
      FindIndex(o.rows, issueID, comment.createdTime, comment.commentType) == Some(i) && o.rows[i].id == o.id
  {
    var o := Add(rows, nextID, overwrite, issueID, comment);
    var r := FindIndex(rows, issueID, comment.createdTime, comment.commentType);
    var f := FindIndex(o.rows, issueID, comment.createdTime, comment.commentType);
    var i := if r.None? then |rows| else r.value;
    assert forall k | 0 <= k < i :: o.rows[k] == rows[k];
    assert Matches(o.rows[i], issueID, comment.createdTime, comment.commentType);
    assert f == Some(i);
  }

  /** findIssueComment after AddIssueComment: a comment whose creation time is its time is found under the returned ID. */
  lemma AddThenFindID(rows: seq<IssueComment>, nextID: int, overwrite: bool, issueID: int, comment: IssueComment)
    requires ValidTable(rows, nextID) && comment.createdTime == comment.time
    ensures var o := Add(rows, nextID, overwrite, issueID, comment);
      FindIn(o.rows, issueID, comment.createdTime, comment.commentType) == o.id
  {
    AddThenFind(rows, nextID, overwrite, issueID, comment);
  }

  /**
   * Adding the same comment twice adds it once: the second call finds the
   * first one's row, returns its ID and leaves the table as the first call
   * left it.
   */
  lemma AddTwice(rows: seq<IssueComment>, nextID: int, overwrite: bool, issueID: int, comment: IssueComment)
    requires ValidTable(rows, nextID) && comment.createdTime == comment.time
    ensures var o1 := Add(rows, nextID, overwrite, issueID, comment);
      var o2 := Add(o1.rows, o1.nextID, overwrite, issueID, comment);
      o2.rows == o1.rows && o2.nextID == o1.nextID && o2.id == o1.id
  {
    AddThenFind(rows, nextID, overwrite, issueID, comment);
  }

  /**
   * GetIssueCommentURL: `<repoURL>/issues/<issue>#issuecomment-<comment>`;
   * the repository URL itself comes from configuration and is a parameter.
   */
  function IssueCommentURL(repoURL: String, issueNumber: int, commentID: int): String {
    repoURL + "/issues/" + IntToString(issueNumber) + "#issuecomment-" + IntToString(commentID)
  }

  lemma NatToStringDigits(n: nat)
    ensures '#' !in NatToString(n) && NatToString(n) != []
  {
    var s := NatToString(n);
    assert forall k | 0 <= k < |s| :: IsDigit(s[k]);
  }

  /** The first `#` of `a + "#" + b` is the one after `a`, when `a` holds none. */
  lemma FirstHash(a: String, b: String)
    requires '#' !in a
    ensures IndexFrom(a + "#" + b, 0, '#') == Some(|a|)
  {
    var s := a + "#" + b;
    assert s[|a|] == '#';
    assert forall i | 0 <= i < |a| :: s[i] == a[i];
  }

  /** Splitting at the first `#` undoes `a + "#" + b`. */
  lemma SplitAtHash(a: String, b: String, a2: String, b2: String)
    requires '#' !in a && '#' !in a2 && a + "#" + b == a2 + "#" + b2
    ensures a == a2 && b == b2
  {
    var s := a + "#" + b;
    FirstHash(a, b);
    FirstHash(a2, b2);
    assert a == s[..|a|] && a2 == s[..|a2|];
    assert b == s[|a| + 1..] && b2 == s[|a2| + 1..];
  }

  lemma CancelPrefix(p: String, x: String, y: String)
    requires p + x == p + y
    ensures x == y
  {
    assert x == (p + x)[|p|..] && y == (p + y)[|p|..];
  }

  lemma IssueCommentURLParts(repoURL: String, n: nat, c: nat)
    ensures IssueCommentURL(repoURL, n, c) ==
      (repoURL + "/issues/") + (NatToString(n) + "#" + ("issuecomment-" + NatToString(c)))
  {
  }

  /** Distinct issues or comments of one repository have distinct URLs: both numbers can be read back. */
  lemma IssueCommentURLInjective(repoURL: String, n1: nat, c1: nat, n2: nat, c2: nat)
    requires IssueCommentURL(repoURL, n1, c1) == IssueCommentURL(repoURL, n2, c2)
    ensures n1 == n2 && c1 == c2
  {
    IssueCommentURLParts(repoURL, n1, c1);
    IssueCommentURLParts(repoURL, n2, c2);
    CancelPrefix(repoURL + "/issues/", NatToString(n1) + "#" + ("issuecomment-" + NatToString(c1)),
      NatToString(n2) + "#" + ("issuecomment-" + NatToString(c2)));
    NatToStringDigits(n1);
    NatToStringDigits(n2);
    SplitAtHash(NatToString(n1), "issuecomment-" + NatToString(c1), NatToString(n2), "issuecomment-" + NatToString(c2));
    CancelPrefix("issuecomment-", NatToString(c1), NatToString(c2));
    NatToStringValue(n1);
    NatToStringValue(n2);
    NatToStringValue(c1);
    NatToStringValue(c2);
  }

  /** The Gitea accessor's view of the comment table. */
  class CommentTable {
    var rows: seq<IssueComment>
    var nextID: int
    const overwrite: bool

    ghost predicate Valid()
      reads this
    {
      ValidTable(rows, nextID)
    }

    constructor(overwrite: bool)
      ensures Valid() && rows == [] && nextID == 1 && this.overwrite == overwrite
    {
      rows := [];
      nextID := 1;
      this.overwrite := overwrite;
    }

    /**
     * GetIssueCommentIDByTime: the ID of the lowest-type comment created at
     * `createdTime` on the issue, or -1 when there is none.
     */
    function GetIssueCommentIDByTime(issueID: int, createdTime: int): (id: int)
      reads this
      requires Valid()
      ensures id == -1 <==> forall k | 0 <= k < |rows| :: !(rows[k].issueID == issueID && rows[k].createdTime == createdTime)
      ensures id != -1 ==>
        exists k | 0 <= k < |rows| ::
          rows[k].id == id && rows[k].issueID == issueID && rows[k].createdTime == createdTime &&
          forall j | 0 <= j < |rows| && rows[j].issueID == issueID && rows[j].createdTime == createdTime ::
            rows[k].commentType <= rows[j].commentType
    {
      match LowestTypeIndex(rows, issueID, createdTime)
      case None => -1
      case Some(i) => rows[i].id
    }

    /** findIssueComment: the ID of a comment with the issue, time and type, or -1. */
    function FindIssueComment(issueID: int, createdTime: int, commentType: int): (id: int)
      reads this
      requires Valid()
      ensures id == -1 <==> forall k | 0 <= k < |rows| :: !Matches(rows[k], issueID, createdTime, commentType)
      ensures id != -1 ==> exists k | 0 <= k < |rows| :: rows[k].id == id && Matches(rows[k], issueID, createdTime, commentType)
    {
      FindIn(rows, issueID, createdTime, commentType)
    }

    /** insertIssueComment: the comment under a new ID. */
    method InsertIssueComment(issueID: int, comment: IssueComment) returns (id: int, stored: IssueComment)
      requires Valid()
      modifies this
      ensures Valid()
      ensures stored == Stored(comment, old(nextID), issueID) && id == stored.id
      ensures rows == old(rows) + [stored] && nextID == old(nextID) + 1
    {
      stored := comment.(issueID := issueID, createdTime := comment.time);
      stored := stored.(id := nextID);
      rows := rows + [stored];
      nextID := nextID + 1;
      id := stored.id;
    }

    /** updateIssueComment: the row with ID `commentID` (at `index`) replaced by the comment under that ID. */
    method UpdateIssueComment(commentID: int, index: nat, issueID: int, comment: IssueComment) returns (stored: IssueComment)
      requires Valid() && index < |rows| && rows[index].id == commentID
      modifies this
      ensures Valid()
      ensures stored == Stored(comment, commentID, issueID)
      ensures rows == old(rows)[index := stored] && nextID == old(nextID)
    {
      stored := comment.(id := commentID, issueID := issueID, createdTime := comment.time);
      rows := rows[index := stored];
      forall a, b | 0 <= a < b < |rows| ensures rows[a].id != rows[b].id {
        assert rows[a].id == old(rows)[a].id && rows[b].id == old(rows)[b].id;
      }
    }

    /**
     * AddIssueComment: insert when no comment has the issue, creation time and
     * type; otherwise overwrite it in place when overwriting, or leave it;
     * either way return its ID. `stored` is the caller's comment afterwards.
     */
    method AddIssueComment(issueID: int, comment: IssueComment) returns (id: int, stored: IssueComment)
      requires Valid()
      modifies this
      ensures Valid()
      ensures var o := Add(old(rows), old(nextID), overwrite, issueID, comment);
        rows == o.rows && nextID == o.nextID && id == o.id && stored == o.comment
    {
      var found := FindIndex(rows, issueID, comment.createdTime, comment.commentType);
      if found.None? {
        id, stored := InsertIssueComment(issueID, comment);
        return;
      }
      var issueCommentID := rows[found.value].id;
      stored := comment;
      if overwrite {
        stored := UpdateIssueComment(issueCommentID, found.value, issueID, comment);
      }
      id := issueCommentID;
    }
  }
}
