/** The command's own tool handlers: the current branch, and a flat listing
    of every merge request of the current branch with its positioned,
    non-system notes, written into one text buffer.

    Branch detection, the listing reply and the note pages of each merge
    request (by IID) are inputs. */
module CommandHandlers {
  import opened Wrappers
  import opened Text
  import opened GitLabTypes
  import opened ToolResults
  import opened GitLabClient
  import opened CommentGrouping
  import opened InfoHandler

  const CurrentBranchPrefix: string := "Current branch is: "

  /** The `get_current_branch` tool. */
  function GetCurrentBranchHandler(branch: Result<string>): (r: ToolResult)
    ensures branch.Err? ==> r == ErrorResult(branch.message)
    ensures branch.Ok? ==>
      && !r.isError && |r.contents| == 1
      && StartsWith(r.contents[0], CurrentBranchPrefix)
      && r.contents[0][|CurrentBranchPrefix|..] == branch.value
  {
    match branch
    case Err(message) => ErrorResult(message)
    case Ok(name) =>
      var text := CurrentBranchPrefix + name;
      assert text[..|CurrentBranchPrefix|] == CurrentBranchPrefix;
      assert text[|CurrentBranchPrefix|..] == name;
      TextResult(text)
  }

  // ---------------------------------------------------------------------------
  // The writes of the flat listing, one function per format

  function ListingHeader(n: int): string {
    "Found " + IntToString(n) + " merge request(s):\n"
  }

  function MrHeading(mr: MergeRequest): string {
    "- !" + IntToString(mr.iid) + ": " + mr.title + "\n"
  }

  const NoCommentsLine: string := "  (No comments)\n"

  /** The line number in decimal, or "Unknown" without one. */
  function LineField(c: Note): string
    requires Kept(c)
  {
    match c.position.value.newLine
    case Some(line) => IntToString(line)
    case None => "Unknown"
  }

  function FileEntry(path: string): string {
    "  File: " + path + "\n"
  }

  function LineEntry(line: string): string {
    "  Line: " + line + "\n"
  }

  function AuthorEntry(username: string): string {
    "  Comment by " + username + "\n"
  }

  function ResolvedEntry(resolved: bool): string {
    "  Resolved " + BoolToString(resolved) + "\n"
  }

  function BodyEntry(body: string): string {
    "  " + body + "\n\n"
  }

  /** The five writes for one shown note. */
  function CommentPieces(c: Note): seq<string>
    requires Kept(c)
  {
    [FileEntry(NotePath(c)), LineEntry(LineField(c)), AuthorEntry(c.author.username),
     ResolvedEntry(c.resolved), BodyEntry(c.body)]
  }

  /** The writes for a merge request's notes: system notes and notes without
      a position write nothing; resolved notes are shown like the others. */
  function CommentsPieces(cs: seq<Note>): seq<string> {
    if cs == [] then []
    else
      var last := cs[|cs| - 1];
      CommentsPieces(cs[..|cs| - 1]) + (if Kept(last) then CommentPieces(last) else [])
  }

  /** The writes for one merge request, given its fetched notes. */
  function MrPieces(mr: MergeRequest, cs: seq<Note>): seq<string> {
    [MrHeading(mr)] + (if cs == [] then [NoCommentsLine] else CommentsPieces(cs))
  }

  /** There are note replies for every merge request, and every walk over
      them ends. */
  predicate FetchesTerminate(mrs: seq<MergeRequest>, notePages: seq<seq<Reply<Note>>>) {
    |notePages| == |mrs| && forall i :: 0 <= i < |mrs| ==> Terminates(notePages[i])
  }

  /** The outcome of each merge request's note walk. */
  function Outcomes(mrs: seq<MergeRequest>, notePages: seq<seq<Reply<Note>>>): (os: seq<Result<seq<Note>>>)
    requires FetchesTerminate(mrs, notePages)
    ensures |os| == |mrs|
  {
    seq(|mrs|, i requires 0 <= i < |mrs| => Paginated(notePages[i]))
  }

  /** Every one of the first `n` note walks succeeded. */
  predicate AllFetched(outcomes: seq<Result<seq<Note>>>, n: nat)
    requires n <= |outcomes|
  {
    forall i :: 0 <= i < n ==> outcomes[i].Ok?
  }

  /** The message of the first failed walk among the first `n`, if any. */
  function FirstError(outcomes: seq<Result<seq<Note>>>, n: nat): Option<string>
    requires n <= |outcomes|
  {
    if n == 0 then None
    else
      match FirstError(outcomes, n - 1)
      case Some(m) => Some(m)
      case None => if outcomes[n - 1].Err? then Some(outcomes[n - 1].message) else None
  }

  /** The writes for the first `n` merge requests, whose notes were fetched. */
  function Rendered(mrs: seq<MergeRequest>, outcomes: seq<Result<seq<Note>>>, n: nat): seq<string>
    requires n <= |mrs| == |outcomes| && AllFetched(outcomes, n)
  {
    if n == 0 then [] else Rendered(mrs, outcomes, n - 1) + MrPieces(mrs[n - 1], outcomes[n - 1].value)
  }

  /** The tool result for a non-empty list of merge requests: the first
      failed walk's error, or the header and every merge request's writes. */
  function Listing(mrs: seq<MergeRequest>, outcomes: seq<Result<seq<Note>>>): ToolResult
    requires |mrs| == |outcomes|
  {
    match FirstError(outcomes, |mrs|)
    case Some(m) => ErrorResult(m)
    case None =>
      FirstErrorNoneIff(outcomes, |mrs|);
      TextResult(Join([ListingHeader(|mrs|)] + Rendered(mrs, outcomes, |mrs|)))
  }

  // ---------------------------------------------------------------------------
  // The handler

  /** The flat `get_merge_request_comments` tool of the command. */
  method GetMergeRequestCommentsHandler(
    config: Config, branch: Result<string>, mrReply: Reply<MergeRequest>, notePages: seq<seq<Reply<Note>>>)
    returns (result: ToolResult, sent: seq<Request>)
    requires branch.Ok? && PageOutcome(mrReply).Ok? ==> FetchesTerminate(PageOutcome(mrReply).value, notePages)
    ensures branch.Err? ==> result == ErrorResult(branch.message) && sent == []
    ensures branch.Ok? ==>
      |sent| >= 1 && sent[0] == Get(NewClient(config.gitLabToken), MergeRequestsBySourceBranch(config.projectId, branch.value))
    ensures forall r :: r in sent ==> IssuedBy(r, NewClient(config.gitLabToken))
    ensures branch.Ok? && PageOutcome(mrReply).Err? ==> result == ErrorResult(PageOutcome(mrReply).message)
    ensures branch.Ok? && PageOutcome(mrReply).Ok? && PageOutcome(mrReply).value == [] ==>
      result == TextResult(NoMergeRequestsText(branch.value))
    ensures branch.Ok? && PageOutcome(mrReply).Ok? && PageOutcome(mrReply).value != [] ==>
      result == Listing(PageOutcome(mrReply).value, Outcomes(PageOutcome(mrReply).value, notePages))
  {
    if branch.Err? {
      return ErrorResult(branch.message), [];
    }

    var client := NewClient(config.gitLabToken);
    var sourceBranch := branch.value;

    var mrs;
    mrs, sent := GetMergeRequestsBySourceBranch(client, config.projectId, sourceBranch, mrReply);
    if mrs.Err? {
      return ErrorResult(mrs.message), sent;
    }

    if |mrs.value| == 0 {
      return TextResult(NoMergeRequestsText(branch.value)), sent;
    }

    var listing, noteRequests := WriteListing(client, config.projectId, mrs.value, notePages);
    sent := sent + noteRequests;
    result := listing;
  }

  /** The text buffer: the count header, then each merge request in list
      order; the first failing note fetch abandons the buffer. */
  method WriteListing(client: Client, projectId: string, mrs: seq<MergeRequest>, notePages: seq<seq<Reply<Note>>>)
    returns (result: ToolResult, sent: seq<Request>)
    requires FetchesTerminate(mrs, notePages)
    ensures result == Listing(mrs, Outcomes(mrs, notePages))
    ensures forall r :: r in sent ==> IssuedBy(r, client)
  {
    ghost var outcomes := Outcomes(mrs, notePages);
    sent := [];
    var sb := "";
    ghost var written: seq<string> := [];
    sb, written := WriteString(sb, written, ListingHeader(|mrs|));
    for i := 0 to |mrs|
      invariant AllFetched(outcomes, i)
      invariant written == [ListingHeader(|mrs|)] + Rendered(mrs, outcomes, i)
      invariant sb == Join(written)
      invariant forall r :: r in sent ==> IssuedBy(r, client)
    {
      var comments, pageRequests := FetchNotes(client, projectId, mrs, notePages, i);
      sent := sent + pageRequests;
      if comments.Err? {
        FirstFailureDecides(mrs, outcomes, i);
        return ErrorResult(comments.message), sent;
      }
      sb, written := AppendMergeRequest(sb, written, mrs, outcomes, i, comments.value);
    }
    FirstErrorNoneIff(outcomes, |mrs|);
    result := TextResult(sb);
  }

  /** One merge request's note walk, as the listing needs it. */
  method FetchNotes(client: Client, projectId: string, mrs: seq<MergeRequest>, notePages: seq<seq<Reply<Note>>>, i: nat)
    returns (comments: Result<seq<Note>>, sent: seq<Request>)
    requires FetchesTerminate(mrs, notePages) && i < |mrs|
    ensures comments == Outcomes(mrs, notePages)[i]
    ensures forall r :: r in sent ==> IssuedBy(r, client)
  {
    comments, sent := GetMergeRequestComments(client, projectId, mrs[i].iid, notePages[i]);
    NotesPageRequestsIssuedBy(client, projectId, mrs[i].iid, FirstStop(notePages[i]) + 1);
  }

  /** Extends the listing's writes by merge request `i`, whose notes were
      fetched. */
  method AppendMergeRequest(
    sb0: string, ghost written0: seq<string>, mrs: seq<MergeRequest>, ghost outcomes: seq<Result<seq<Note>>>,
    i: nat, comments: seq<Note>)
    returns (sb: string, ghost written: seq<string>)
    requires i < |mrs| == |outcomes| && outcomes[i] == Ok(comments)
    requires AllFetched(outcomes, i)
    requires written0 == [ListingHeader(|mrs|)] + Rendered(mrs, outcomes, i)
    requires sb0 == Join(written0)
    ensures AllFetched(outcomes, i + 1)
    ensures written == [ListingHeader(|mrs|)] + Rendered(mrs, outcomes, i + 1)
    ensures sb == Join(written)
  {
    ConcatAssoc([ListingHeader(|mrs|)], Rendered(mrs, outcomes, i), MrPieces(mrs[i], comments));
    sb, written := WriteMergeRequest(sb0, written0, mrs[i], comments);
  }

  /** The writes for one merge request whose notes were fetched. */
  method WriteMergeRequest(sb0: string, ghost written0: seq<string>, mr: MergeRequest, comments: seq<Note>)
    returns (sb: string, ghost written: seq<string>)
    requires sb0 == Join(written0)
    ensures written == written0 + MrPieces(mr, comments)
    ensures sb == Join(written)
  {
    sb, written := WriteString(sb0, written0, MrHeading(mr));
    if |comments| == 0 {
      sb, written := WriteString(sb, written, NoCommentsLine);
      ConcatAssoc(written0, [MrHeading(mr)], [NoCommentsLine]);
      return;
    }

    sb, written := WriteComments(sb, written, comments);
    ConcatAssoc(written0, [MrHeading(mr)], CommentsPieces(comments));
  }

  /** The inner loop: the writes for each shown note, in order. */
  method WriteComments(sb0: string, ghost written0: seq<string>, comments: seq<Note>)
    returns (sb: string, ghost written: seq<string>)
    requires sb0 == Join(written0)
    ensures written == written0 + CommentsPieces(comments)
    ensures sb == Join(written)
  {
    sb, written := sb0, written0;
    for j := 0 to |comments|
      invariant written == written0 + CommentsPieces(comments[..j])
      invariant sb == Join(written)
    {
      var comment := comments[j];
      CommentsPiecesStep(comments, j);
      if comment.system {
        continue;
      }

      var line, path;
      if comment.position.Some? {
        line, path := PositionFields(comment.position.value);
      } else {
        continue;
      }

      sb, written := WriteComment(sb, written, path, line, comment);
      ConcatAssoc(written0, CommentsPieces(comments[..j]), CommentPieces(comment));
    }
    assert comments[..|comments|] == comments;
  }

  /** The five writes for one shown note. */
  method WriteComment(sb0: string, ghost written0: seq<string>, path: string, line: string, comment: Note)
    returns (sb: string, ghost written: seq<string>)
    requires sb0 == Join(written0)
    ensures written == written0 + [FileEntry(path), LineEntry(line), AuthorEntry(comment.author.username),
      ResolvedEntry(comment.resolved), BodyEntry(comment.body)]
    ensures sb == Join(written)
  {
    sb, written := WriteString(sb0, written0, FileEntry(path));
    sb, written := WriteString(sb, written, LineEntry(line));
    sb, written := WriteString(sb, written, AuthorEntry(comment.author.username));
    sb, written := WriteString(sb, written, ResolvedEntry(comment.resolved));
    sb, written := WriteString(sb, written, BodyEntry(comment.body));
  }

  lemma CommentsPiecesStep(cs: seq<Note>, j: nat)
    requires j < |cs|
    ensures Kept(cs[j]) ==> CommentsPieces(cs[..j + 1]) == CommentsPieces(cs[..j]) + CommentPieces(cs[j])
    ensures !Kept(cs[j]) ==> CommentsPieces(cs[..j + 1]) == CommentsPieces(cs[..j])
  {
    assert cs[..j + 1][..j] == cs[..j];
  }

  /** The line and file fields of a positioned note, "Unknown" where absent. */
  method PositionFields(position: Position) returns (line: string, path: string)
    ensures line == (if position.newLine.Some? then IntToString(position.newLine.value) else "Unknown")
    ensures path == (if position.newPath.Some? then position.newPath.value else "Unknown")
  {
    line := "Unknown";
    path := "Unknown";
    if position.newLine.Some? {
      line := IntToString(position.newLine.value);
    }
    if position.newPath.Some? {
      path := position.newPath.value;
    }
  }

  /** No walk has failed exactly when every walk succeeded. */
  lemma {:induction false} FirstErrorNoneIff(outcomes: seq<Result<seq<Note>>>, n: nat)
    requires n <= |outcomes|
    ensures FirstError(outcomes, n).None? <==> AllFetched(outcomes, n)
  {
    if n > 0 {
      FirstErrorNoneIff(outcomes, n - 1);
      if FirstError(outcomes, n - 1).Some? {
        var i :| 0 <= i < n - 1 && outcomes[i].Err?;
      } else if outcomes[n - 1].Ok? {
        forall i | 0 <= i < n ensures outcomes[i].Ok? {
          if i < n - 1 {
            assert AllFetched(outcomes, n - 1);
          }
        }
      }
    }
  }

  /** Once a walk has failed, later merge requests change nothing. */
  lemma {:induction false} FirstErrorSticks(outcomes: seq<Result<seq<Note>>>, n: nat)
    requires n <= |outcomes|
    requires FirstError(outcomes, n).Some?
    ensures FirstError(outcomes, |outcomes|) == FirstError(outcomes, n)
    decreases |outcomes| - n
  {
    if n < |outcomes| {
      assert FirstError(outcomes, n + 1) == FirstError(outcomes, n);
      FirstErrorSticks(outcomes, n + 1);
    }
  }

  /** The first merge request whose notes cannot be fetched decides the tool
      result: its error, whatever follows it. */
  lemma FirstFailureDecides(mrs: seq<MergeRequest>, outcomes: seq<Result<seq<Note>>>, k: nat)
    requires k < |mrs| == |outcomes|
    requires outcomes[k].Err? && AllFetched(outcomes, k)
    ensures Listing(mrs, outcomes) == ErrorResult(outcomes[k].message)
  {
    FirstErrorNoneIff(outcomes, k);
    assert FirstError(outcomes, k + 1) == Some(outcomes[k].message);
    FirstErrorSticks(outcomes, k + 1);
  }

  /** Each shown note takes five writes. */
  lemma {:induction false} CommentsPiecesCount(cs: seq<Note>)
    ensures |CommentsPieces(cs)| == 5 * KeptCount(cs)
  {
    if cs != [] {
      CommentsPiecesCount(cs[..|cs| - 1]);
    }
  }

  /** A merge request takes its heading, then either the "(No comments)"
      line or five writes per shown note. */
  lemma MrPiecesCount(mr: MergeRequest, cs: seq<Note>)
    ensures |MrPieces(mr, cs)| == 1 + (if cs == [] then 1 else 5 * KeptCount(cs))
  {
    CommentsPiecesCount(cs);
  }

  /** A write that belongs to a note: indented, and never the
      "(No comments)" line. */
  predicate NoteWrite(p: string) {
    |p| > 0 && p[0] == ' ' && p != NoCommentsLine
  }

  lemma CommentPiecesAreNoteWrites(c: Note)
    requires Kept(c)
    ensures forall p :: p in CommentPieces(c) ==> NoteWrite(p)
  {
    assert NoCommentsLine[2] == '(' && NoCommentsLine[14] == ')';
    assert FileEntry(NotePath(c))[2] == 'F';
    assert LineEntry(LineField(c))[2] == 'L';
    assert AuthorEntry(c.author.username)[2] == 'C';
    assert ResolvedEntry(c.resolved)[2] == 'R';
    var body := BodyEntry(c.body);
    if |body| == |NoCommentsLine| {
      assert body[14] == '\n';
    }
  }

  lemma {:induction false} CommentsPiecesAreNoteWrites(cs: seq<Note>)
    ensures forall p :: p in CommentsPieces(cs) ==> NoteWrite(p)
  {
    if cs != [] {
      var last := cs[|cs| - 1];
      CommentsPiecesAreNoteWrites(cs[..|cs| - 1]);
      if Kept(last) {
        CommentPiecesAreNoteWrites(last);
      }
    }
  }

  /** "(No comments)" is written exactly when the merge request has no notes
      at all; one whose notes are all system or unpositioned writes only its
      heading. */
  lemma NoCommentsIffEmpty(mr: MergeRequest, cs: seq<Note>)
    ensures NoCommentsLine in MrPieces(mr, cs) <==> cs == []
    ensures cs != [] && KeptCount(cs) == 0 ==> MrPieces(mr, cs) == [MrHeading(mr)]
  {
    if cs != [] {
      CommentsPiecesAreNoteWrites(cs);
      assert MrHeading(mr)[0] == '-';
      CommentsPiecesCount(cs);
    }
  }

  /** A note without a new line number shows "Unknown"; one with a number
      never does. */
  lemma LineFieldUnknownIff(c: Note)
    requires Kept(c)
    ensures LineField(c) == "Unknown" <==> c.position.value.newLine.None?
  {
    if c.position.value.newLine.Some? {
      var line := c.position.value.newLine.value;
      if line >= 0 {
        assert IntToString(line) == NatToString(line);
        assert IsDigit(IntToString(line)[0]);
      }
    }
  }

  /** The merge-request headings among a sequence of writes. */
  function Headings(ps: seq<string>): seq<string> {
    if ps == [] then []
    else
      var last := ps[|ps| - 1];
      Headings(ps[..|ps| - 1]) + (if |last| > 0 && last[0] == '-' then [last] else [])
  }

  lemma {:induction false} HeadingsConcat(a: seq<string>, b: seq<string>)
    ensures Headings(a + b) == Headings(a) + Headings(b)
    decreases |b|
  {
    if b == [] {
      assert a + b == a;
    } else {
      assert (a + b)[..|a + b| - 1] == a + b[..|b| - 1];
      assert (a + b)[|a + b| - 1] == b[|b| - 1];
      HeadingsConcat(a, b[..|b| - 1]);
    }
  }

  lemma {:induction false} NoteWritesHaveNoHeadings(ps: seq<string>)
    requires forall p :: p in ps ==> NoteWrite(p)
    ensures Headings(ps) == []
  {
    if ps != [] {
      var prefix := ps[..|ps| - 1];
      assert forall p :: p in prefix ==> p in ps;
      NoteWritesHaveNoHeadings(prefix);
      assert NoteWrite(ps[|ps| - 1]);
    }
  }

  lemma MrPiecesHeading(mr: MergeRequest, cs: seq<Note>)
    ensures Headings(MrPieces(mr, cs)) == [MrHeading(mr)]
  {
    var rest := if cs == [] then [NoCommentsLine] else CommentsPieces(cs);
    CommentsPiecesAreNoteWrites(cs);
    assert forall p :: p in rest ==> p[0] == ' ';
    if cs == [] {
      assert Headings(rest) == [];
    } else {
      NoteWritesHaveNoHeadings(rest);
    }
    HeadingsConcat([MrHeading(mr)], rest);
    assert Headings([MrHeading(mr)]) == [MrHeading(mr)] by {
      assert [MrHeading(mr)][..0] == [];
    }
  }

  /** The headings of the first `n` merge requests, in list order. */
  function MrHeadings(mrs: seq<MergeRequest>, n: nat): (hs: seq<string>)
    requires n <= |mrs|
    ensures |hs| == n
  {
    if n == 0 then [] else MrHeadings(mrs, n - 1) + [MrHeading(mrs[n - 1])]
  }

  /** Every merge request gets exactly one heading, in list order. */
  lemma {:induction false} HeadingsInListOrder(mrs: seq<MergeRequest>, outcomes: seq<Result<seq<Note>>>, n: nat)
    requires n <= |mrs| == |outcomes| && AllFetched(outcomes, n)
    ensures Headings(Rendered(mrs, outcomes, n)) == MrHeadings(mrs, n)
  {
    if n > 0 {
      var cs := outcomes[n - 1].value;
      assert AllFetched(outcomes, n - 1);
      HeadingsInListOrder(mrs, outcomes, n - 1);
      HeadingsConcat(Rendered(mrs, outcomes, n - 1), MrPieces(mrs[n - 1], cs));
      MrPiecesHeading(mrs[n - 1], cs);
    }
  }
}
