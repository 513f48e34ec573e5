/** The merge-request summary tool: for the current branch, a count header
    and one text item per open merge request.

    Branch detection runs `git` in a subprocess; here its outcome is an input,
    a branch name or an error message. The listing request's reply is an
    input as well. */
module InfoHandler {
  import opened Wrappers
  import opened Text
  import opened GitLabTypes
  import opened ToolResults
  import opened GitLabClient

  /** The success text when the branch has no merge request. */
  function NoMergeRequestsText(branch: string): string {
    "No merge requests found for the source branch (" + branch + ")"
  }

  function FoundHeader(n: int, branch: string): string {
    "Found " + IntToString(n) + " merge request(s) for branch " + branch
  }

  // The writes that make up one summary block, one function per format.

  function TitleLine(mr: MergeRequest): string {
    "!" + IntToString(mr.iid) + ": " + mr.title + "\n"
  }

  function DescriptionLine(description: string): string {
    "Description: " + description + "\n"
  }

  function AuthorLine(userName: string): string {
    "Author: " + userName + "\n"
  }

  function SourceBranchLine(branch: string): string {
    "Source Branch: " + branch + "\n"
  }

  function TargetBranchLine(branch: string): string {
    "Target Branch: " + branch + "\n"
  }

  function StateLine(state: string): string {
    "State: " + state + "\n"
  }

  /** The last write: no trailing newline. */
  function UrlLine(url: string): string {
    "URL: " + url
  }

  /** Both the author object and its user name are present. */
  predicate HasAuthorName(mr: MergeRequest) {
    mr.author.Some? && mr.author.value.userName.Some?
  }

  /** The writes of one block, in order: the optional lines only when their
      value is there. */
  function SummaryPieces(mr: MergeRequest): seq<string> {
    [TitleLine(mr)] + OptionalLines(mr)
    + [SourceBranchLine(mr.sourceBranch), TargetBranchLine(mr.targetBranch), StateLine(mr.state), UrlLine(mr.webUrl)]
  }

  /** The Description and Author lines, each only when its value is there. */
  function OptionalLines(mr: MergeRequest): seq<string> {
    (if mr.description != "" then [DescriptionLine(mr.description)] else [])
    + (if HasAuthorName(mr) then [AuthorLine(mr.author.value.userName.value)] else [])
  }

  /** The block as the builder accumulates it: the title, the optional
      lines, then the fixed lines. */
  function WithDescription(mr: MergeRequest): string {
    if mr.description != "" then TitleLine(mr) + DescriptionLine(mr.description) else TitleLine(mr)
  }

  function WithAuthor(mr: MergeRequest): string {
    if HasAuthorName(mr) then WithDescription(mr) + AuthorLine(mr.author.value.userName.value)
    else WithDescription(mr)
  }

  function SummaryBlock(mr: MergeRequest): string {
    WithAuthor(mr) + SourceBranchLine(mr.sourceBranch) + TargetBranchLine(mr.targetBranch)
    + StateLine(mr.state) + UrlLine(mr.webUrl)
  }

  /** One write of `ps` begins with `prefix`. */
  predicate WritesLine(ps: seq<string>, prefix: string) {
    exists i :: 0 <= i < |ps| && StartsWith(ps[i], prefix)
  }

  /** The block of one merge request, written piece by piece. */
  method WriteSummary(mr: MergeRequest) returns (sb: string)
    ensures sb == SummaryBlock(mr)
  {
    sb := "";
    sb := sb + TitleLine(mr);
    assert sb == TitleLine(mr);
    if mr.description != "" {
      sb := sb + DescriptionLine(mr.description);
    }
    assert sb == WithDescription(mr);
    if mr.author.Some? && mr.author.value.userName.Some? {
      sb := sb + AuthorLine(mr.author.value.userName.value);
    }
    assert sb == WithAuthor(mr);
    sb := sb + SourceBranchLine(mr.sourceBranch);
    sb := sb + TargetBranchLine(mr.targetBranch);
    sb := sb + StateLine(mr.state);
    sb := sb + UrlLine(mr.webUrl);
  }

  /** The blocks of `mrs`, in list order. */
  function Blocks(mrs: seq<MergeRequest>): (bs: seq<string>)
    ensures |bs| == |mrs|
  {
    if mrs == [] then [] else Blocks(mrs[..|mrs| - 1]) + [SummaryBlock(mrs[|mrs| - 1])]
  }

  lemma BlocksSnoc(mrs: seq<MergeRequest>, i: nat)
    requires i < |mrs|
    ensures Blocks(mrs[..i + 1]) == Blocks(mrs[..i]) + [SummaryBlock(mrs[i])]
  {
    assert mrs[..i + 1][..i] == mrs[..i];
  }

  /** The `get_merge_request_info` tool. */
  method GetMergeRequestInfoHandler(config: Config, branch: Result<string>, mrReply: Reply<MergeRequest>)
    returns (result: ToolResult, sent: seq<Request>)
    ensures branch.Err? ==> result == ErrorResult(branch.message) && sent == []
    ensures branch.Ok? ==>
      sent == [Get(NewClient(config.gitLabToken), MergeRequestsBySourceBranch(config.projectId, branch.value))]
    ensures branch.Ok? && PageOutcome(mrReply).Err? ==> result == ErrorResult(PageOutcome(mrReply).message)
    ensures branch.Ok? && PageOutcome(mrReply).Ok? && PageOutcome(mrReply).value == [] ==>
      result == TextResult(NoMergeRequestsText(branch.value))
    ensures branch.Ok? && PageOutcome(mrReply).Ok? && PageOutcome(mrReply).value != [] ==>
      var mrs := PageOutcome(mrReply).value;
      result == ToolResult(false, [FoundHeader(|mrs|, branch.value)] + Blocks(mrs))
  {
    if branch.Err? {
      return ErrorResult(branch.message), [];
    }

    var client := NewClient(config.gitLabToken);
    var sourceBranch := branch.value;

    var mrs;
    mrs, sent := GetMergeRequestsBySourceBranch(client, config.projectId, sourceBranch, mrReply);
    if mrs.Err? {
      return ErrorResult(mrs.message), sent;
    }

    if |mrs.value| == 0 {
      return TextResult(NoMergeRequestsText(branch.value)), sent;
    }

    var blocks := WriteBlocks(mrs.value);
    result := ToolResult(false, [FoundHeader(|mrs.value|, branch.value)] + blocks);
  }

  /** The loop over the merge requests: one block each, appended in order. */
  method WriteBlocks(mrs: seq<MergeRequest>) returns (blocks: seq<string>)
    ensures blocks == Blocks(mrs)
  {
    blocks := [];
    for i := 0 to |mrs|
      invariant blocks == Blocks(mrs[..i])
    {
      var sb := WriteSummary(mrs[i]);
      BlocksSnoc(mrs, i);
      blocks := blocks + [sb];
    }
    assert mrs[..|mrs|] == mrs;
  }

  // ---------------------------------------------------------------------------
  // Properties of a summary block

  lemma StartsDiffer(s: string, prefix: string)
    requires |s| > 0 && |prefix| > 0 && s[0] != prefix[0]
    ensures !StartsWith(s, prefix)
  {
  }

  /** A "Description:" line is written exactly when the description is not
      empty. */
  lemma DescriptionLineIff(mr: MergeRequest)
    ensures WritesLine(SummaryPieces(mr), "Description: ") <==> mr.description != ""
  {
    var ps := SummaryPieces(mr);
    var d := "Description: ";
    if mr.description != "" {
      assert ps[1] == DescriptionLine(mr.description);
      assert ps[1][..|d|] == d;
    } else {
      OnlyOptionalLinesStartWith(mr, d);
    }
  }

  /** An "Author:" line is written exactly when the author and its user name
      are both present. */
  lemma AuthorLineIff(mr: MergeRequest)
    ensures WritesLine(SummaryPieces(mr), "Author: ") <==> HasAuthorName(mr)
  {
    var ps := SummaryPieces(mr);
    var a := "Author: ";
    if HasAuthorName(mr) {
      var k := if mr.description != "" then 2 else 1;
      assert ps[k] == AuthorLine(mr.author.value.userName.value);
      assert ps[k][..|a|] == a;
    } else {
      OnlyOptionalLinesStartWith(mr, a);
    }
  }

  /** The title, branch, state and URL writes start with '!', 'S', 'T', 'S'
      and 'U', so neither optional prefix can be mistaken for them. */
  lemma OnlyOptionalLinesStartWith(mr: MergeRequest, prefix: string)
    requires prefix == "Description: " || prefix == "Author: "
    requires prefix == "Description: " ==> mr.description == ""
    requires prefix == "Author: " ==> !HasAuthorName(mr)
    ensures !WritesLine(SummaryPieces(mr), prefix)
  {
    var ps := SummaryPieces(mr);
    var n := |ps|;
    forall i | 0 <= i < n ensures !StartsWith(ps[i], prefix) {
      if i == 0 {
        StartsDiffer(ps[i], prefix);
      } else if i >= n - 4 {
        StartsDiffer(ps[i], prefix);
      } else if i == 1 && mr.description != "" {
        assert ps[i] == DescriptionLine(mr.description);
        StartsDiffer(ps[i], prefix);
      } else {
        assert ps[i] == AuthorLine(mr.author.value.userName.value);
        StartsDiffer(ps[i], prefix);
      }
    }
  }

  lemma JoinedHead(mr: MergeRequest)
    ensures Join([TitleLine(mr)] + OptionalLines(mr)) == WithAuthor(mr)
  {
    var title := TitleLine(mr);
    JoinSingleton(title);
    if mr.description != "" {
      var d := DescriptionLine(mr.description);
      JoinSnoc([title], d);
      assert [title] + [d] == [title, d];
      if HasAuthorName(mr) {
        var a := AuthorLine(mr.author.value.userName.value);
        JoinSnoc([title, d], a);
        assert [title, d] + [a] == [title, d, a] == [title] + OptionalLines(mr);
      } else {
        assert [title, d] == [title] + OptionalLines(mr);
      }
    } else if HasAuthorName(mr) {
      var a := AuthorLine(mr.author.value.userName.value);
      JoinSnoc([title], a);
      assert [title] + [a] == [title, a] == [title] + OptionalLines(mr);
    } else {
      assert [title] == [title] + OptionalLines(mr);
    }
  }

  /** The block is exactly its writes, joined in order. */
  lemma SummaryBlockIsJoinedPieces(mr: MergeRequest)
    ensures Join(SummaryPieces(mr)) == SummaryBlock(mr)
  {
    var head := [TitleLine(mr)] + OptionalLines(mr);
    JoinedHead(mr);
    var s := head + [SourceBranchLine(mr.sourceBranch)];
    var t := s + [TargetBranchLine(mr.targetBranch)];
    var u := t + [StateLine(mr.state)];
    var v := u + [UrlLine(mr.webUrl)];
    JoinSnoc(head, SourceBranchLine(mr.sourceBranch));
    JoinSnoc(s, TargetBranchLine(mr.targetBranch));
    JoinSnoc(t, StateLine(mr.state));
    JoinSnoc(u, UrlLine(mr.webUrl));
    assert v == SummaryPieces(mr);
  }

  lemma StartsWithExtended(s: string, prefix: string, t: string)
    requires StartsWith(s, prefix)
    ensures StartsWith(s + t, prefix)
  {
    assert (s + t)[..|prefix|] == s[..|prefix|];
  }

  /** A block opens with "!<IID>: <Title>" and ends with the URL, without a
      trailing newline. */
  lemma SummaryBlockBounds(mr: MergeRequest)
    ensures StartsWith(SummaryBlock(mr), TitleLine(mr))
    ensures EndsWith(SummaryBlock(mr), "URL: " + mr.webUrl)
  {
    var title := TitleLine(mr);
    assert StartsWith(title, title);
    if mr.description != "" {
      StartsWithExtended(title, title, DescriptionLine(mr.description));
    }
    if HasAuthorName(mr) {
      StartsWithExtended(WithDescription(mr), title, AuthorLine(mr.author.value.userName.value));
    }
    var head := WithAuthor(mr);
    var s := head + SourceBranchLine(mr.sourceBranch);
    var t := s + TargetBranchLine(mr.targetBranch);
    var u := t + StateLine(mr.state);
    StartsWithExtended(head, title, SourceBranchLine(mr.sourceBranch));
    StartsWithExtended(s, title, TargetBranchLine(mr.targetBranch));
    StartsWithExtended(t, title, StateLine(mr.state));
    StartsWithExtended(u, title, UrlLine(mr.webUrl));
    var block := u + UrlLine(mr.webUrl);
    assert block[|block| - |UrlLine(mr.webUrl)|..] == UrlLine(mr.webUrl);
  }

  /** The branch and state lines are always written, and a block has five
      writes plus one per optional line present. */
  lemma FixedLinesWritten(mr: MergeRequest)
    ensures WritesLine(SummaryPieces(mr), "Source Branch: ")
    ensures WritesLine(SummaryPieces(mr), "Target Branch: ")
    ensures WritesLine(SummaryPieces(mr), "State: ")
    ensures |SummaryPieces(mr)| == 5 + (if mr.description != "" then 1 else 0) + (if HasAuthorName(mr) then 1 else 0)
  {
    var ps := SummaryPieces(mr);
    var n := |ps|;
    var s, t, u := "Source Branch: ", "Target Branch: ", "State: ";
    assert ps[n - 4][..|s|] == s;
    assert ps[n - 3][..|t|] == t;
    assert ps[n - 2][..|u|] == u;
  }

  /** Item i + 1 of a successful result is the block of the i-th merge
      request: one block per request, in list order. */
  lemma {:induction false} BlocksInOrder(mrs: seq<MergeRequest>, i: nat)
    requires i < |mrs|
    ensures Blocks(mrs)[i] == SummaryBlock(mrs[i])
    decreases |mrs|
  {
    if i < |mrs| - 1 {
      BlocksInOrder(mrs[..|mrs| - 1], i);
    }
  }
}
