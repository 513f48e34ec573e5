/** The records the GitLab REST API returns, as decoded from JSON. A nil-able
    pointer field becomes an `Option`; an omitted nested object becomes `None`. */
module GitLabTypes {
  import opened Wrappers

  datatype MergeRequestAuthor = MergeRequestAuthor(userName: Option<string>)

  datatype MergeRequest = MergeRequest(
    id: int,
    iid: int,
    title: string,
    description: string,
    webUrl: string,
    sourceBranch: string,
    targetBranch: string,
    state: string,
    author: Option<MergeRequestAuthor>)

  /** The start marker of a diff line range; `lineCode` is "" when the JSON omits it. */
  datatype LineRangeStart = LineRangeStart(lineCode: string)

  datatype LineRange = LineRange(start: Option<LineRangeStart>)

  /** Where a note attaches in the diff. */
  datatype Position = Position(
    newPath: Option<string>,
    newLine: Option<int>,
    lineRange: Option<LineRange>)

  datatype NoteAuthor = NoteAuthor(username: string)

  /** A note (comment) on a merge request. */
  datatype Note = Note(
    id: int,
    body: string,
    author: NoteAuthor,
    system: bool,
    createdAt: string,
    resolved: bool,
    position: Option<Position>)
}

/** The tool-protocol side: the configuration handed to every handler and the
    result a handler returns. `NewToolResultText` and `NewToolResultError`
    both produce a single text item; the second flags it as an error. */
module ToolResults {

  datatype Config = Config(gitLabToken: string, projectId: string)

  datatype ToolResult = ToolResult(isError: bool, contents: seq<string>)

  function TextResult(text: string): ToolResult {
    ToolResult(false, [text])
  }

  function ErrorResult(message: string): ToolResult {
    ToolResult(true, [message])
  }
}
