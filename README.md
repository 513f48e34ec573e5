# gitlab-review-mcp in Dafny

This project models the part of the GitLab review server that fetches, threads and
renders the notes (review comments) of a merge request, and proves properties of it.
The server exposes these operations as tools:

- `get_current_branch`
- `get_merge_request_info`
- `get_merge_request_comments`, in two versions:
  - the threaded one in the `gitlabmcp` package;
  - the flat one of the command.

Modules, one per source file plus shared definitions:

| module | file | models |
|---|---|---|
| `Wrappers` | `wrappers.dfy` | `Option` and `Result`. An error is its message string. |
| `Text` | `text.dfy` | Go's `%d` and `%t`. A `strings.Builder` as the joined list of its writes (`Join`, `WriteString`). Prefix, suffix and substring relations. |
| `GitLabTypes`, `ToolResults` | `gitlab_types.dfy` | The decoded API records: `MergeRequest`, `Note`, `Position` with nil-able pointers as `Option`. The tool configuration and the tool result: text items plus an error flag. |
| `GitLabClient` | `gitlab_client.dfy` | The REST client. |
| `CommentGrouping` | `comment_grouping.dfy` | Grouping notes into threads: file path → thread key → notes. |
| `CommentsHandler` | `comments_handler.dfy` | Threaded rendering, one block per file, and its tool handler. |
| `InfoHandler` | `info_handler.dfy` | The merge-request summary tool. |
| `CommandHandlers` | `cmd_handlers.dfy` | The command's current-branch tool and its flat comments listing. |

How the model stands in for the network and the subprocess:

- **Replies as inputs.** The HTTP transport is replaced by the replies it delivers. A `Reply` is either:
  - a transport failure, or
  - a response: status code, status text, body, the outcome of decoding the body, and the `X-Next-Page` header.

  A walk over a merge request's notes receives the replies to pages 1, 2, 3, … as a sequence.
- **Two views of the walk.** `Paginated` states the walk's outcome in closed form:
  - the first reply that fails or names no next page decides;
  - on failure its error is the outcome, and earlier pages are dropped;
  - otherwise the outcome is all records up to and including it.

  `Traverse` is the same walk written page by page, and `TraverseIsPaginated` proves that the two agree.
- **Requests as outputs.** Every method that talks to GitLab also returns the requests it sends, so the contracts state which requests are issued, with which page numbers and which token.
- **Builders.** A `strings.Builder` is a `string` that each write extends. `cmd_handlers.dfy` also keeps the list of writes as a ghost value (`Text.WriteString`, with the builder equal to `Join` of that list), because its properties count writes. `info_handler.dfy` and `comments_handler.dfy` append to the string directly (`sb := sb + piece`).
- **Map order.** Go map iteration order is unspecified. The renderers pick the next file and the next thread key with `:|`, so no order is fixed. Ghost out-parameters record the order that was taken, and every contract holds for every order.

Where the description of the system and the code differ, the model follows the code:

- **Threaded line numbers.** The threaded renderer formats the line number with `%s` on a `*int`, so it prints `Line: %!s(*int=<address>)`, not the number (see Findings).
  - The rendering methods and the handler write exactly that text. The runtime address of each note's line number is an input, `address: Note -> string`.
  - The rendering functions take a `LineFormat`: `AsWritten(address)` is what the source does, and `Decimal` is the corrected rendering that prints `Line: <N>`.
  - Every property of the rendering is proved for both formats. The two formats differ on a concrete note (`AsWrittenExampleHidesLine`, `DecimalExampleShowsLine`).
- **"(No comments)".** The flat listing writes `  (No comments)` only when a merge request has no notes at all.
  - A merge request whose notes are all system notes or unpositioned writes only its heading.
  - The line is indented by two spaces.
- **Writes per note.** The flat listing writes five pieces per shown note.
- **Absent merge request ID.** The threaded handler reads the ID with -1 as the fallback value, so an explicit ID of -1 is refused like a missing one.

## Model

| member | source | states |
|---|---|---|
| Text.ParseNatToString | cmd/gitlab-mcp/handlers.go:77 | The decimal text `%d` prints for a number reads back as that number, so no information is lost. |
| Text.IntToStringInjective | pkg/gitlabmcp/comments_handler.go:40 | Distinct integers print as distinct `%d` texts. |
| Text.WriteString | cmd/gitlab-mcp/handlers.go:49-50 | One builder write appends the piece. Afterwards the builder holds the join of all writes so far, in order. |
| GitLabClient.NewClient | pkg/gitlab/client.go:25-31 | The client targets `https://gitlab.com/api/v4` and carries the given token. |
| GitLabClient.NotesPageRequests | pkg/gitlab/client.go:35-43 | The n notes requests are for pages 1 to n, in order, with 100 notes per page. |
| GitLabClient.NotesPageRequestsIssuedBy | pkg/gitlab/client.go:45-49 | Every notes request is a GET to the client's base URL that carries its PRIVATE-TOKEN. |
| GitLabClient.Url | pkg/gitlab/client.go:40-43 | A notes URL is exactly base URL + `/projects/` + escaped project + `/merge_requests/` + IID + `/notes?per_page=<n>&page=<p>`. A listing URL (lines 82-83) is the same project prefix directly followed by `?source_branch=` + the escaped branch. |
| GitLabClient.NotesUrlsDistinct | pkg/gitlab/client.go:40-43 | For one project and page size, two notes URLs are equal only when the IID and the page are equal, so each page request names its merge request and page. |
| GitLabClient.PageOutcome | pkg/gitlab/client.go:51-65 | A reply succeeds iff it is a 200 whose body decodes; the records are then the decoded ones. A non-200 reply gives exactly `GitLab API error: <status> - <body>`. |
| GitLabClient.FirstStop | pkg/gitlab/client.go:69-74 | The walk stops at the first reply that fails or has an empty `X-Next-Page`, and at no earlier one. |
| GitLabClient.GetMergeRequestComments | pkg/gitlab/client.go:34-78 | The loop's result is the closed-form walk outcome `Paginated`. Its requests are exactly pages 1 to stop+1, in order. |
| GitLabClient.StopsAt | pkg/gitlab/client.go:57-73 | A reply that ends the walk, reached in order, is the first stop. Its failure, or the records collected so far plus its own, is the result. |
| GitLabClient.GetMergeRequestsBySourceBranch | pkg/gitlab/client.go:81-110 | Exactly one listing request is sent for the project and branch. The result is that reply's outcome: no pagination. |
| GitLabClient.PaginatedShift | pkg/gitlab/client.go:67-74 | Past a page that does not stop the walk, the outcome is that page's records followed by the outcome of the rest, or the rest's error. |
| GitLabClient.TraverseIsPaginated | pkg/gitlab/client.go:39-77 | The page-by-page definition of the walk and the closed form agree on every terminating reply sequence. |
| GitLabClient.AllPagesConcatenated | pkg/gitlab/client.go:67-77 | With N successful pages of which only the last has no next page, exactly N requests are made and all records are concatenated in request order. |
| GitLabClient.FailedPageAborts | pkg/gitlab/client.go:46-65 | A failing page aborts the walk with its own message, and no earlier page's records are returned. |
| GitLabClient.SameApiErrorShape | pkg/gitlab/client.go:57-60 | A non-200 reply yields the same error text on the notes walk as on the listing request (lines 98-101). |
| CommentGrouping.GetGroupedCommentThreads | pkg/gitlabmcp/comments_handler.go:13-53 | The single-pass map update produces exactly the grouping `GroupingOf(comments)`: the non-empty threads of the kept notes, each thread in input order. |
| CommentGrouping.ThreadOf | pkg/gitlabmcp/comments_handler.go:26-41 | The file is the new path or `Unknown`. The key is a non-empty line code, else `line_<N>` from the new line, else `general`. |
| CommentGrouping.AppendToThread | pkg/gitlabmcp/comments_handler.go:43-49 | Creates the file map and the thread on first use, then appends the note at the end of its thread. |
| CommentGrouping.GroupingOfSnoc | pkg/gitlabmcp/comments_handler.go:16-49 | One more note leaves the grouping unchanged when it is a system note or has no position. Otherwise it appends the note to its own thread. |
| CommentGrouping.ThreadMembers | pkg/gitlabmcp/comments_handler.go:48-49 | A note is in thread (path, key) iff it is an input note, kept, with that path and key. |
| CommentGrouping.KeysOfNonEmpty | pkg/gitlabmcp/comments_handler.go:43-49 | A key appears under a file iff its thread is non-empty. |
| CommentGrouping.PathsOfNonEmpty | pkg/gitlabmcp/comments_handler.go:44-46 | A file appears in the grouping iff it has at least one thread. |
| CommentGrouping.EachNoteInExactlyOneThread | pkg/gitlabmcp/comments_handler.go:16-49 | A kept note is in its own thread and in no other. A system or unpositioned note is in none. |
| CommentGrouping.ThreadsAreNonEmpty | pkg/gitlabmcp/comments_handler.go:43-49 | Every thread of the grouping holds at least one note. |
| CommentGrouping.ThreadOfConcat | pkg/gitlabmcp/comments_handler.go:16-49 | The threads of two concatenated note lists (two pages, say) are the concatenated threads, so input order is kept. |
| CommentGrouping.LineCodeTakesPrecedence | pkg/gitlabmcp/comments_handler.go:33-37 | Notes sharing a non-empty line code share the key, whatever their line numbers. |
| CommentGrouping.DistinctLinesDistinctKeys | pkg/gitlabmcp/comments_handler.go:38-40 | Without a line code, different line numbers give different keys. |
| CommentGrouping.UnanchoredLineIsGeneral | pkg/gitlabmcp/comments_handler.go:33-41 | Without a line code and without a line number, the key is `general`. |
| CommentGrouping.ThreadSizesSumToKept | pkg/gitlabmcp/comments_handler.go:16-49 | Over any duplicate-free list of thread ids that covers every kept note, the thread sizes add up to the number of kept notes. |
| CommentGrouping.GroupingSizesSumToKept | pkg/gitlabmcp/comments_handler.go:13-53 | Listing each thread of the grouping once, the sizes add up to the number of kept notes, so no note is lost or duplicated. |
| CommentsHandler.LineTextAsWrittenHidesLine | pkg/gitlabmcp/comments_handler.go:81-83 | The line as written (`%s` on a `*int`) never equals `Line: <N>`, for any pointer text. |
| CommentsHandler.LineTextShowsLine | pkg/gitlabmcp/comments_handler.go:81-83 | The corrected line reads `Line: 10` for line 10, and distinct lines read differently. |
| CommentsHandler.RenderThreads | pkg/gitlabmcp/comments_handler.go:70-98 | One block per file of the grouping, each file exactly once. Each block is the file header, then the sections of all that file's threads, each thread exactly once, with lines printed as written (`%s` on the `*int`). |
| CommentsHandler.RenderFile | pkg/gitlabmcp/comments_handler.go:73-97 | A file's block is `\nFile: <path>\n` followed by the sections of its threads, in some order that lists every key once, with lines printed as written. |
| CommentsHandler.WriteThread | pkg/gitlabmcp/comments_handler.go:78-95 | A thread's section is its as-written header from the first note followed by every note's entry. |
| CommentsHandler.WriteThreadHeader | pkg/gitlabmcp/comments_handler.go:79-86 | A non-empty thread writes, once and from its first note, `Line: %!s(*int=<address>)` when that note has a new line, then `Resolved: <bool>`. An empty thread writes nothing. |
| CommentsHandler.WriteEntries | pkg/gitlabmcp/comments_handler.go:90-94 | Every note of the thread is written, in thread order, as `[<created>] Comment by <user>` and its body. |
| CommentsHandler.GetCommentsForMergeRequest | pkg/gitlabmcp/comments_handler.go:55-101 | A failed walk gives its error. Otherwise the blocks render the grouping of all fetched notes, with lines printed as written. The requests are the walk's pages. |
| CommentsHandler.GetMergeRequestCommentsHandler | pkg/gitlabmcp/comments_handler.go:104-134 | A missing ID (or -1) gives the ID error with no request. A failed walk gives its message as an error result. Otherwise the result is the header item followed by one block per file, with lines printed as written. All requests use the configured token. |
| CommentsHandler.EntriesContainEntry | pkg/gitlabmcp/comments_handler.go:91-94 | Every note of a thread has its entry inside the thread's text. |
| CommentsHandler.SectionsContainThread | pkg/gitlabmcp/comments_handler.go:78-95 | Every thread rendered for a file has its section inside the file's text. |
| CommentsHandler.EveryKeptNoteRendered | pkg/gitlabmcp/comments_handler.go:55-101 | Every kept note's entry appears in the block of its own file, and that block starts with the file's header. |
| CommentsHandler.OneBlockPerFile | pkg/gitlabmcp/comments_handler.go:73-98 | There are as many blocks as files with threads, each headed by its own path, with no path twice. |
| CommentsHandler.ExampleGrouping | pkg/gitlabmcp/comments_handler.go:13-53 | A system note plus a note on line 10 of `a.go` group as `{a.go: {line_10: [note]}}`. |
| CommentsHandler.ExampleBlock | pkg/gitlabmcp/comments_handler.go:73-97 | That file's block is its header, the note's line in the chosen format, `Resolved: false` and the note's entry. |
| CommentsHandler.SingleAnchoredNoteExample | pkg/gitlabmcp/comments_handler.go:13-101 | For those two notes, every rendering in either format is exactly one block: the one above. |
| CommentsHandler.AsWrittenExampleHidesLine | pkg/gitlabmcp/comments_handler.go:73-98 | As written, that block carries `Line: %!s(*int=<address>)`, and for any address it differs from the block with `Line: 10`. |
| CommentsHandler.DecimalExampleShowsLine | pkg/gitlabmcp/comments_handler.go:73-98 | In the corrected format, that block carries `Line: 10`. |
| InfoHandler.WriteSummary | pkg/gitlabmcp/info_handler.go:45-56 | The builder ends up holding the merge request's summary block. |
| InfoHandler.Blocks | pkg/gitlabmcp/info_handler.go:43-63 | There is one block per merge request. |
| InfoHandler.WriteBlocks | pkg/gitlabmcp/info_handler.go:43-63 | The loop produces the blocks of all merge requests in list order. |
| InfoHandler.GetMergeRequestInfoHandler | pkg/gitlabmcp/info_handler.go:15-68 | A branch error gives that error with no request. Otherwise exactly one listing request is made. A listing failure gives its error. An empty list gives the "No merge requests found" text. Otherwise the result is the count header followed by one block per merge request. |
| InfoHandler.DescriptionLineIff | pkg/gitlabmcp/info_handler.go:47-49 | A `Description:` line is written iff the description is non-empty. |
| InfoHandler.AuthorLineIff | pkg/gitlabmcp/info_handler.go:50-52 | An `Author:` line is written iff both the author and its user name are present. |
| InfoHandler.OnlyOptionalLinesStartWith | pkg/gitlabmcp/info_handler.go:46-56 | No fixed line of the block can be mistaken for an optional one. |
| InfoHandler.SummaryBlockIsJoinedPieces | pkg/gitlabmcp/info_handler.go:45-60 | The block is exactly its writes joined in order. |
| InfoHandler.SummaryBlockBounds | pkg/gitlabmcp/info_handler.go:46-56 | A block opens with `!<IID>: <title>` and ends with `URL: <url>`, with no trailing newline. |
| InfoHandler.FixedLinesWritten | pkg/gitlabmcp/info_handler.go:53-56 | The source branch, target branch and state lines are always written. A block has five writes plus one per optional line present. |
| InfoHandler.BlocksInOrder | pkg/gitlabmcp/info_handler.go:43-63 | Item i of the blocks is the block of the i-th merge request. |
| CommandHandlers.GetCurrentBranchHandler | cmd/gitlab-mcp/handlers.go:21-28 | A branch error passes through as an error result. Otherwise the result is one text item: `Current branch is: ` followed by the branch, recoverable from the text. |
| CommandHandlers.Outcomes | cmd/gitlab-mcp/handlers.go:51-56 | There is one note-walk outcome per merge request. |
| CommandHandlers.GetMergeRequestCommentsHandler | cmd/gitlab-mcp/handlers.go:31-104 | A branch error gives that error with no request. A listing failure gives its error. An empty list gives the "No merge requests found" text. Otherwise the result is the `Listing` of the merge requests and their walk outcomes. The first request is the listing; all requests use the configured token. |
| CommandHandlers.WriteListing | cmd/gitlab-mcp/handlers.go:49-103 | The buffer loop yields `Listing`: the first failed walk's error, or the count header followed by every merge request's writes, in list order. |
| CommandHandlers.FetchNotes | cmd/gitlab-mcp/handlers.go:52-56 | The notes of the i-th merge request are its walk's outcome. |
| CommandHandlers.AppendMergeRequest | cmd/gitlab-mcp/handlers.go:57-93 | After merge request i, the buffer holds the header and the writes of merge requests 0..i. |
| CommandHandlers.WriteMergeRequest | cmd/gitlab-mcp/handlers.go:57-92 | Writes the heading, then `(No comments)` when no notes were fetched, or else the writes of the notes. |
| CommandHandlers.WriteComments | cmd/gitlab-mcp/handlers.go:63-93 | Writes the five pieces of every kept note, in order. System and unpositioned notes write nothing. |
| CommandHandlers.WriteComment | cmd/gitlab-mcp/handlers.go:87-92 | Writes the file, line, author, resolved flag and body pieces of one note, in that order. |
| CommandHandlers.CommentsPiecesStep | cmd/gitlab-mcp/handlers.go:63-85 | A kept note adds its five pieces. A system or unpositioned note adds nothing. |
| CommandHandlers.PositionFields | cmd/gitlab-mcp/handlers.go:73-82 | The line is the decimal new line or `Unknown`. The file is the new path or `Unknown`. |
| CommandHandlers.FirstErrorNoneIff | cmd/gitlab-mcp/handlers.go:51-56 | No walk failed iff every walk succeeded. |
| CommandHandlers.FirstErrorSticks | cmd/gitlab-mcp/handlers.go:52-55 | Once a walk has failed, later merge requests do not change the reported error. |
| CommandHandlers.FirstFailureDecides | cmd/gitlab-mcp/handlers.go:52-55 | The first merge request whose notes cannot be fetched decides the result: its error, whatever follows. |
| CommandHandlers.CommentsPiecesCount | cmd/gitlab-mcp/handlers.go:63-92 | Every shown note takes exactly five writes. |
| CommandHandlers.MrPiecesCount | cmd/gitlab-mcp/handlers.go:57-92 | A merge request takes its heading plus either one `(No comments)` write or five writes per shown note. |
| CommandHandlers.CommentPiecesAreNoteWrites | cmd/gitlab-mcp/handlers.go:87-92 | Each piece of a note is indented and is never the `(No comments)` line. |
| CommandHandlers.CommentsPiecesAreNoteWrites | cmd/gitlab-mcp/handlers.go:63-92 | Every piece written for notes is indented and is never the `(No comments)` line. |
| CommandHandlers.NoCommentsIffEmpty | cmd/gitlab-mcp/handlers.go:58-66 | `(No comments)` is written iff no notes were fetched. A merge request whose notes are all system or unpositioned writes only its heading. |
| CommandHandlers.LineFieldUnknownIff | cmd/gitlab-mcp/handlers.go:73-78 | The line shows `Unknown` iff the note has no new line number. |
| CommandHandlers.MrPiecesHeading | cmd/gitlab-mcp/handlers.go:57-92 | Among a merge request's writes, exactly one is a heading: its own. |
| CommandHandlers.MrHeadings | cmd/gitlab-mcp/handlers.go:51-57 | There is one heading per merge request. |
| CommandHandlers.HeadingsInListOrder | cmd/gitlab-mcp/handlers.go:51-94 | The headings in the listing are exactly the merge requests' headings, once each, in list order. |

## Left out

- HTTP mechanics are not modelled: building the request, the transport and reading the body.
  - A failure of `http.NewRequest` or of `Do` is a transport failure in `Reply`.
  - JSON decoding is the reply's given decode outcome.
- `url.PathEscape` and `url.QueryEscape` are parameters of `Url`, not definitions, because they are standard-library functions.
- Termination of the notes walk is a precondition (`Terminates`, `FetchesTerminate`). The source has no page limit and loops for as long as the server names a next page.
- `FetchesTerminate` asks that every merge request's walk terminate, including those after the first failing one, which the source never starts.
- Branch detection (`git.GetCurrentBranch`, a subprocess) is not modelled. Its outcome is an input.
- The tool server, its registration and configuration loading are not part of this model.
- `GetInt`'s conversion of the JSON argument is not modelled. The argument arrives as `Option<int>` and -1 is the fallback value.
- In the flat listing, the note replies for each merge request are given by its position in the list, not looked up by IID.
- Go's `fmt` pointer formatting is not modelled: the runtime address in `LineTextAsWritten` is a parameter.
  - The addresses come from a function of the note's value, so two notes with equal fields get the same address text here. At run time they may differ.
- `ctx` and cancellation are not modelled, and the handlers' always-nil Go error return is not part of the result.
- CommandHandlers.GetMergeRequestCommentsHandler: of the requests, the contract states only that the first is the listing request and that all carry the configured token. It does not state the page-by-page list of notes requests.

## Findings

| source | as written | input that shows it | evidently intended | confidence | as-written member | corrected member |
|---|---|---|---|---|---|---|
| pkg/gitlabmcp/comments_handler.go:82 | `%s` applied to the `*int` new line prints `Line: %!s(*int=0x…)`, a pointer address | a note on new line 10 with no line code | `Line: 10` | not executed | CommentsHandler.AsWrittenExampleHidesLine | CommentsHandler.DecimalExampleShowsLine |
