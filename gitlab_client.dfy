/** The GitLab REST client: request shapes, the single-request merge-request
    listing and the page-by-page walk over a merge request's notes.

    The HTTP transport is replaced by the replies it would deliver: a `Reply`
    is either a transport failure or a response with its status, body, the
    result of decoding the body as JSON, and its `X-Next-Page` header ("" when
    absent). The replies to the notes requests are a sequence indexed by page
    number minus one. */
module GitLabClient {
  import opened Wrappers
  import opened Text
  import opened GitLabTypes

  const DefaultBaseUrl: string := "https://gitlab.com/api/v4"
  const NotesPerPage: int := 100
  const StatusOK: int := 200

  datatype Client = Client(baseUrl: string, token: string)

  /** A client for gitlab.com that authenticates with `token`. */
  function NewClient(token: string): (c: Client)
    ensures c.baseUrl == DefaultBaseUrl
    ensures c.token == token
  {
    Client(DefaultBaseUrl, token)
  }

  datatype Endpoint =
    | MergeRequestNotes(projectId: string, mrIid: int, perPage: int, page: int)
    | MergeRequestsBySourceBranch(projectId: string, sourceBranch: string)

  /** An HTTP request: method, base URL, endpoint and the PRIVATE-TOKEN header. */
  datatype Request = Request(verb: string, baseUrl: string, endpoint: Endpoint, privateToken: string)

  /** The one request shape the client issues. */
  function Get(c: Client, e: Endpoint): Request {
    Request("GET", c.baseUrl, e, c.token)
  }

  /** A GET against the client's base URL carrying its token. */
  predicate IssuedBy(r: Request, c: Client) {
    r.verb == "GET" && r.baseUrl == c.baseUrl && r.privateToken == c.token
  }

  function NotesPageRequest(c: Client, projectId: string, mrIid: int, page: int): Request {
    Get(c, MergeRequestNotes(projectId, mrIid, NotesPerPage, page))
  }

  /** The requests for pages 1 to `n` of a merge request's notes, in order. */
  function NotesPageRequests(c: Client, projectId: string, mrIid: int, n: nat): (rs: seq<Request>)
    ensures |rs| == n
    ensures forall i :: 0 <= i < n ==> rs[i] == NotesPageRequest(c, projectId, mrIid, i + 1)
  {
    if n == 0 then [] else NotesPageRequests(c, projectId, mrIid, n - 1) + [NotesPageRequest(c, projectId, mrIid, n)]
  }

  /** Every notes request is a GET the client issues. */
  lemma NotesPageRequestsIssuedBy(c: Client, projectId: string, mrIid: int, n: nat)
    ensures forall r :: r in NotesPageRequests(c, projectId, mrIid, n) ==> IssuedBy(r, c)
  {
  }

  /** The URL of a request. Path and query escaping are the standard library's
      and are taken as given functions. */
  function Url(r: Request, pathEscape: string -> string, queryEscape: string -> string): (u: string)
    ensures StartsWith(u, ProjectUrl(r.baseUrl, pathEscape(r.endpoint.projectId)))
    ensures r.endpoint.MergeRequestNotes? ==>
      && EndsWith(u, NotesQuery(r.endpoint.perPage, r.endpoint.page))
      && u == ProjectUrl(r.baseUrl, pathEscape(r.endpoint.projectId)) + "/" + IntToString(r.endpoint.mrIid)
           + NotesQuery(r.endpoint.perPage, r.endpoint.page)
    ensures r.endpoint.MergeRequestsBySourceBranch? ==>
      && EndsWith(u, BranchQuery(queryEscape(r.endpoint.sourceBranch)))
      && |u| == |ProjectUrl(r.baseUrl, pathEscape(r.endpoint.projectId))| + |BranchQuery(queryEscape(r.endpoint.sourceBranch))|
  {
    var prefix := ProjectUrl(r.baseUrl, pathEscape(r.endpoint.projectId));
    match r.endpoint
    case MergeRequestNotes(_, iid, perPage, page) =>
      var suffix := NotesQuery(perPage, page);
      var u := prefix + "/" + IntToString(iid) + suffix;
      assert u[..|prefix|] == prefix;
      assert u[|u| - |suffix|..] == suffix;
      u
    case MergeRequestsBySourceBranch(_, branch) =>
      var suffix := BranchQuery(queryEscape(branch));
      var u := prefix + suffix;
      assert u[..|prefix|] == prefix;
      assert u[|u| - |suffix|..] == suffix;
      u
  }

  /** The merge requests of a project, with its path-escaped id. */
  function ProjectUrl(baseUrl: string, escapedProject: string): string {
    baseUrl + "/projects/" + escapedProject + "/merge_requests"
  }

  function NotesQuery(perPage: int, page: int): string {
    "/notes?per_page=" + IntToString(perPage) + "&page=" + IntToString(page)
  }

  function BranchQuery(escapedBranch: string): string {
    "?source_branch=" + escapedBranch
  }

  /** Notes URLs name their merge request and their page: two notes requests
      for the same project and page size get the same URL only when they ask
      for the same merge request and the same page. */
  lemma NotesUrlsDistinct(r1: Request, r2: Request, pathEscape: string -> string, queryEscape: string -> string)
    requires r1.endpoint.MergeRequestNotes? && r2.endpoint.MergeRequestNotes?
    requires r1.baseUrl == r2.baseUrl && r1.endpoint.projectId == r2.endpoint.projectId
    requires r1.endpoint.perPage == r2.endpoint.perPage
    requires Url(r1, pathEscape, queryEscape) == Url(r2, pathEscape, queryEscape)
    ensures r1.endpoint.mrIid == r2.endpoint.mrIid && r1.endpoint.page == r2.endpoint.page
  {
    var prefix := ProjectUrl(r1.baseUrl, pathEscape(r1.endpoint.projectId)) + "/";
    var a, b := IntToString(r1.endpoint.mrIid), IntToString(r2.endpoint.mrIid);
    var s1, s2 := NotesQuery(r1.endpoint.perPage, r1.endpoint.page), NotesQuery(r2.endpoint.perPage, r2.endpoint.page);
    IntToStringHasNoSlash(r1.endpoint.mrIid);
    IntToStringHasNoSlash(r2.endpoint.mrIid);
    SegmentBeforeSlash(prefix, a, b, s1, s2);
    IntToStringInjective(r1.endpoint.mrIid, r2.endpoint.mrIid);
    var z := "/notes?per_page=" + IntToString(r1.endpoint.perPage) + "&page=";
    var p1, p2 := IntToString(r1.endpoint.page), IntToString(r2.endpoint.page);
    assert s1 == z + p1 && s2 == z + p2;
    assert p1 == s1[|z|..] && p2 == s2[|z|..];
    IntToStringInjective(r1.endpoint.page, r2.endpoint.page);
  }

  predicate NoSlash(s: string) {
    forall k :: 0 <= k < |s| ==> s[k] != '/'
  }

  lemma IntToStringHasNoSlash(i: int)
    ensures NoSlash(IntToString(i))
  {
    var digits := NatToString(if i < 0 then -i else i);
    assert AllDigits(digits);
    if i < 0 {
      assert IntToString(i) == "-" + digits;
      forall k | 0 <= k < |IntToString(i)| ensures IntToString(i)[k] != '/' {
        if k > 0 {
          assert IntToString(i)[k] == digits[k - 1];
        }
      }
    }
  }

  /** The first '/' in `w` at or after position `i`, or the end of `w`. */
  function SlashFrom(w: string, i: nat): (k: nat)
    requires i <= |w|
    ensures i <= k <= |w|
    decreases |w| - i
  {
    if i == |w| || w[i] == '/' then i else SlashFrom(w, i + 1)
  }

  lemma {:induction false} SlashAfterSegment(x: string, a: string, s: string, i: nat)
    requires NoSlash(a) && |s| > 0 && s[0] == '/'
    requires |x| <= i <= |x| + |a|
    ensures SlashFrom(x + a + s, i) == |x| + |a|
    decreases |x| + |a| - i
  {
    var w := x + a + s;
    if i < |x| + |a| {
      assert w[i] == a[i - |x|];
      SlashAfterSegment(x, a, s, i + 1);
    } else {
      assert w[i] == s[0];
    }
  }

  /** A segment without '/' that is followed by '/' is read back unambiguously. */
  lemma SegmentBeforeSlash(x: string, a: string, b: string, s1: string, s2: string)
    requires NoSlash(a) && NoSlash(b)
    requires |s1| > 0 && s1[0] == '/' && |s2| > 0 && s2[0] == '/'
    requires x + a + s1 == x + b + s2
    ensures a == b && s1 == s2
  {
    var w := x + a + s1;
    SlashAfterSegment(x, a, s1, |x|);
    SlashAfterSegment(x, b, s2, |x|);
    assert a == w[|x|..|x| + |a|];
    assert b == (x + b + s2)[|x|..|x| + |b|];
    assert s1 == w[|x| + |a|..];
    assert s2 == (x + b + s2)[|x| + |b|..];
  }

  /** What the transport delivers for one request. */
  datatype Reply<T> =
    | TransportFailure(message: string)
    | HttpReply(statusCode: int, status: string, body: string, decoded: Result<seq<T>>, nextPage: string)

  /** The error text for a non-200 response, shared by both endpoints. */
  function ApiError(status: string, body: string): string {
    "GitLab API error: " + status + " - " + body
  }

  /** What one reply amounts to: a transport or decode failure passes its
      message through, any status other than 200 becomes `ApiError`, and a 200
      yields the decoded records. */
  function PageOutcome<T>(r: Reply<T>): (o: Result<seq<T>>)
    ensures o.Ok? <==> r.HttpReply? && r.statusCode == StatusOK && r.decoded.Ok?
    ensures o.Ok? ==> o.value == r.decoded.value
    ensures r.HttpReply? && r.statusCode != StatusOK ==> o == Err(ApiError(r.status, r.body))
  {
    match r
    case TransportFailure(m) => Err(m)
    case HttpReply(code, status, body, decoded, _) =>
      if code != StatusOK then Err(ApiError(status, body)) else decoded
  }

  /** The walk stops after this reply: it failed, or it has no next page. */
  predicate EndsPagination<T>(r: Reply<T>) {
    PageOutcome(r).Err? || r.nextPage == ""
  }

  /** Some reply within the sequence ends the walk. Without it the source
      keeps requesting pages for as long as the server names a next one. */
  predicate Terminates<T>(pages: seq<Reply<T>>) {
    exists k :: 0 <= k < |pages| && EndsPagination(pages[k])
  }

  lemma TerminatesTail<T>(pages: seq<Reply<T>>)
    requires Terminates(pages) && !EndsPagination(pages[0])
    ensures Terminates(pages[1..])
  {
    var k :| 0 <= k < |pages| && EndsPagination(pages[k]);
    assert pages[1..][k - 1] == pages[k];
  }

  /** The index of the reply that ends the walk: the first one that does. */
  function FirstStop<T>(pages: seq<Reply<T>>): (k: nat)
    requires Terminates(pages)
    ensures k < |pages| && EndsPagination(pages[k])
    ensures forall j :: 0 <= j < k ==> !EndsPagination(pages[j])
    decreases |pages|
  {
    if EndsPagination(pages[0]) then 0
    else
      TerminatesTail(pages);
      var k := FirstStop(pages[1..]);
      assert forall j :: 1 <= j < k + 1 ==> pages[j] == pages[1..][j - 1];
      1 + k
  }

  /** The records of the first `n` replies, in request order. */
  function Collected<T>(pages: seq<Reply<T>>, n: nat): seq<T>
    requires n <= |pages|
    requires forall j :: 0 <= j < n ==> PageOutcome(pages[j]).Ok?
  {
    if n == 0 then [] else Collected(pages, n - 1) + PageOutcome(pages[n - 1]).value
  }

  /** The outcome of the walk in closed form: the reply that ends it decides.
      If it failed, its error is the outcome and every earlier page is dropped;
      otherwise the outcome is every page's records, up to and including it. */
  function Paginated<T>(pages: seq<Reply<T>>): Result<seq<T>>
    requires Terminates(pages)
  {
    var k := FirstStop(pages);
    match PageOutcome(pages[k])
    case Err(m) => Err(m)
    case Ok(last) => Ok(Collected(pages, k) + last)
  }

  /** The notes of a merge request, fetched page by page: pages 1, 2, 3, ...
      of 100 notes each, until a reply fails or names no next page. */
  method GetMergeRequestComments(c: Client, projectId: string, mrIid: int, pages: seq<Reply<Note>>)
    returns (result: Result<seq<Note>>, sent: seq<Request>)
    requires Terminates(pages)
    ensures result == Paginated(pages)
    ensures sent == NotesPageRequests(c, projectId, mrIid, FirstStop(pages) + 1)
  {
    var page := 1;
    var allNotes: seq<Note> := [];
    sent := [];
    while true
      invariant 1 <= page <= FirstStop(pages) + 1
      invariant sent == NotesPageRequests(c, projectId, mrIid, page - 1)
      invariant allNotes == Collected(pages, page - 1)
      decreases FirstStop(pages) + 1 - page
    {
      sent := sent + [NotesPageRequest(c, projectId, mrIid, page)];
      var reply := pages[page - 1];
      if reply.TransportFailure? {
        StopsAt(pages, page - 1);
        return Err(reply.message), sent;
      }
      if reply.statusCode != StatusOK {
        StopsAt(pages, page - 1);
        return Err(ApiError(reply.status, reply.body)), sent;
      }
      if reply.decoded.Err? {
        StopsAt(pages, page - 1);
        return Err(reply.decoded.message), sent;
      }
      allNotes := allNotes + reply.decoded.value;
      if reply.nextPage == "" {
        StopsAt(pages, page - 1);
        break;
      }
      page := page + 1;
    }
    result := Ok(allNotes);
  }

  /** A reply that ends the walk, reached without passing the first one that
      does, is that first one; the walk's outcome is then decided by it. */
  lemma StopsAt<T>(pages: seq<Reply<T>>, k: nat)
    requires Terminates(pages) && k <= FirstStop(pages) && EndsPagination(pages[k])
    ensures FirstStop(pages) == k
    ensures PageOutcome(pages[k]).Err? ==> Paginated(pages) == Err(PageOutcome(pages[k]).message)
    ensures PageOutcome(pages[k]).Ok? ==> Paginated(pages) == Ok(Collected(pages, k) + PageOutcome(pages[k]).value)
  {
  }

  /** The merge requests whose source branch is `sourceBranch`: one request,
      no pagination. */
  method GetMergeRequestsBySourceBranch(c: Client, projectId: string, sourceBranch: string, reply: Reply<MergeRequest>)
    returns (result: Result<seq<MergeRequest>>, sent: seq<Request>)
    ensures sent == [Get(c, MergeRequestsBySourceBranch(projectId, sourceBranch))]
    ensures result == PageOutcome(reply)
  {
    sent := [Get(c, MergeRequestsBySourceBranch(projectId, sourceBranch))];
    if reply.TransportFailure? {
      return Err(reply.message), sent;
    }
    if reply.statusCode != StatusOK {
      return Err(ApiError(reply.status, reply.body)), sent;
    }
    if reply.decoded.Err? {
      return Err(reply.decoded.message), sent;
    }
    result := Ok(reply.decoded.value);
  }

  // ---------------------------------------------------------------------------
  // Properties of the walk

  /** A reference definition of the walk, one page at a time, as the loop reads
      it: it agrees with the closed form. */
  function Traverse<T>(pages: seq<Reply<T>>): Result<seq<T>>
    requires Terminates(pages)
    decreases |pages|
  {
    match PageOutcome(pages[0])
    case Err(m) => Err(m)
    case Ok(records) =>
      if pages[0].nextPage == "" then Ok(records)
      else
        TerminatesTail(pages);
        match Traverse(pages[1..])
        case Err(m) => Err(m)
        case Ok(rest) => Ok(records + rest)
  }

  lemma {:induction false} CollectedShift<T>(pages: seq<Reply<T>>, m: nat)
    requires m + 1 <= |pages|
    requires forall j :: 0 <= j < m + 1 ==> PageOutcome(pages[j]).Ok?
    ensures Collected(pages, m + 1) == PageOutcome(pages[0]).value + Collected(pages[1..], m)
  {
    var tail := pages[1..];
    assert forall j :: 0 <= j < m ==> tail[j] == pages[j + 1];
    if m > 0 {
      CollectedShift(pages, m - 1);
      var last := PageOutcome(pages[m]).value;
      assert tail[m - 1] == pages[m];
      assert Collected(tail, m) == Collected(tail, m - 1) + last;
      ConcatAssoc(PageOutcome(pages[0]).value, Collected(tail, m - 1), last);
    }
  }

  /** Past a page that does not end the walk, the closed form is that page's
      records in front of the closed form of the rest. */
  lemma PaginatedShift<T>(pages: seq<Reply<T>>)
    requires Terminates(pages) && !EndsPagination(pages[0])
    ensures Terminates(pages[1..])
    ensures Paginated(pages) ==
      match Paginated(pages[1..])
      case Err(m) => Err(m)
      case Ok(rest) => Ok(PageOutcome(pages[0]).value + rest)
  {
    TerminatesTail(pages);
    var k := FirstStop(pages[1..]);
    assert FirstStop(pages) == k + 1;
    assert pages[1..][k] == pages[k + 1];
    CollectedShift(pages, k);
    var first := PageOutcome(pages[0]).value;
    match PageOutcome(pages[k + 1])
    case Err(m) =>
    case Ok(last) =>
      assert Collected(pages, k + 1) + last == first + (Collected(pages[1..], k) + last);
  }

  lemma {:induction false} TraverseIsPaginated<T>(pages: seq<Reply<T>>)
    requires Terminates(pages)
    ensures Traverse(pages) == Paginated(pages)
    decreases |pages|
  {
    if !EndsPagination(pages[0]) {
      PaginatedShift(pages);
      TraverseIsPaginated(pages[1..]);
    } else {
      assert FirstStop(pages) == 0;
      match PageOutcome(pages[0])
      case Err(m) =>
      case Ok(last) =>
        assert Collected(pages, 0) + last == last;
    }
  }

  /** N replies where the first N-1 succeed and name a next page and the N-th
      succeeds without one: exactly N requests, all records concatenated. */
  lemma AllPagesConcatenated<T>(pages: seq<Reply<T>>)
    requires |pages| >= 1
    requires forall j :: 0 <= j < |pages| ==> PageOutcome(pages[j]).Ok?
    requires forall j :: 0 <= j < |pages| - 1 ==> pages[j].HttpReply? && pages[j].nextPage != ""
    requires pages[|pages| - 1].HttpReply? && pages[|pages| - 1].nextPage == ""
    ensures Terminates(pages)
    ensures FirstStop(pages) + 1 == |pages|
    ensures Paginated(pages) == Ok(Collected(pages, |pages|))
  {
    assert EndsPagination(pages[|pages| - 1]);
  }

  /** A failing reply aborts the walk: no earlier page survives, and the
      failure's own message is the result. */
  lemma FailedPageAborts<T>(pages: seq<Reply<T>>, j: nat)
    requires j < |pages|
    requires forall i :: 0 <= i < j ==> !EndsPagination(pages[i])
    requires PageOutcome(pages[j]).Err?
    ensures Terminates(pages)
    ensures FirstStop(pages) == j
    ensures Paginated(pages) == Err(PageOutcome(pages[j]).message)
  {
    assert EndsPagination(pages[j]);
  }

  /** Both endpoints report a non-200 reply the same way. */
  lemma SameApiErrorShape(notesPages: seq<Reply<Note>>, j: nat, mrReply: Reply<MergeRequest>)
    requires j < |notesPages|
    requires forall i :: 0 <= i < j ==> !EndsPagination(notesPages[i])
    requires notesPages[j].HttpReply? && notesPages[j].statusCode != StatusOK
    requires mrReply.HttpReply? && mrReply.statusCode == notesPages[j].statusCode
    requires mrReply.status == notesPages[j].status && mrReply.body == notesPages[j].body
    ensures Terminates(notesPages)
    ensures Paginated(notesPages) == Err(ApiError(mrReply.status, mrReply.body))
    ensures PageOutcome(mrReply) == Err(Paginated(notesPages).message)
  {
    FailedPageAborts(notesPages, j);
  }
}
