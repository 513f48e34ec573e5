/** Threaded rendering of a merge request's notes and the tool handler that
    serves them: fetch all pages, group, then one text block per file.

    The source iterates Go maps, whose order is unspecified. The rendering
    methods pick the next file and the next key with `:|`, so the model fixes
    no order either; ghost out-parameters record the order that was taken.

    The source prints a thread's line number with `%s` on a `*int`, which
    shows the pointer; the rendering methods write that text, and the
    rendering functions also admit the intended decimal line (`LineFormat`). */
module CommentsHandler {
  import opened Wrappers
  import opened Text
  import opened GitLabTypes
  import opened ToolResults
  import opened GitLabClient
  import opened CommentGrouping

  const CommentsHeader: string := "Comments for Merge Request:"
  const MissingIdMessage: string := "Merge request ID is required"

  /** The argument value `GetInt` falls back to when the argument is absent. */
  const AbsentId: int := -1

  function FileHeader(path: string): string {
    "\nFile: " + path + "\n"
  }

  /** The "Line:" line as intended: the new-side line number in decimal. */
  function LineText(line: int): string {
    "Line: " + IntToString(line) + "\n"
  }

  /** The "Line:" line as the source writes it: `%s` applied to a `*int`.
      Go's fmt reports the bad verb and prints the pointer's address instead
      of the number; `address` is that runtime address in hex. */
  function LineTextAsWritten(address: string): string {
    "Line: %!s(*int=" + address + ")\n"
  }

  /** Whatever the address, the as-written line never shows the line number. */
  lemma LineTextAsWrittenHidesLine(line: int, address: string)
    ensures LineTextAsWritten(address) != LineText(line)
  {
    var digits := IntToString(line);
    assert LineText(line)[6] == digits[0];
    if line >= 0 {
      assert IsDigit(NatToString(line)[0]);
    }
    assert LineTextAsWritten(address)[6] == '%';
  }

  /** The intended line shows the number itself: line 10 reads "Line: 10",
      and different lines read differently. */
  lemma LineTextShowsLine(a: int, b: int)
    ensures LineText(10) == "Line: 10\n"
    ensures LineText(a) == LineText(b) ==> a == b
  {
    assert NatToString(1) == "1";
    assert NatToString(10) == "10";
    if LineText(a) == LineText(b) {
      var la, lb := LineText(a), LineText(b);
      assert la[6..|la| - 1] == IntToString(a);
      assert lb[6..|lb| - 1] == IntToString(b);
      IntToStringInjective(a, b);
    }
  }

  function ResolvedText(resolved: bool): string {
    "Resolved: " + BoolToString(resolved) + "\n"
  }

  /** The note is anchored to a line on the new side of the diff. */
  predicate HasNewLine(c: Note) {
    c.position.Some? && c.position.value.newLine.Some?
  }

  /** How a thread header prints the first note's line: as the source does
      (`AsWritten`: `%s` on the `*int`, which shows `address(note)`, the
      runtime address of the note's line number), or as evidently intended
      (`Decimal`). */
  datatype LineFormat = AsWritten(address: Note -> string) | Decimal

  function LineOutput(format: LineFormat, first: Note): string
    requires HasNewLine(first)
  {
    match format
    case AsWritten(address) => LineTextAsWritten(address(first))
    case Decimal => LineText(first.position.value.newLine.value)
  }

  /** Written once per thread, from the thread's first note. */
  function ThreadHeader(first: Note, format: LineFormat): string {
    if HasNewLine(first) then LineOutput(format, first) + ResolvedText(first.resolved)
    else ResolvedText(first.resolved)
  }

  /** The two writes made for each note of a thread. */
  function EntryHeading(c: Note): string {
    "[" + c.createdAt + "] Comment by " + c.author.username + "\n"
  }

  function EntryBody(c: Note): string {
    c.body + "\n\n"
  }

  function Entry(c: Note): string {
    EntryHeading(c) + EntryBody(c)
  }

  function Entries(cs: seq<Note>): string {
    if cs == [] then "" else Entries(cs[..|cs| - 1]) + Entry(cs[|cs| - 1])
  }

  function ThreadHead(cs: seq<Note>, format: LineFormat): string {
    if |cs| > 0 then ThreadHeader(cs[0], format) else ""
  }

  function ThreadSection(cs: seq<Note>, format: LineFormat): string {
    ThreadHead(cs, format) + Entries(cs)
  }

  /** The sections of the threads listed in `order`, in that order. */
  function Sections(threads: map<string, seq<Note>>, order: seq<string>, format: LineFormat): string
    requires forall key :: key in order ==> key in threads
  {
    if order == [] then ""
    else Sections(threads, order[..|order| - 1], format) + ThreadSection(threads[order[|order| - 1]], format)
  }

  function FileBlock(path: string, threads: map<string, seq<Note>>, order: seq<string>, format: LineFormat): string
    requires forall key :: key in order ==> key in threads
  {
    FileHeader(path) + Sections(threads, order, format)
  }

  /** `xs` lists the elements of `s`, each once. */
  ghost predicate Enumerates(xs: seq<string>, s: set<string>) {
    Distinct(xs) && forall x :: x in xs <==> x in s
  }

  /** `blocks` is a rendering of `g`: one block per file, in the order
      `paths`, each file's threads in the order `orders[i]`, each thread's
      line printed in `format`. */
  ghost predicate RendersGrouping(
    g: Grouping, blocks: seq<string>, paths: seq<string>, orders: seq<seq<string>>, format: LineFormat)
  {
    Enumerates(paths, g.Keys) && FilesRendered(g, blocks, paths, orders, format)
  }

  /** `blocks[i]` is the block of file `paths[i]`, its threads in the order
      `orders[i]`. */
  ghost predicate FilesRendered(
    g: Grouping, blocks: seq<string>, paths: seq<string>, orders: seq<seq<string>>, format: LineFormat)
  {
    && |blocks| == |paths| && |orders| == |paths|
    && forall i :: 0 <= i < |paths| ==>
         && paths[i] in g
         && Enumerates(orders[i], g[paths[i]].Keys)
         && blocks[i] == FileBlock(paths[i], g[paths[i]], orders[i], format)
  }

  lemma FilesRenderedSnoc(
    g: Grouping, blocks: seq<string>, paths: seq<string>, orders: seq<seq<string>>, format: LineFormat,
    path: string, block: string, order: seq<string>)
    requires FilesRendered(g, blocks, paths, orders, format)
    requires path in g && Enumerates(order, g[path].Keys) && block == FileBlock(path, g[path], order, format)
    ensures FilesRendered(g, blocks + [block], paths + [path], orders + [order], format)
  {
  }

  lemma DistinctSnoc<T>(xs: seq<T>, x: T)
    requires Distinct(xs) && x !in xs
    ensures Distinct(xs + [x])
  {
  }

  /** The source's rendering loops: for each file, its header, then for each
      of its threads the thread header and every note. `address` gives the
      runtime address of each note's line number, which `%s` prints. */
  method RenderThreads(g: Grouping, address: Note -> string)
    returns (blocks: seq<string>, ghost paths: seq<string>, ghost orders: seq<seq<string>>)
    ensures RendersGrouping(g, blocks, paths, orders, AsWritten(address))
  {
    blocks, paths, orders := [], [], [];
    var remaining := g.Keys;
    while remaining != {}
      invariant remaining <= g.Keys
      invariant Distinct(paths)
      invariant forall p :: p in paths <==> p in g.Keys && p !in remaining
      invariant FilesRendered(g, blocks, paths, orders, AsWritten(address))
      decreases remaining
    {
      var path :| path in remaining;
      var threads := g[path];
      var sb := RenderFile(path, threads, address);
      ghost var order :| Enumerates(order, threads.Keys) && sb == FileBlock(path, threads, order, AsWritten(address));
      DistinctSnoc(paths, path);
      FilesRenderedSnoc(g, blocks, paths, orders, AsWritten(address), path, sb, order);
      blocks, paths, orders := blocks + [sb], paths + [path], orders + [order];
      remaining := remaining - {path};
    }
  }

  lemma SectionsSnoc(threads: map<string, seq<Note>>, order: seq<string>, key: string, format: LineFormat)
    requires forall k :: k in order ==> k in threads
    requires key in threads
    ensures Sections(threads, order + [key], format) == Sections(threads, order, format) + ThreadSection(threads[key], format)
  {
    assert (order + [key])[..|order|] == order;
  }

  /** One file's block. */
  method RenderFile(path: string, threads: map<string, seq<Note>>, address: Note -> string) returns (sb: string)
    ensures exists order :: Enumerates(order, threads.Keys) && sb == FileBlock(path, threads, order, AsWritten(address))
  {
    ghost var format := AsWritten(address);
    sb := FileHeader(path);
    ghost var order: seq<string> := [];
    var pending := threads.Keys;
    while pending != {}
      invariant pending <= threads.Keys
      invariant Distinct(order)
      invariant forall k :: k in order <==> k in threads.Keys && k !in pending
      invariant sb == FileHeader(path) + Sections(threads, order, format)
      decreases pending
    {
      var key :| key in pending;
      sb := WriteThread(sb, threads[key], address);
      SectionsSnoc(threads, order, key, format);
      AppendAssoc(FileHeader(path), Sections(threads, order, format), ThreadSection(threads[key], format));
      DistinctSnoc(order, key);
      order := order + [key];
      pending := pending - {key};
    }
    assert Enumerates(order, threads.Keys);
  }

  lemma EntriesSnoc(cs: seq<Note>, c: Note)
    ensures Entries(cs + [c]) == Entries(cs) + Entry(c)
  {
    assert (cs + [c])[..|cs|] == cs;
  }

  /** One thread: the header from its first note, then every note. */
  method WriteThread(sb0: string, comments: seq<Note>, address: Note -> string) returns (sb: string)
    ensures sb == sb0 + ThreadSection(comments, AsWritten(address))
  {
    sb := WriteThreadHeader(sb0, comments, address);
    sb := WriteEntries(sb, comments);
    AppendAssoc(sb0, ThreadHead(comments, AsWritten(address)), Entries(comments));
  }

  /** The first note's line, printed with `%s` on its `*int`, when it has
      one; then its resolved flag. */
  method WriteThreadHeader(sb0: string, comments: seq<Note>, address: Note -> string) returns (sb: string)
    ensures sb == sb0 + ThreadHead(comments, AsWritten(address))
  {
    sb := sb0;
    if |comments| > 0 {
      var comment := comments[0];
      if comment.position.Some? && comment.position.value.newLine.Some? {
        var line := LineTextAsWritten(address(comment));
        sb := sb + line;
        AppendAssoc(sb0, line, ResolvedText(comment.resolved));
      }
      sb := sb + ResolvedText(comment.resolved);
    }
  }

  method WriteEntries(sb0: string, comments: seq<Note>) returns (sb: string)
    ensures sb == sb0 + Entries(comments)
  {
    sb := sb0;
    for j := 0 to |comments|
      invariant sb == sb0 + Entries(comments[..j])
    {
      var comment := comments[j];
      sb := sb + EntryHeading(comment);
      sb := sb + EntryBody(comment);
      assert comments[..j + 1] == comments[..j] + [comment];
      EntriesSnoc(comments[..j], comment);
    }
    assert comments[..|comments|] == comments;
  }

  /** Fetch every page of notes, group them and render one block per file. */
  method GetCommentsForMergeRequest(
    mr: int, client: Client, config: Config, pages: seq<Reply<Note>>, address: Note -> string)
    returns (threads: Result<seq<string>>, sent: seq<Request>, ghost paths: seq<string>, ghost orders: seq<seq<string>>)
    requires Terminates(pages)
    ensures Paginated(pages).Err? ==> threads == Err(Paginated(pages).message)
    ensures Paginated(pages).Ok? ==>
      threads.Ok? && RendersGrouping(GroupingOf(Paginated(pages).value), threads.value, paths, orders, AsWritten(address))
    ensures sent == NotesPageRequests(client, config.projectId, mr, FirstStop(pages) + 1)
  {
    paths, orders := [], [];
    var comments;
    comments, sent := GetMergeRequestComments(client, config.projectId, mr, pages);
    if comments.Err? {
      return Err(comments.message), sent, paths, orders;
    }
    var threadsByFiles := GetGroupedCommentThreads(comments.value);
    var outputThreads;
    outputThreads, paths, orders := RenderThreads(threadsByFiles, address);
    threads := Ok(outputThreads);
  }

  /** The `get_merge_request_comments` tool. The argument is read with -1 as
      the fallback, so an absent argument and an explicit -1 are both refused
      before any client exists or any request is made. */
  method GetMergeRequestCommentsHandler(
    config: Config, mergeRequestIid: Option<int>, pages: seq<Reply<Note>>, address: Note -> string)
    returns (result: ToolResult, sent: seq<Request>, ghost paths: seq<string>, ghost orders: seq<seq<string>>)
    requires mergeRequestIid.GetOr(AbsentId) != AbsentId ==> Terminates(pages)
    ensures mergeRequestIid.GetOr(AbsentId) == AbsentId ==> result == ErrorResult(MissingIdMessage) && sent == []
    ensures mergeRequestIid.GetOr(AbsentId) != AbsentId ==>
      sent == NotesPageRequests(NewClient(config.gitLabToken), config.projectId, mergeRequestIid.value, FirstStop(pages) + 1)
    ensures mergeRequestIid.GetOr(AbsentId) != AbsentId && Paginated(pages).Err? ==>
      result == ErrorResult(Paginated(pages).message)
    ensures mergeRequestIid.GetOr(AbsentId) != AbsentId && Paginated(pages).Ok? ==>
      && !result.isError && |result.contents| >= 1 && result.contents[0] == CommentsHeader
      && RendersGrouping(GroupingOf(Paginated(pages).value), result.contents[1..], paths, orders, AsWritten(address))
    ensures forall r :: r in sent ==> IssuedBy(r, NewClient(config.gitLabToken))
  {
    paths, orders := [], [];
    var mergeRequestId := mergeRequestIid.GetOr(AbsentId);
    if mergeRequestId == AbsentId {
      return ErrorResult(MissingIdMessage), [], paths, orders;
    }

    var client := NewClient(config.gitLabToken);
    var contents: seq<string> := [];

    var threadsForMr;
    threadsForMr, sent, paths, orders := GetCommentsForMergeRequest(mergeRequestId, client, config, pages, address);
    NotesPageRequestsIssuedBy(client, config.projectId, mergeRequestId, FirstStop(pages) + 1);
    if threadsForMr.Err? {
      return ErrorResult(threadsForMr.message), sent, paths, orders;
    }

    contents := contents + [CommentsHeader];
    for i := 0 to |threadsForMr.value|
      invariant contents == [CommentsHeader] + threadsForMr.value[..i]
    {
      contents := contents + [threadsForMr.value[i]];
    }
    assert threadsForMr.value[..|threadsForMr.value|] == threadsForMr.value;
    result := ToolResult(false, contents);
  }

  // ---------------------------------------------------------------------------
  // Properties of the rendering, in either line format

  lemma {:induction false} EntriesContainEntry(cs: seq<Note>, c: Note)
    requires c in cs
    ensures Contains(Entries(cs), Entry(c))
    decreases |cs|
  {
    var prefix, last := cs[..|cs| - 1], cs[|cs| - 1];
    if c == last {
      ContainsEnd(Entries(prefix), Entry(c));
    } else {
      assert cs == prefix + [last];
      EntriesContainEntry(prefix, c);
      ContainsAppendRight(Entries(prefix), Entry(c), Entry(last));
    }
  }

  lemma {:induction false} SectionsContainThread(
    threads: map<string, seq<Note>>, order: seq<string>, format: LineFormat, j: nat)
    requires forall key :: key in order ==> key in threads
    requires j < |order|
    ensures Contains(Sections(threads, order, format), ThreadSection(threads[order[j]], format))
    decreases |order|
  {
    var prefix := order[..|order| - 1];
    var section := ThreadSection(threads[order[|order| - 1]], format);
    assert order == prefix + [order[|order| - 1]];
    SectionsSnoc(threads, prefix, order[|order| - 1], format);
    if j == |order| - 1 {
      ContainsEnd(Sections(threads, prefix, format), section);
    } else {
      assert prefix[j] == order[j];
      SectionsContainThread(threads, prefix, format, j);
      ContainsAppendRight(Sections(threads, prefix, format), ThreadSection(threads[order[j]], format), section);
    }
  }

  /** Nothing kept is lost: every kept note's entry appears in the block of
      its own file, and that block starts with the file's header. */
  lemma EveryKeptNoteRendered(
    comments: seq<Note>, blocks: seq<string>, paths: seq<string>, orders: seq<seq<string>>, format: LineFormat, c: Note)
    requires RendersGrouping(GroupingOf(comments), blocks, paths, orders, format)
    requires c in comments && Kept(c)
    ensures exists i :: (0 <= i < |paths| && paths[i] == NotePath(c) &&
      StartsWith(blocks[i], FileHeader(NotePath(c))) && Contains(blocks[i], Entry(c)))
  {
    var g := GroupingOf(comments);
    EachNoteInExactlyOneThread(comments, c);
    var path, key := NotePath(c), NoteKey(c);
    assert path in paths;
    var i :| 0 <= i < |paths| && paths[i] == path;
    assert key in orders[i];
    var j :| 0 <= j < |orders[i]| && orders[i][j] == key;
    var threads := g[path];
    EntriesContainEntry(threads[key], c);
    var header := ThreadHead(threads[key], format);
    ContainsAppendLeft(header, Entries(threads[key]), Entry(c));
    SectionsContainThread(threads, orders[i], format, j);
    ContainsTransitive(Sections(threads, orders[i], format), ThreadSection(threads[key], format), Entry(c));
    ContainsAppendLeft(FileHeader(path), Sections(threads, orders[i], format), Entry(c));
    assert blocks[i][..|FileHeader(path)|] == FileHeader(path);
  }

  lemma {:induction false} EnumerationSize(xs: seq<string>, s: set<string>)
    requires Enumerates(xs, s)
    ensures |xs| == |s|
    decreases |xs|
  {
    if xs != [] {
      var prefix, last := xs[..|xs| - 1], xs[|xs| - 1];
      assert last !in prefix;
      assert forall x :: x in prefix <==> x in s - {last} by {
        forall x ensures x in prefix <==> x in s - {last} {
          if x in prefix {
            var k :| 0 <= k < |prefix| && prefix[k] == x;
            assert xs[k] == x;
          }
          if x in s - {last} {
            assert x in xs;
            var k :| 0 <= k < |xs| && xs[k] == x;
            assert k != |xs| - 1;
            assert prefix[k] == x;
          }
        }
      }
      EnumerationSize(prefix, s - {last});
    } else {
      assert forall x :: x !in s;
      assert s == {};
    }
  }

  lemma BlockStartsWithHeader(
    g: Grouping, blocks: seq<string>, paths: seq<string>, orders: seq<seq<string>>, format: LineFormat, i: nat)
    requires FilesRendered(g, blocks, paths, orders, format) && i < |blocks|
    ensures StartsWith(blocks[i], FileHeader(paths[i]))
  {
    var header := FileHeader(paths[i]);
    var rest := Sections(g[paths[i]], orders[i], format);
    assert blocks[i] == header + rest;
    assert (header + rest)[..|header|] == header;
  }

  /** Exactly one block per file that has a thread, each headed by its path. */
  lemma OneBlockPerFile(
    comments: seq<Note>, blocks: seq<string>, paths: seq<string>, orders: seq<seq<string>>, format: LineFormat)
    requires RendersGrouping(GroupingOf(comments), blocks, paths, orders, format)
    ensures |blocks| == |PathsOf(comments)|
    ensures forall i :: 0 <= i < |blocks| ==> StartsWith(blocks[i], FileHeader(paths[i]))
    ensures forall i, j :: 0 <= i < j < |paths| ==> paths[i] != paths[j]
  {
    var g := GroupingOf(comments);
    EnumerationSize(paths, g.Keys);
    assert g.Keys == PathsOf(comments);
    forall i | 0 <= i < |blocks| ensures StartsWith(blocks[i], FileHeader(paths[i])) {
      BlockStartsWithHeader(g, blocks, paths, orders, format, i);
    }
  }

  // ---------------------------------------------------------------------------
  // One system note and one note on line 10 of a.go without a line code

  lemma ExampleGrouping()
    ensures GroupingOf(ExampleNotes()) == map["a.go" := map["line_10" := [ExampleNotes()[1]]]]
  {
    var notes := ExampleNotes();
    assert GroupingOf([]) == map[];
    assert [notes[0]] == [] + [notes[0]];
    GroupingOfSnoc([], notes[0]);
    assert notes == [notes[0]] + [notes[1]];
    GroupingOfSnoc([notes[0]], notes[1]);
    assert NatToString(1) == "1";
    assert IntToString(10) == "10";
    assert NoteKey(notes[1]) == "line_10";
    assert NotePath(notes[1]) == "a.go";
    assert [] + [notes[1]] == [notes[1]];
  }

  lemma SingletonEnumeration(xs: seq<string>, x: string)
    requires Enumerates(xs, {x})
    ensures xs == [x]
  {
    EnumerationSize(xs, {x});
    assert xs[0] in {x};
  }

  /** The example's block: the file header, the note's line in `format`, its
      resolved flag and its entry. */
  lemma ExampleBlock(format: LineFormat)
    ensures FileBlock("a.go", map["line_10" := [ExampleNotes()[1]]], ["line_10"], format)
      == FileHeader("a.go") + LineOutput(format, ExampleNotes()[1]) + ResolvedText(false) + Entry(ExampleNotes()[1])
  {
    var note := ExampleNotes()[1];
    var threads := map["line_10" := [note]];
    var line := LineOutput(format, note);
    assert ["line_10"][..0] == [];
    assert [note][..0] == [];
    assert Entries([note]) == Entry(note);
    assert Sections(threads, ["line_10"], format) == ThreadSection([note], format);
    assert ThreadHeader(note, format) == line + ResolvedText(false);
    AppendAssoc(FileHeader("a.go"), line + ResolvedText(false), Entry(note));
    AppendAssoc(FileHeader("a.go"), line, ResolvedText(false));
  }

  /** Every rendering of the example is that single block. */
  lemma SingleAnchoredNoteExample(format: LineFormat, blocks: seq<string>, paths: seq<string>, orders: seq<seq<string>>)
    requires RendersGrouping(GroupingOf(ExampleNotes()), blocks, paths, orders, format)
    ensures blocks ==
      [FileHeader("a.go") + LineOutput(format, ExampleNotes()[1]) + ResolvedText(false) + Entry(ExampleNotes()[1])]
  {
    var threads := map["line_10" := [ExampleNotes()[1]]];
    var g := map["a.go" := threads];
    ExampleGrouping();
    assert g.Keys == {"a.go"};
    SingletonEnumeration(paths, "a.go");
    assert threads.Keys == {"line_10"};
    SingletonEnumeration(orders[0], "line_10");
    assert blocks[0] == FileBlock("a.go", threads, ["line_10"], format);
    ExampleBlock(format);
  }

  /** As the source writes it, the example's block carries the pointer text
      where the line number belongs, so it is not the intended block. */
  lemma AsWrittenExampleHidesLine(
    address: Note -> string, blocks: seq<string>, paths: seq<string>, orders: seq<seq<string>>)
    requires RendersGrouping(GroupingOf(ExampleNotes()), blocks, paths, orders, AsWritten(address))
    ensures blocks == [FileHeader("a.go") + LineTextAsWritten(address(ExampleNotes()[1]))
      + ResolvedText(false) + Entry(ExampleNotes()[1])]
    ensures blocks[0] != FileHeader("a.go") + LineText(10) + ResolvedText(false) + Entry(ExampleNotes()[1])
  {
    SingleAnchoredNoteExample(AsWritten(address), blocks, paths, orders);
    var header := FileHeader("a.go");
    var written := LineTextAsWritten(address(ExampleNotes()[1]));
    var tail := ResolvedText(false) + Entry(ExampleNotes()[1]);
    LineTextShowsLine(10, 10);
    AppendAssoc(header, written, tail);
    AppendAssoc(header, LineText(10), tail);
    assert (header + (written + tail))[|header| + 6] == '%';
    assert (header + (LineText(10) + tail))[|header| + 6] == '1';
  }

  /** With the line printed in decimal, the example's block reads "Line: 10". */
  lemma DecimalExampleShowsLine(blocks: seq<string>, paths: seq<string>, orders: seq<seq<string>>)
    requires RendersGrouping(GroupingOf(ExampleNotes()), blocks, paths, orders, Decimal)
    ensures blocks == [FileHeader("a.go") + "Line: 10\n" + ResolvedText(false) + Entry(ExampleNotes()[1])]
  {
    SingleAnchoredNoteExample(Decimal, blocks, paths, orders);
    LineTextShowsLine(10, 10);
  }

  function ExampleNotes(): seq<Note> {
    [ Note(1, "changed the description", NoteAuthor("bot"), true, "2024-01-02T08:00:00Z", false, None),
      Note(2, "Please rename this.", NoteAuthor("alice"), false, "2024-01-02T09:00:00Z", false,
           Some(Position(Some("a.go"), Some(10), None))) ]
  }
}
