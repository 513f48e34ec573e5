/** Grouping of merge-request notes into threads: file path -> group key ->
    notes. System notes and notes without a position are dropped; every other
    note lands in exactly one thread, and a thread keeps the input order. */
module CommentGrouping {
  import opened Wrappers
  import opened Text
  import opened GitLabTypes

  type Grouping = map<string, map<string, seq<Note>>>

  /** A note that takes part in grouping: not a system event, and anchored. */
  predicate Kept(c: Note) {
    !c.system && c.position.Some?
  }

  /** The line code of the range start, or "" when any part of it is absent. */
  function LineCode(p: Position): string {
    if p.lineRange.Some? && p.lineRange.value.start.Some? then p.lineRange.value.start.value.lineCode else ""
  }

  /** The file a note belongs to: its new path, or "Unknown". */
  function NotePath(c: Note): string
    requires Kept(c)
  {
    match c.position.value.newPath
    case Some(path) => path
    case None => "Unknown"
  }

  /** The thread key within the file: a non-empty line code first, then the
      new-side line number as "line_<N>", then "general". */
  function GroupKey(p: Position): string {
    if LineCode(p) != "" then LineCode(p)
    else if p.newLine.Some? then "line_" + IntToString(p.newLine.value)
    else "general"
  }

  function NoteKey(c: Note): string
    requires Kept(c)
  {
    GroupKey(c.position.value)
  }

  predicate InThread(c: Note, path: string, key: string) {
    Kept(c) && NotePath(c) == path && NoteKey(c) == key
  }

  /** The thread (path, key) of `s`: its notes in input order. */
  function Thread(s: seq<Note>, path: string, key: string): seq<Note> {
    if s == [] then []
    else
      var last := s[|s| - 1];
      Thread(s[..|s| - 1], path, key) + (if InThread(last, path, key) then [last] else [])
  }

  /** The keys of the non-empty threads of file `path`. */
  function KeysOf(s: seq<Note>, path: string): set<string> {
    if s == [] then {}
    else
      var last := s[|s| - 1];
      KeysOf(s[..|s| - 1], path) + (if Kept(last) && NotePath(last) == path then {NoteKey(last)} else {})
  }

  /** The files that have at least one thread. */
  function PathsOf(s: seq<Note>): set<string> {
    if s == [] then {}
    else
      var last := s[|s| - 1];
      PathsOf(s[..|s| - 1]) + (if Kept(last) then {NotePath(last)} else {})
  }

  /** The grouping as a value: every file with a thread, every non-empty thread. */
  function GroupingOf(s: seq<Note>): Grouping {
    map path | path in PathsOf(s) :: FileThreads(s, path)
  }

  /** The threads of one file, by key. */
  function FileThreads(s: seq<Note>, path: string): map<string, seq<Note>> {
    map key | key in KeysOf(s, path) :: Thread(s, path, key)
  }

  /** Adding one more kept note to a grouping: create the file's map and the
      thread on first use, then append. */
  function AddNote(g: Grouping, path: string, key: string, c: Note): Grouping {
    var threads := if path in g then g[path] else map[];
    var thread := if key in threads then threads[key] else [];
    g[path := threads[key := thread + [c]]]
  }

  lemma ThreadSnoc(s: seq<Note>, c: Note, path: string, key: string)
    ensures Thread(s + [c], path, key) == Thread(s, path, key) + (if InThread(c, path, key) then [c] else [])
  {
    var t := s + [c];
    assert t[..|t| - 1] == s;
  }

  lemma KeysOfSnoc(s: seq<Note>, c: Note, path: string)
    ensures KeysOf(s + [c], path) == KeysOf(s, path) + (if Kept(c) && NotePath(c) == path then {NoteKey(c)} else {})
  {
    var t := s + [c];
    assert t[..|t| - 1] == s;
  }

  lemma PathsOfSnoc(s: seq<Note>, c: Note)
    ensures PathsOf(s + [c]) == PathsOf(s) + (if Kept(c) then {NotePath(c)} else {})
  {
    var t := s + [c];
    assert t[..|t| - 1] == s;
  }

  /** A thread holds exactly the input's notes that belong to it. */
  lemma {:induction false} ThreadMembers(s: seq<Note>, path: string, key: string, c: Note)
    ensures c in Thread(s, path, key) <==> c in s && InThread(c, path, key)
    decreases |s|
  {
    if s != [] {
      var prefix, last := s[..|s| - 1], s[|s| - 1];
      assert s == prefix + [last];
      ThreadMembers(prefix, path, key, c);
      ThreadSnoc(prefix, last, path, key);
    }
  }

  /** A key is listed for a file exactly when its thread is non-empty. */
  lemma {:induction false} KeysOfNonEmpty(s: seq<Note>, path: string, key: string)
    ensures key in KeysOf(s, path) <==> Thread(s, path, key) != []
    decreases |s|
  {
    if s != [] {
      var prefix, last := s[..|s| - 1], s[|s| - 1];
      assert s == prefix + [last];
      KeysOfNonEmpty(prefix, path, key);
      ThreadSnoc(prefix, last, path, key);
      KeysOfSnoc(prefix, last, path);
    }
  }

  /** A file is listed exactly when it has a thread. */
  lemma {:induction false} PathsOfNonEmpty(s: seq<Note>, path: string)
    ensures path in PathsOf(s) <==> KeysOf(s, path) != {}
    decreases |s|
  {
    if s != [] {
      var prefix, last := s[..|s| - 1], s[|s| - 1];
      assert s == prefix + [last];
      PathsOfNonEmpty(prefix, path);
      KeysOfSnoc(prefix, last, path);
      PathsOfSnoc(prefix, last);
    }
  }

  /** A file's threads are untouched by a note that is not in that file. */
  lemma OtherFileUnchanged(s: seq<Note>, c: Note, path: string)
    requires !(Kept(c) && NotePath(c) == path)
    ensures FileThreads(s + [c], path) == FileThreads(s, path)
  {
    KeysOfSnoc(s, c, path);
    forall key ensures Thread(s + [c], path, key) == Thread(s, path, key) {
      ThreadSnoc(s, c, path, key);
    }
  }

  /** The note's own file gains the note at the end of its own thread. */
  lemma OwnFileExtended(s: seq<Note>, c: Note)
    requires Kept(c)
    ensures var path, key := NotePath(c), NoteKey(c);
      var threads := if path in GroupingOf(s) then GroupingOf(s)[path] else map[];
      var thread := if key in threads then threads[key] else [];
      FileThreads(s + [c], path) == threads[key := thread + [c]]
  {
    var path, key := NotePath(c), NoteKey(c);
    var g := GroupingOf(s);
    var threads := if path in g then g[path] else map[];
    var thread := if key in threads then threads[key] else [];
    var m := FileThreads(s + [c], path);
    KeysOfSnoc(s, c, path);
    PathsOfNonEmpty(s, path);
    KeysOfNonEmpty(s, path, key);
    assert threads.Keys == KeysOf(s, path);
    assert thread == Thread(s, path, key);
    assert m.Keys == threads[key := thread + [c]].Keys;
    forall k | k in m ensures m[k] == threads[key := thread + [c]][k] {
      ThreadSnoc(s, c, path, k);
    }
  }

  lemma GroupingOfSnoc(s: seq<Note>, c: Note)
    ensures !Kept(c) ==> GroupingOf(s + [c]) == GroupingOf(s)
    ensures Kept(c) ==> GroupingOf(s + [c]) == AddNote(GroupingOf(s), NotePath(c), NoteKey(c), c)
  {
    var t := s + [c];
    var g, h := GroupingOf(s), GroupingOf(t);
    PathsOfSnoc(s, c);
    if Kept(c) {
      var h' := AddNote(g, NotePath(c), NoteKey(c), c);
      assert h.Keys == h'.Keys;
      forall path | path in h ensures h[path] == h'[path] {
        if path == NotePath(c) {
          OwnFileExtended(s, c);
        } else {
          OtherFileUnchanged(s, c, path);
        }
      }
    } else {
      forall path | path in h ensures h[path] == g[path] {
        OtherFileUnchanged(s, c, path);
      }
    }
  }

  /** The source's loop: one pass over the notes, updating the two-level map. */
  method GetGroupedCommentThreads(comments: seq<Note>) returns (grouped: Grouping)
    ensures grouped == GroupingOf(comments)
  {
    grouped := map[];
    for i := 0 to |comments|
      invariant grouped == GroupingOf(comments[..i])
    {
      var comment := comments[i];
      assert comments[..i + 1] == comments[..i] + [comment];
      GroupingOfSnoc(comments[..i], comment);
      if comment.system {
        continue;
      }
      if comment.position.None? {
        continue;
      }
      var path, lineCode := ThreadOf(comment.position.value);
      assert path == NotePath(comment) && lineCode == NoteKey(comment);
      grouped := AppendToThread(grouped, path, lineCode, comment);
    }
    assert comments[..|comments|] == comments;
  }

  /** The loop body's choice of file and thread key for a positioned note. */
  method ThreadOf(position: Position) returns (path: string, lineCode: string)
    ensures path == (if position.newPath.Some? then position.newPath.value else "Unknown")
    ensures lineCode == GroupKey(position)
  {
    path := "Unknown";
    if position.newPath.Some? {
      path := position.newPath.value;
    }

    lineCode := "general";
    if position.lineRange.Some? && position.lineRange.value.start.Some?
      && position.lineRange.value.start.value.lineCode != ""
    {
      lineCode := position.lineRange.value.start.value.lineCode;
    } else if position.newLine.Some? {
      lineCode := "line_" + IntToString(position.newLine.value);
    }
  }

  /** The loop body's map update: create the file's entry if needed, then
      append to the thread. */
  method AppendToThread(grouped0: Grouping, path: string, lineCode: string, comment: Note) returns (grouped: Grouping)
    ensures grouped == AddNote(grouped0, path, lineCode, comment)
  {
    grouped := grouped0;
    if path !in grouped {
      grouped := grouped[path := map[]];
    }
    var threads := grouped[path];
    var thread := if lineCode in threads then threads[lineCode] else [];
    grouped := grouped[path := threads[lineCode := thread + [comment]]];
  }

  // ---------------------------------------------------------------------------
  // Properties of the grouping

  /** A dropped note is in no thread; a kept note is in its own thread and in
      no other. */
  lemma EachNoteInExactlyOneThread(s: seq<Note>, c: Note)
    requires c in s
    ensures Kept(c) ==>
      NotePath(c) in GroupingOf(s) && NoteKey(c) in GroupingOf(s)[NotePath(c)]
      && c in GroupingOf(s)[NotePath(c)][NoteKey(c)]
    ensures forall path, key :: path in GroupingOf(s) && key in GroupingOf(s)[path] && c in GroupingOf(s)[path][key] ==>
      Kept(c) && path == NotePath(c) && key == NoteKey(c)
  {
    var g := GroupingOf(s);
    if Kept(c) {
      ThreadMembers(s, NotePath(c), NoteKey(c), c);
      KeysOfNonEmpty(s, NotePath(c), NoteKey(c));
      PathsOfNonEmpty(s, NotePath(c));
    }
    forall path, key | path in g && key in g[path] && c in g[path][key]
      ensures Kept(c) && path == NotePath(c) && key == NoteKey(c)
    {
      ThreadMembers(s, path, key, c);
    }
  }

  /** Every thread of the grouping holds at least one note. */
  lemma ThreadsAreNonEmpty(s: seq<Note>)
    ensures forall path, key :: path in GroupingOf(s) && key in GroupingOf(s)[path] ==> |GroupingOf(s)[path][key]| > 0
  {
    var g := GroupingOf(s);
    forall path, key | path in g && key in g[path] ensures |g[path][key]| > 0 {
      KeysOfNonEmpty(s, path, key);
    }
  }

  /** Threads of a concatenation are the concatenated threads: a note that
      comes earlier in the input (or on an earlier page) comes earlier in its
      thread. */
  lemma {:induction false} ThreadOfConcat(a: seq<Note>, b: seq<Note>, path: string, key: string)
    ensures Thread(a + b, path, key) == Thread(a, path, key) + Thread(b, path, key)
    decreases |b|
  {
    if b == [] {
      assert a + b == a;
    } else {
      var b', last := b[..|b| - 1], b[|b| - 1];
      assert a + b == (a + b') + [last];
      assert b == b' + [last];
      ThreadOfConcat(a, b', path, key);
      ThreadSnoc(a + b', last, path, key);
      ThreadSnoc(b', last, path, key);
    }
  }

  /** Notes that share a non-empty line code share a key, whatever their line
      numbers. */
  lemma LineCodeTakesPrecedence(p: Position, q: Position)
    requires LineCode(p) != "" && LineCode(p) == LineCode(q)
    ensures GroupKey(p) == GroupKey(q) == LineCode(p)
  {
  }

  /** Without line codes, different line numbers give different keys. */
  lemma DistinctLinesDistinctKeys(p: Position, q: Position)
    requires LineCode(p) == "" && LineCode(q) == ""
    requires p.newLine.Some? && q.newLine.Some? && p.newLine.value != q.newLine.value
    ensures GroupKey(p) != GroupKey(q)
  {
    var kp, kq := GroupKey(p), GroupKey(q);
    if kp == kq {
      assert kp[5..] == IntToString(p.newLine.value);
      assert kq[5..] == IntToString(q.newLine.value);
      IntToStringInjective(p.newLine.value, q.newLine.value);
    }
  }

  /** An anchored note with neither line code nor line number is filed under
      "general". */
  lemma UnanchoredLineIsGeneral(p: Position)
    requires LineCode(p) == "" && p.newLine.None?
    ensures GroupKey(p) == "general"
  {
  }

  // ---------------------------------------------------------------------------
  // Thread sizes add up to the number of kept notes

  predicate Distinct<T(==)>(xs: seq<T>) {
    forall i, j :: 0 <= i < j < |xs| ==> xs[i] != xs[j]
  }

  function KeptCount(s: seq<Note>): nat {
    if s == [] then 0 else KeptCount(s[..|s| - 1]) + (if Kept(s[|s| - 1]) then 1 else 0)
  }

  /** Sum of the sizes of the threads named by `ids`. */
  function SizeSum(s: seq<Note>, ids: seq<(string, string)>): nat {
    if ids == [] then 0 else |Thread(s, ids[0].0, ids[0].1)| + SizeSum(s, ids[1..])
  }

  /** How many of `ids` name the thread of `c`. */
  function Hits(c: Note, ids: seq<(string, string)>): nat {
    if ids == [] then 0 else (if InThread(c, ids[0].0, ids[0].1) then 1 else 0) + Hits(c, ids[1..])
  }

  lemma {:induction false} HitsOnce(c: Note, ids: seq<(string, string)>)
    requires Distinct(ids)
    ensures !Kept(c) ==> Hits(c, ids) == 0
    ensures Kept(c) && (NotePath(c), NoteKey(c)) in ids ==> Hits(c, ids) == 1
    ensures Kept(c) && (NotePath(c), NoteKey(c)) !in ids ==> Hits(c, ids) == 0
  {
    if ids != [] {
      assert Distinct(ids[1..]) by {
        forall i, j | 0 <= i < j < |ids[1..]| ensures ids[1..][i] != ids[1..][j] {
          assert ids[1..][i] == ids[i + 1] && ids[1..][j] == ids[j + 1];
        }
      }
      HitsOnce(c, ids[1..]);
      if Kept(c) && ids[0] == (NotePath(c), NoteKey(c)) {
        assert (NotePath(c), NoteKey(c)) !in ids[1..] by {
          forall i | 0 <= i < |ids[1..]| ensures ids[1..][i] != ids[0] {
            assert ids[1..][i] == ids[i + 1];
          }
        }
      }
    }
  }

  lemma {:induction false} SizeSumSnoc(s: seq<Note>, c: Note, ids: seq<(string, string)>)
    ensures SizeSum(s + [c], ids) == SizeSum(s, ids) + Hits(c, ids)
  {
    var t := s + [c];
    assert t[..|t| - 1] == s;
    if ids != [] {
      SizeSumSnoc(s, c, ids[1..]);
    }
  }

  /** For any duplicate-free list of thread ids that covers every kept note,
      the thread sizes add up to the number of kept notes: no note is lost or
      counted twice. */
  lemma {:induction false} ThreadSizesSumToKept(s: seq<Note>, ids: seq<(string, string)>)
    requires Distinct(ids)
    requires forall c :: c in s && Kept(c) ==> (NotePath(c), NoteKey(c)) in ids
    ensures SizeSum(s, ids) == KeptCount(s)
    decreases |s|
  {
    if s == [] {
      ZeroSizes(ids);
    } else {
      var prefix, last := s[..|s| - 1], s[|s| - 1];
      assert s == prefix + [last];
      ThreadSizesSumToKept(prefix, ids);
      SizeSumSnoc(prefix, last, ids);
      HitsOnce(last, ids);
    }
  }

  lemma {:induction false} ZeroSizes(ids: seq<(string, string)>)
    ensures SizeSum([], ids) == 0
  {
    if ids != [] {
      ZeroSizes(ids[1..]);
    }
  }

  /** The same count read off the grouping itself: list its threads once each
      and their sizes sum to the number of kept notes. */
  lemma GroupingSizesSumToKept(s: seq<Note>, ids: seq<(string, string)>)
    requires Distinct(ids)
    requires forall path, key :: path in GroupingOf(s) && key in GroupingOf(s)[path] ==> (path, key) in ids
    ensures SizeSum(s, ids) == KeptCount(s)
  {
    forall c | c in s && Kept(c) ensures (NotePath(c), NoteKey(c)) in ids {
      EachNoteInExactlyOneThread(s, c);
    }
    ThreadSizesSumToKept(s, ids);
  }
}
