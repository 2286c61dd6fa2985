/** The server's one list of breakpoints for all files, and what the client asked for file by file
    (src/server.rs, `handle_set_breakpoints`). */
module PendingBreakpoints {
  import opened Locations

  /** A `setBreakpoints` request: the path as sent ("" when the source has none), and the lines. */
  datatype Request = Request(path: string, lines: seq<int>)

  /** Rust's `as u32` on a 64-bit line number. */
  function TruncateU32(n: int): nat { n % U32_LIMIT }

  function Truncated(lines: seq<int>): seq<nat> {
    seq(|lines|, i requires 0 <= i < |lines| => TruncateU32(lines[i]))
  }

  /** The 32-bit line that stands for the line sent: the same, unless that has no 32 bits. */
  ghost predicate StandsFor(line: nat, sent: int) {
    line < 0x1_0000_0000 && (sent - line) % 0x1_0000_0000 == 0
  }

  ghost predicate StandFor(lines: seq<nat>, sent: seq<int>) {
    |lines| == |sent| && forall i :: 0 <= i < |sent| ==> StandsFor(lines[i], sent[i])
  }

  lemma TruncatedStandFor(sent: seq<int>)
    ensures StandFor(Truncated(sent), sent)
  {
    forall i | 0 <= i < |sent| ensures StandsFor(Truncated(sent)[i], sent[i]) {
      assert (sent[i] - sent[i] % 0x1_0000_0000) % 0x1_0000_0000 == 0;
    }
  }

  /** There is no other reading of the lines sent, and lines of 32 bits are taken as they are. */
  lemma StandForOnly(lines: seq<nat>, sent: seq<int>)
    requires StandFor(lines, sent)
    ensures lines == Truncated(sent)
    ensures (forall i :: 0 <= i < |sent| ==> 0 <= sent[i] < 0x1_0000_0000) ==> lines == sent
  {
    forall i | 0 <= i < |sent|
      ensures lines[i] == Truncated(sent)[i] && (0 <= sent[i] < 0x1_0000_0000 ==> lines[i] == sent[i])
    {
      assert StandsFor(lines[i], sent[i]);
    }
  }

  function NewBreakpoints(fs: FileSystem, req: Request): seq<SourceLoc> {
    seq(|req.lines|, i requires 0 <= i < |req.lines| =>
      Compared(fs, NewLoc(fs, req.path, TruncateU32(req.lines[i]))))
  }

  /** The path whose old breakpoints go. Only a request that sets some has its path canonicalised. */
  function ReplacedPath(fs: FileSystem, req: Request): Path {
    var added := NewBreakpoints(fs, req);
    if added == [] then fs.components(req.path) else added[0].path
  }

  /** Rust's `retain` for the breakpoints of all other files. */
  function WithoutPath(pending: seq<SourceLoc>, path: Path): seq<SourceLoc> {
    if pending == [] then []
    else WithoutPath(pending[..|pending| - 1], path)
         + (if pending[|pending| - 1].path == path then [] else [pending[|pending| - 1]])
  }

  function Updated(fs: FileSystem, pending: seq<SourceLoc>, req: Request): seq<SourceLoc> {
    WithoutPath(pending, ReplacedPath(fs, req)) + NewBreakpoints(fs, req)
  }

  function PendingAfter(fs: FileSystem, requests: seq<Request>): seq<SourceLoc> {
    if requests == [] then []
    else Updated(fs, PendingAfter(fs, requests[..|requests| - 1]), requests[|requests| - 1])
  }

  // ---------- The per-file reading ----------

  /** The lines the list holds for a file, in order. */
  function LinesOf(pending: seq<SourceLoc>, path: Path): seq<nat> {
    if pending == [] then []
    else LinesOf(pending[..|pending| - 1], path)
         + (if pending[|pending| - 1].path == path then [pending[|pending| - 1].line] else [])
  }

  /** The lines of the last request for a file, as sent: what the protocol says its breakpoints are. */
  function Wanted(fs: FileSystem, requests: seq<Request>, path: Path): seq<int> {
    if requests == [] then []
    else
      var last := requests[|requests| - 1];
      if FileOf(fs, last.path) == path then last.lines
      else Wanted(fs, requests[..|requests| - 1], path)
  }

  lemma {:induction false} LinesOfAppend(a: seq<SourceLoc>, b: seq<SourceLoc>, path: Path)
    ensures LinesOf(a + b, path) == LinesOf(a, path) + LinesOf(b, path)
  {
    if b == [] {
      assert a + b == a;
    } else {
      var n := |b| - 1;
      LinesOfAppend(a, b[..n], path);
      assert (a + b)[..|a + b| - 1] == a + b[..n];
    }
  }

  lemma {:induction false} LinesOfWithout(pending: seq<SourceLoc>, gone: Path, path: Path)
    ensures LinesOf(WithoutPath(pending, gone), path) == if path == gone then [] else LinesOf(pending, path)
  {
    if pending != [] {
      var n := |pending| - 1;
      var kept := if pending[n].path == gone then [] else [pending[n]];
      LinesOfWithout(pending[..n], gone, path);
      LinesOfAppend(WithoutPath(pending[..n], gone), kept, path);
      assert kept != [] ==> kept[..0] == [];
    }
  }

  lemma {:induction false} LinesOfNew(fs: FileSystem, req: Request, n: nat, path: Path)
    requires n <= |req.lines|
    ensures LinesOf(NewBreakpoints(fs, req)[..n], path) ==
            if FileOf(fs, req.path) == path then Truncated(req.lines)[..n] else []
  {
    if n > 0 {
      LinesOfNew(fs, req, n - 1, path);
      var added := NewBreakpoints(fs, req);
      assert added[..n][..n - 1] == added[..n - 1];
    }
  }

  lemma LinesOfUpdatedList(fs: FileSystem, pending: seq<SourceLoc>, req: Request, path: Path)
    ensures LinesOf(Updated(fs, pending, req), path) ==
            (if path == ReplacedPath(fs, req) then [] else LinesOf(pending, path))
            + (if FileOf(fs, req.path) == path then Truncated(req.lines) else [])
  {
    var added := NewBreakpoints(fs, req);
    LinesOfAppend(WithoutPath(pending, ReplacedPath(fs, req)), added, path);
    LinesOfWithout(pending, ReplacedPath(fs, req), path);
    LinesOfNew(fs, req, |req.lines|, path);
    assert added[..|req.lines|] == added;
    assert Truncated(req.lines)[..|req.lines|] == Truncated(req.lines);
  }

  /** The list after one request, file by file, for any request: the lines of the path replaced are gone,
      and the ones of the request, cut to 32 bits, come behind those kept for its file. */
  lemma LinesOfUpdated(fs: FileSystem, pending: seq<SourceLoc>, req: Request, path: Path)
    ensures var kept := if path == ReplacedPath(fs, req) then [] else LinesOf(pending, path);
            var lines := LinesOf(Updated(fs, pending, req), path);
            && kept <= lines
            && StandFor(lines[|kept|..], if FileOf(fs, req.path) == path then req.lines else [])
  {
    LinesOfUpdatedList(fs, pending, req, path);
    TruncatedStandFor(req.lines);
  }

  lemma SameLines(lines: seq<nat>, others: seq<nat>, sent: seq<int>)
    requires StandFor(others, sent)
    ensures StandFor(lines, sent) <==> lines == others
  {
    StandForOnly(others, sent);
    if StandFor(lines, sent) { StandForOnly(lines, sent); }
  }

  // ---------- When a request takes its effect ----------

  /** A request is applied as the protocol means it: its file gets its lines, no other file changes. */
  ghost predicate AppliedFaithfully(fs: FileSystem, pending: seq<SourceLoc>, req: Request) {
    forall path ::
      if path == FileOf(fs, req.path) then StandFor(LinesOf(Updated(fs, pending, req), path), req.lines)
      else LinesOf(Updated(fs, pending, req), path) == LinesOf(pending, path)
  }

  ghost predicate AppliedAsLists(fs: FileSystem, pending: seq<SourceLoc>, req: Request) {
    forall path :: LinesOf(Updated(fs, pending, req), path) ==
                   if path == FileOf(fs, req.path) then Truncated(req.lines) else LinesOf(pending, path)
  }

  lemma AppliedFaithfullyAsLists(fs: FileSystem, pending: seq<SourceLoc>, req: Request)
    ensures AppliedFaithfully(fs, pending, req) <==> AppliedAsLists(fs, pending, req)
  {
    TruncatedStandFor(req.lines);
    forall path
      ensures StandFor(LinesOf(Updated(fs, pending, req), path), req.lines) <==>
              LinesOf(Updated(fs, pending, req), path) == Truncated(req.lines)
    {
      SameLines(LinesOf(Updated(fs, pending, req), path), Truncated(req.lines), req.lines);
    }
  }

  lemma AppliedListsExactlyWhen(fs: FileSystem, pending: seq<SourceLoc>, req: Request)
    ensures AppliedAsLists(fs, pending, req) <==>
            || req.lines != []
            || fs.components(req.path) == FileOf(fs, req.path)
            || (LinesOf(pending, FileOf(fs, req.path)) == [] && LinesOf(pending, fs.components(req.path)) == [])
  {
    forall path ensures LinesOf(Updated(fs, pending, req), path) ==
                        (if path == ReplacedPath(fs, req) then [] else LinesOf(pending, path))
                        + (if FileOf(fs, req.path) == path then Truncated(req.lines) else [])
    {
      LinesOfUpdatedList(fs, pending, req, path);
    }
    var file, sent := FileOf(fs, req.path), fs.components(req.path);
    assert req.lines == [] ==> ReplacedPath(fs, req) == sent && Truncated(req.lines) == [];
    assert req.lines != [] ==> ReplacedPath(fs, req) == file;
    if AppliedAsLists(fs, pending, req) && req.lines == [] && sent != file {
      assert LinesOf(Updated(fs, pending, req), file) == [];
      assert LinesOf(Updated(fs, pending, req), sent) == LinesOf(pending, sent);
    }
  }

  /** A request takes the effect it should, unless it clears a file by a path that is not, component by
      component, the canonical one, and there are breakpoints under either path: those of the file stay,
      and those under the path as sent go. */
  lemma AppliedExactlyWhen(fs: FileSystem, pending: seq<SourceLoc>, req: Request)
    ensures AppliedFaithfully(fs, pending, req) <==>
            || req.lines != []
            || fs.components(req.path) == FileOf(fs, req.path)
            || (LinesOf(pending, FileOf(fs, req.path)) == [] && LinesOf(pending, fs.components(req.path)) == [])
  {
    AppliedFaithfullyAsLists(fs, pending, req);
    AppliedListsExactlyWhen(fs, pending, req);
  }

  /** It does happen: by way of a link to the file, clearing leaves its breakpoint in place. */
  lemma ClearCanMiss(fs: FileSystem)
    requires fs.canon("/link/a.move") == fs.canon("/src/a.move") == "/src/a.move"
    requires fs.components("/src/a.move") == ["/", "src", "a.move"]
    requires fs.components("/link/a.move") == ["/", "link", "a.move"]
    ensures var requests := [Request("/src/a.move", [3]), Request("/link/a.move", [])];
            && Wanted(fs, requests, ["/", "src", "a.move"]) == []
            && LinesOf(PendingAfter(fs, requests), ["/", "src", "a.move"]) == [3]
  {
    var set3, clear := Request("/src/a.move", [3]), Request("/link/a.move", []);
    var file := fs.components("/src/a.move");
    var after := PendingAfter(fs, [set3]);
    assert [set3, clear][..1] == [set3] && [set3][..0] == [];
    LinesOfUpdatedList(fs, PendingAfter(fs, []), set3, file);
    assert Truncated(set3.lines) == [3] && LinesOf(after, file) == [3];
    LinesOfUpdatedList(fs, after, clear, file);
  }

  // ---------- Paths in the list ----------

  /** Every path in the list is that of a text which canonicalisation leaves as it is. */
  ghost predicate AllCanonical(fs: FileSystem, pending: seq<SourceLoc>) {
    forall i :: 0 <= i < |pending| ==> CanonicalPath(fs, pending[i].path)
  }

  ghost predicate CanonicalPath(fs: FileSystem, path: Path) {
    exists text :: fs.canon(text) == text && fs.components(text) == path
  }

  lemma {:induction false} WithoutKeepsCanonical(fs: FileSystem, pending: seq<SourceLoc>, gone: Path)
    requires AllCanonical(fs, pending)
    ensures AllCanonical(fs, WithoutPath(pending, gone))
  {
    if pending != [] { WithoutKeepsCanonical(fs, pending[..|pending| - 1], gone); }
  }

  lemma {:induction false} PendingCanonical(fs: FileSystem, requests: seq<Request>)
    requires Idempotent(fs)
    ensures AllCanonical(fs, PendingAfter(fs, requests))
  {
    if requests != [] {
      var front, last := requests[..|requests| - 1], requests[|requests| - 1];
      PendingCanonical(fs, front);
      WithoutKeepsCanonical(fs, PendingAfter(fs, front), ReplacedPath(fs, last));
      assert fs.canon(fs.canon(last.path)) == fs.canon(last.path);
      assert CanonicalPath(fs, FileOf(fs, last.path));
    }
  }

  // ---------- Whole sessions ----------

  /** The list holds, for every file, the lines of the last request for it, cut to 32 bits. */
  ghost predicate Agrees(fs: FileSystem, requests: seq<Request>) {
    forall path :: StandFor(LinesOf(PendingAfter(fs, requests), path), Wanted(fs, requests, path))
  }

  /** The request behind `before` sets lines, or names its file by its canonical path, or clears where
      nothing is wanted. */
  ghost predicate Serves(fs: FileSystem, before: seq<Request>, req: Request) {
    || req.lines != []
    || fs.components(req.path) == FileOf(fs, req.path)
    || (Wanted(fs, before, FileOf(fs, req.path)) == [] && Wanted(fs, before, fs.components(req.path)) == [])
  }

  ghost predicate AllServe(fs: FileSystem, requests: seq<Request>) {
    forall i :: 0 <= i < |requests| ==> Serves(fs, requests[..i], requests[i])
  }

  lemma WantedSnoc(fs: FileSystem, before: seq<Request>, req: Request, path: Path)
    ensures Wanted(fs, before + [req], path) ==
            if FileOf(fs, req.path) == path then req.lines else Wanted(fs, before, path)
  {
    assert (before + [req])[..|before|] == before;
  }

  lemma PendingAfterSnoc(fs: FileSystem, before: seq<Request>, req: Request)
    ensures PendingAfter(fs, before + [req]) == Updated(fs, PendingAfter(fs, before), req)
  {
    assert (before + [req])[..|before|] == before;
  }

  lemma AgreesSnoc(fs: FileSystem, before: seq<Request>, req: Request)
    requires Agrees(fs, before)
    ensures Agrees(fs, before + [req]) <==> AppliedFaithfully(fs, PendingAfter(fs, before), req)
  {
    var pending := PendingAfter(fs, before);
    PendingAfterSnoc(fs, before, req);
    var after := PendingAfter(fs, before + [req]);
    forall path
      ensures StandFor(LinesOf(after, path), Wanted(fs, before + [req], path)) <==>
              if path == FileOf(fs, req.path) then StandFor(LinesOf(after, path), req.lines)
              else LinesOf(after, path) == LinesOf(pending, path)
    {
      WantedSnoc(fs, before, req, path);
      assert StandFor(LinesOf(pending, path), Wanted(fs, before, path));
      SameLines(LinesOf(after, path), LinesOf(pending, path), Wanted(fs, before, path));
    }
  }

  lemma AgreementStep(fs: FileSystem, before: seq<Request>, req: Request)
    requires Agrees(fs, before)
    ensures Agrees(fs, before + [req]) <==> Serves(fs, before, req)
  {
    var pending := PendingAfter(fs, before);
    AgreesSnoc(fs, before, req);
    AppliedExactlyWhen(fs, pending, req);
    assert StandFor(LinesOf(pending, FileOf(fs, req.path)), Wanted(fs, before, FileOf(fs, req.path)));
    assert StandFor(LinesOf(pending, fs.components(req.path)), Wanted(fs, before, fs.components(req.path)));
  }

  /** A text with the components of a canonical one leads to the same file. */
  ghost predicate Coherent(fs: FileSystem) {
    forall text, other :: fs.canon(other) == other && fs.components(text) == fs.components(other) ==>
      FileOf(fs, text) == fs.components(other)
  }

  /** Then nothing is ever wanted under a path that is not the canonical one, and a clear by such a path
      serves exactly where nothing is wanted for the file. */
  lemma {:induction false} NothingUnderSentPath(fs: FileSystem, requests: seq<Request>, req: Request)
    requires Idempotent(fs) && Coherent(fs) && fs.components(req.path) != FileOf(fs, req.path)
    ensures Wanted(fs, requests, fs.components(req.path)) == []
    ensures Serves(fs, requests, req) <==> req.lines != [] || Wanted(fs, requests, FileOf(fs, req.path)) == []
  {
    if requests != [] {
      var front, last := requests[..|requests| - 1], requests[|requests| - 1];
      NothingUnderSentPath(fs, front, req);
      var other := fs.canon(last.path);
      assert fs.canon(other) == other;
    }
  }

  ghost predicate AgreesThroughout(fs: FileSystem, requests: seq<Request>) {
    forall n :: 0 <= n <= |requests| ==> Agrees(fs, requests[..n])
  }

  lemma AgreesThroughoutSnoc(fs: FileSystem, before: seq<Request>, req: Request)
    ensures AgreesThroughout(fs, before + [req]) <==> AgreesThroughout(fs, before) && Agrees(fs, before + [req])
  {
    var requests := before + [req];
    assert requests[..|requests|] == requests;
    assert forall n :: 0 <= n <= |before| ==> requests[..n] == before[..n];
  }

  lemma AllServeSnoc(fs: FileSystem, before: seq<Request>, req: Request)
    ensures AllServe(fs, before + [req]) <==> AllServe(fs, before) && Serves(fs, before, req)
  {
    var requests := before + [req];
    assert requests[..|before|] == before && requests[|before|] == req;
    assert forall n :: 0 <= n < |before| ==> requests[..n] == before[..n] && requests[n] == before[n];
    if AllServe(fs, requests) {
      assert Serves(fs, requests[..|before|], requests[|before|]);
      forall i | 0 <= i < |before| ensures Serves(fs, before[..i], before[i]) {
        assert Serves(fs, requests[..i], requests[i]);
      }
    }
  }

  lemma ListRefinesMapSnoc(fs: FileSystem, before: seq<Request>, req: Request)
    requires AgreesThroughout(fs, before) <==> AllServe(fs, before)
    requires AgreesThroughout(fs, before) ==> Agrees(fs, before)
    ensures AgreesThroughout(fs, before + [req]) <==> AllServe(fs, before + [req])
    ensures AllServe(fs, before + [req]) ==> Agrees(fs, before + [req])
  {
    AgreesThroughoutSnoc(fs, before, req);
    AllServeSnoc(fs, before, req);
    if Agrees(fs, before) { AgreementStep(fs, before, req); }
  }

  /** All along a session the list holds, for each file, the lines of the last request for it, exactly if
      each request serves. */
  lemma {:induction false} ListRefinesMap(fs: FileSystem, requests: seq<Request>)
    ensures AgreesThroughout(fs, requests) <==> AllServe(fs, requests)
    ensures AllServe(fs, requests) ==> Agrees(fs, requests)
  {
    if requests == [] {
      assert Agrees(fs, []);
    } else {
      var front, last := requests[..|requests| - 1], requests[|requests| - 1];
      ListRefinesMap(fs, front);
      assert AgreesThroughout(fs, front) ==> Agrees(fs, front) by { assert front[..|front|] == front; }
      ListRefinesMapSnoc(fs, front, last);
      assert requests == front + [last];
    }
  }

  lemma LineAmong(lines: seq<nat>, sent: seq<int>, line: nat)
    requires StandFor(lines, sent)
    ensures line in lines <==> exists i :: 0 <= i < |sent| && StandsFor(line, sent[i])
    ensures (forall i :: 0 <= i < |sent| ==> 0 <= sent[i] < 0x1_0000_0000) ==> (line in lines <==> line in sent)
  {
    StandForOnly(lines, sent);
    assert forall i :: 0 <= i < |sent| ==> StandsFor(lines[i], sent[i]);
    if i :| 0 <= i < |sent| && StandsFor(line, sent[i]) {
      assert StandsFor(lines[i], sent[i]) && lines[i] == line;
    }
  }

  lemma {:induction false} LinesAreMembers(pending: seq<SourceLoc>, loc: SourceLoc)
    ensures loc in pending <==> loc.line in LinesOf(pending, loc.path)
  {
    if pending != [] {
      var n := |pending| - 1;
      LinesAreMembers(pending[..n], loc);
      assert pending == pending[..n] + [pending[n]];
    }
  }
}
