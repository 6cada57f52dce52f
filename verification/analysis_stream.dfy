/** The streaming analysis client: one POST whose response body is read chunk by chunk,
    framed on blank lines, and whose `data:` frames carry JSON progress events until a
    `complete` event arrives. Chunks are already-decoded text; `JSON.parse` is the opaque
    partial function `parse` (None when it throws). */
module AnalysisStream {
  import opened Wrappers
  import opened JsText
  import opened JsValues

  const Separator: string := "\n\n"
  const DataPrefix: string := "data:"
  const EndpointPath: string := "/comps/analyze-selected-stream"
  const DefaultFailureMessage: string := "Analysis request failed"

  type Parser = string -> Option<Value>

  // ---------------------------------------------------------------------------
  // request

  datatype Request = Request(
    url: string,
    httpMethod: string,
    headers: map<string, string>,
    includeCredentials: bool,
    body: Value)

  /** The single POST: JSON content type always, a bearer header only for a truthy token. */
  function BuildRequest(baseUrl: string, token: Value, body: Value): (r: Request)
    ensures r.url == baseUrl + EndpointPath && r.httpMethod == "POST" && r.includeCredentials
    ensures "Content-Type" in r.headers && r.headers["Content-Type"] == "application/json"
    ensures "Authorization" in r.headers <==> Truthy(token)
    ensures Truthy(token) ==> r.headers["Authorization"] == "Bearer " + ToJsString(token)
    ensures r.headers.Keys <= {"Content-Type", "Authorization"}
    ensures r.body == body
  {
    var base := map["Content-Type" := "application/json"];
    var headers := if Truthy(token) then base["Authorization" := "Bearer " + ToJsString(token)] else base;
    Request(baseUrl + EndpointPath, "POST", headers, true, body)
  }

  // ---------------------------------------------------------------------------
  // frames

  /** What one blank-line-delimited piece of the stream amounts to. */
  datatype Frame = Skipped | Progress(ev: Value) | Complete(ev: Value)

  predicate IsComplete(ev: Value) {
    Prop(ev, "type") == Str("complete")
  }

  /** A piece counts only if it starts with `data:`; the rest, trimmed, is parsed. A parse
      failure, and a `null` payload (reading `.type` of null throws), drop the piece. */
  function ReadFrame(piece: string, parse: Parser): (f: Frame)
    ensures !StartsWith(piece, DataPrefix) ==> f == Skipped
    ensures f != Skipped ==> StartsWith(piece, DataPrefix) && parse(Trim(piece[|DataPrefix|..])) == Some(f.ev) && f.ev != Null
    ensures (StartsWith(piece, DataPrefix) && parse(Trim(piece[|DataPrefix|..])).Some?
             && parse(Trim(piece[|DataPrefix|..])).value != Null) ==> f != Skipped
    ensures f.Progress? ==> !IsComplete(f.ev)
    ensures f.Complete? ==> IsComplete(f.ev)
  {
    if !StartsWith(piece, DataPrefix) then Skipped
    else
      match parse(Trim(piece[|DataPrefix|..]))
      case None => Skipped
      case Some(ev) =>
        if ev == Null then Skipped
        else if IsComplete(ev) then Complete(ev)
        else Progress(ev)
  }

  function FramesOf(pieces: seq<string>, parse: Parser): (fs: seq<Frame>)
    ensures |fs| == |pieces|
    ensures forall i :: 0 <= i < |pieces| ==> fs[i] == ReadFrame(pieces[i], parse)
  {
    seq(|pieces|, i requires 0 <= i < |pieces| => ReadFrame(pieces[i], parse))
  }

  lemma FramesOfAppend(a: seq<string>, b: seq<string>, parse: Parser)
    ensures FramesOf(a + b, parse) == FramesOf(a, parse) + FramesOf(b, parse)
  {
  }

  /** The progress events handed to `onProgress`: every progress frame, in order, up to the
      first complete frame. */
  function ProgressBefore(fs: seq<Frame>): (r: seq<Value>)
    ensures |r| <= |fs|
  {
    if fs == [] then []
    else
      match fs[0]
      case Skipped => ProgressBefore(fs[1..])
      case Complete(_) => []
      case Progress(ev) => [ev] + ProgressBefore(fs[1..])
  }

  /** The first complete frame's event, if any. */
  function FirstComplete(fs: seq<Frame>): Option<Value> {
    if fs == [] then None
    else if fs[0].Complete? then Some(fs[0].ev)
    else FirstComplete(fs[1..])
  }

  /** Every delivered event is the payload of a progress frame. */
  lemma {:induction false} ProgressComesFromFrames(fs: seq<Frame>, v: Value)
    requires v in ProgressBefore(fs)
    ensures Progress(v) in fs
  {
    if fs != [] {
      assert fs[0] in fs;
      if fs[0] != Progress(v) {
        ProgressComesFromFrames(fs[1..], v);
        assert Progress(v) in fs[1..];
      }
    }
  }

  predicate AppendLaw(a: seq<Frame>, b: seq<Frame>) {
    && FirstComplete(a + b) == (if FirstComplete(a).Some? then FirstComplete(a) else FirstComplete(b))
    && ProgressBefore(a + b) == (if FirstComplete(a).Some? then ProgressBefore(a) else ProgressBefore(a) + ProgressBefore(b))
  }

  /** How both scans unfold on a non-empty list. */
  lemma ScanCons(fs: seq<Frame>)
    requires fs != []
    ensures FirstComplete(fs) == (if fs[0].Complete? then Some(fs[0].ev) else FirstComplete(fs[1..]))
    ensures ProgressBefore(fs) == (match fs[0]
                                   case Skipped => ProgressBefore(fs[1..])
                                   case Complete(_) => []
                                   case Progress(ev) => [ev] + ProgressBefore(fs[1..]))
  {
  }

  lemma AppendLawComplete(a: seq<Frame>, b: seq<Frame>)
    requires a != [] && a[0].Complete?
    ensures AppendLaw(a, b)
  {
    var ab := a + b;
    assert ab[0] == a[0];
    ScanCons(a);
    ScanCons(ab);
  }

  lemma AppendLawSkipped(a: seq<Frame>, b: seq<Frame>)
    requires a != [] && a[0].Skipped? && AppendLaw(a[1..], b)
    ensures AppendLaw(a, b)
  {
    var ab, a1 := a + b, a[1..];
    assert ab[0] == a[0];
    assert ab[1..] == a1 + b;
    ScanCons(a);
    ScanCons(ab);
  }

  lemma AppendLawProgress(a: seq<Frame>, b: seq<Frame>)
    requires a != [] && a[0].Progress? && AppendLaw(a[1..], b)
    ensures AppendLaw(a, b)
  {
    var ab, a1, ev := a + b, a[1..], a[0].ev;
    assert ab[0] == a[0];
    assert ab[1..] == a1 + b;
    ScanCons(a);
    ScanCons(ab);
    assert FirstComplete(a) == FirstComplete(a1);
    assert FirstComplete(ab) == FirstComplete(a1 + b);
    assert ProgressBefore(a) == [ev] + ProgressBefore(a1);
    assert ProgressBefore(ab) == [ev] + ProgressBefore(a1 + b);
    if FirstComplete(a1).None? {
      var p1, pb := ProgressBefore(a1), ProgressBefore(b);
      assert ProgressBefore(a1 + b) == p1 + pb;
      assert [ev] + (p1 + pb) == ([ev] + p1) + pb;
    }
  }

  lemma AppendLawCons(a: seq<Frame>, b: seq<Frame>)
    requires a != [] && AppendLaw(a[1..], b)
    ensures AppendLaw(a, b)
  {
    match a[0] {
      case Complete(_) => AppendLawComplete(a, b);
      case Skipped => AppendLawSkipped(a, b);
      case Progress(_) => AppendLawProgress(a, b);
    }
  }

  /** Scanning `a + b` scans `a`; only if `a` holds no complete frame does `b` matter. */
  lemma {:induction false} ProgressBeforeAppend(a: seq<Frame>, b: seq<Frame>)
    ensures FirstComplete(a + b) == (if FirstComplete(a).Some? then FirstComplete(a) else FirstComplete(b))
    ensures ProgressBefore(a + b) == (if FirstComplete(a).Some? then ProgressBefore(a) else ProgressBefore(a) + ProgressBefore(b))
  {
    if a == [] {
      assert a + b == b;
    } else {
      ProgressBeforeAppend(a[1..], b);
      AppendLawCons(a, b);
    }
  }

  /** A dropped piece leaves no trace: removing it changes neither the events delivered nor
      the completion found. */
  lemma DroppedPieceIsInvisible(a: seq<string>, p: string, b: seq<string>, parse: Parser)
    requires ReadFrame(p, parse) == Skipped
    ensures ProgressBefore(FramesOf(a + [p] + b, parse)) == ProgressBefore(FramesOf(a + b, parse))
    ensures FirstComplete(FramesOf(a + [p] + b, parse)) == FirstComplete(FramesOf(a + b, parse))
  {
    var fa, fb := FramesOf(a, parse), FramesOf(b, parse);
    var sb := [Skipped] + fb;
    assert FramesOf(a + [p] + b, parse) == fa + sb;
    assert FramesOf(a + b, parse) == fa + fb;
    assert sb[0] == Skipped && sb[1..] == fb;
    assert ProgressBefore(sb) == ProgressBefore(fb);
    assert FirstComplete(sb) == FirstComplete(fb);
    ProgressBeforeAppend(fa, sb);
    ProgressBeforeAppend(fa, fb);
  }

  // ---------------------------------------------------------------------------
  // the framer: buffer += chunk; pieces = buffer.split("\n\n"); buffer = pieces.pop()

  function Concat(cs: seq<string>): string
    decreases |cs|
  {
    if cs == [] then "" else Concat(Init(cs)) + Last(cs)
  }

  lemma {:induction false} ConcatAppend(a: seq<string>, b: seq<string>)
    ensures Concat(a + b) == Concat(a) + Concat(b)
    decreases |b|
  {
    if b == [] {
      assert a + b == a;
    } else {
      assert Init(a + b) == a + Init(b);
      assert Last(a + b) == Last(b);
      ConcatAppend(a, Init(b));
    }
  }

  lemma ConcatPrefix(cs: seq<string>, i: nat)
    requires i < |cs|
    ensures Concat(cs[..i + 1]) == Concat(cs[..i]) + cs[i]
  {
    assert Init(cs[..i + 1]) == cs[..i];
  }

  /** The state the framer keeps between chunks: the pieces cut so far and the unfinished tail. */
  datatype Framer = Framer(pieces: seq<string>, buffer: string)

  /** One chunk: append, split, keep the last piece as the new buffer. */
  function Feed(f: Framer, chunk: string): (r: Framer)
    ensures |r.pieces| >= |f.pieces| && r.pieces[..|f.pieces|] == f.pieces
  {
    var ps := Split(f.buffer + chunk, Separator);
    var r := Framer(f.pieces + Init(ps), Last(ps));
    assert r.pieces[..|f.pieces|] == f.pieces;
    r
  }

  /** The new buffer holds no separator, and the new pieces and the buffer, joined by the
      separator, are exactly the old buffer followed by the chunk. */
  lemma FeedCutsAtSeparators(f: Framer, chunk: string)
    ensures var r := Feed(f, chunk);
      && !Contains(r.buffer, Separator)
      && (forall k :: |f.pieces| <= k < |r.pieces| ==> !Contains(r.pieces[k], Separator))
      && Join(r.pieces[|f.pieces|..] + [r.buffer], Separator) == f.buffer + chunk
  {
    var ps := Split(f.buffer + chunk, Separator);
    SplitPiecesAreFree(f.buffer + chunk, Separator);
    SplitJoin(f.buffer + chunk, Separator);
    var r := Feed(f, chunk);
    assert Init(ps) + [Last(ps)] == ps;
    assert r.pieces[|f.pieces|..] == Init(ps);
    assert forall k :: |f.pieces| <= k < |r.pieces| ==> r.pieces[k] == ps[k - |f.pieces|];
  }

  function FeedAll(f: Framer, chunks: seq<string>): (r: Framer)
    ensures |r.pieces| >= |f.pieces| && r.pieces[..|f.pieces|] == f.pieces
    ensures chunks == [] ==> r == f
    decreases |chunks|
  {
    if chunks == [] then f else FeedAll(Feed(f, chunks[0]), chunks[1..])
  }

  predicate FeedsLikeSplit(f: Framer, chunks: seq<string>) {
    && FeedAll(f, chunks).pieces == f.pieces + Init(Split(f.buffer + Concat(chunks), Separator))
    && FeedAll(f, chunks).buffer == Last(Split(f.buffer + Concat(chunks), Separator))
  }

  lemma ConcatHead(cs: seq<string>)
    requires cs != []
    ensures Concat(cs) == cs[0] + Concat(cs[1..])
  {
    var a, b := [cs[0]], cs[1..];
    assert a + b == cs;
    assert Init(a) == [];
    ConcatAppend(a, b);
  }

  /** `SplitAppend` read as a statement about the framer's pieces and tail. */
  lemma SplitThrough(s: string, rest: string)
    ensures Init(Split(s + rest, Separator))
      == Init(Split(s, Separator)) + Init(Split(Last(Split(s, Separator)) + rest, Separator))
    ensures Last(Split(s + rest, Separator)) == Last(Split(Last(Split(s, Separator)) + rest, Separator))
  {
    SplitAppend(s, rest, Separator);
    var ps := Split(s, Separator);
    var tail := Split(Last(ps) + rest, Separator);
    assert Init(Init(ps) + tail) == Init(ps) + Init(tail);
    assert Last(Init(ps) + tail) == Last(tail);
  }

  /** Feeding the first chunk, then the rest, agrees with one split of all of them, given that
      it does for the rest. */
  lemma FeedStep(f: Framer, chunks: seq<string>)
    requires chunks != [] && FeedsLikeSplit(Feed(f, chunks[0]), chunks[1..])
    ensures FeedsLikeSplit(f, chunks)
  {
    var c := chunks[0];
    var rest := Concat(chunks[1..]);
    var ps := Split(f.buffer + c, Separator);
    var g := Feed(f, c);
    assert g.pieces == f.pieces + Init(ps) && g.buffer == Last(ps);
    assert FeedAll(f, chunks) == FeedAll(g, chunks[1..]);
    var whole := f.buffer + Concat(chunks);
    WholeAfterFirstChunk(f.buffer, chunks);
    SplitThrough(f.buffer + c, rest);
    PiecesCompose(f.pieces, Init(ps), Init(Split(Last(ps) + rest, Separator)), Init(Split(whole, Separator)));
  }

  lemma WholeAfterFirstChunk(buffer: string, chunks: seq<string>)
    requires chunks != []
    ensures buffer + Concat(chunks) == (buffer + chunks[0]) + Concat(chunks[1..])
  {
    ConcatHead(chunks);
  }

  lemma PiecesCompose(a: seq<string>, p: seq<string>, later: seq<string>, all: seq<string>)
    requires all == p + later
    ensures (a + p) + later == a + all
  {
  }

  lemma UnsplitWithoutSeparator(s: string)
    requires !Contains(s, Separator)
    ensures Split(s, Separator) == [s]
  {
    var r := Split(s, Separator);
    SplitJoin(s, Separator);
    if |r| > 1 {
      assert r == [r[0]] + r[1..];
      JoinCons(r[0], r[1..], Separator);
      assert OccursAt(s, Separator, |r[0]|);
    }
  }

  /** Feeding chunks one at a time cuts exactly the pieces that splitting the buffer and all
      the chunks at once would cut, and leaves the same tail. */
  lemma {:induction false} FeedAllSplits(f: Framer, chunks: seq<string>)
    requires !Contains(f.buffer, Separator)
    ensures FeedAll(f, chunks).pieces == f.pieces + Init(Split(f.buffer + Concat(chunks), Separator))
    ensures FeedAll(f, chunks).buffer == Last(Split(f.buffer + Concat(chunks), Separator))
    decreases |chunks|
  {
    if chunks == [] {
      assert f.buffer + Concat(chunks) == f.buffer;
      UnsplitWithoutSeparator(f.buffer);
      assert f.pieces + [] == f.pieces;
    } else {
      FeedCutsAtSeparators(f, chunks[0]);
      FeedAllSplits(Feed(f, chunks[0]), chunks[1..]);
      FeedStep(f, chunks);
    }
  }

  /** Chunk-boundary independence: any two ways of cutting the same text yield the same pieces
      and the same tail. */
  lemma ChunkingIsInvisible(cs1: seq<string>, cs2: seq<string>)
    requires Concat(cs1) == Concat(cs2)
    ensures FeedAll(Framer([], ""), cs1) == FeedAll(Framer([], ""), cs2)
  {
    assert !OccursAt("", Separator, 0);
    FeedAllSplits(Framer([], ""), cs1);
    FeedAllSplits(Framer([], ""), cs2);
  }

  // ---------------------------------------------------------------------------
  // the whole call

  datatype StreamEnd = Done | ReadFailed

  /** What the server sent: a failed fetch, or a status line, the body text (read as JSON only
      on a non-OK status) and the body as decoded chunks ending in `Done` or a read failure. */
  datatype Reply =
    | FetchFailed
    | Reply(status: int, statusText: string, bodyText: string, chunks: seq<string>, end: StreamEnd)

  datatype StreamError =
    | NetworkError
    | HttpError(status: int, message: string, data: Option<Value>)
    | ReadError

  datatype Outcome = Resolved(value: Value) | Rejected(error: StreamError)

  /** What the caller observes: the `onProgress` calls in order, every `resolve`/`reject`
      call in order (the promise takes the first), and whether the reader was cancelled. */
  datatype Observed = Observed(progress: seq<Value>, settles: seq<Outcome>, cancelled: bool)

  datatype Run = Run(observed: Observed, chunksRead: nat)

  predicate IsOk(status: int) { 200 <= status <= 299 }

  /** The settled value of the promise: a promise keeps its first resolution. */
  function PromiseValue(o: Observed): Outcome
    requires |o.settles| >= 1
  {
    o.settles[0]
  }

  /** End of stream: a non-blank leftover gets one parse as bare JSON (no `data:` stripping);
      a complete event there both resolves and is reported, then `resolve(null)` follows. */
  function Finish(buffer: string, end: StreamEnd, parse: Parser): (o: Observed)
    ensures 1 <= |o.settles| <= 2 && !o.cancelled && |o.progress| <= 1
    ensures end == ReadFailed ==> o == Observed([], [Rejected(ReadError)], false)
    ensures end == Done ==> o.settles[|o.settles| - 1] == Resolved(Null)
    ensures end == Done && Trim(buffer) == [] ==> o.progress == [] && o.settles == [Resolved(Null)]
    ensures |o.settles| == 2 <==> end == Done && Trim(buffer) != [] && parse(Trim(buffer)).Some?
                                   && IsComplete(parse(Trim(buffer)).value)
    ensures |o.settles| == 2 ==>
      (o.settles[0] == Resolved(parse(Trim(buffer)).value) && o.progress == [parse(Trim(buffer)).value])
  {
    match end
    case ReadFailed => Observed([], [Rejected(ReadError)], false)
    case Done =>
      var t := Trim(buffer);
      if t == [] then Observed([], [Resolved(Null)], false)
      else
        match parse(t)
        case None => Observed([], [Resolved(Null)], false)
        case Some(ev) =>
          if ev == Null then Observed([], [Resolved(Null)], false)
          else if IsComplete(ev) then Observed([ev], [Resolved(ev), Resolved(Null)], false)
          else Observed([ev], [Resolved(Null)], false)
  }

  /** The reference behaviour, stated on the whole body text at once: the frames before the
      first complete one are reported; the complete one (if any) resolves and cancels;
      otherwise the tail after the last blank line gets the end-of-stream treatment. */
  function WholeText(text: string, end: StreamEnd, parse: Parser): (o: Observed)
    ensures |o.settles| >= 1
  {
    var ps := Split(text, Separator);
    var fs := FramesOf(Init(ps), parse);
    match FirstComplete(fs)
    case Some(ev) => Observed(ProgressBefore(fs), [Resolved(ev)], true)
    case None =>
      var fin := Finish(Last(ps), end, parse);
      Observed(ProgressBefore(fs) + fin.progress, fin.settles, false)
  }

  lemma FramesSnoc(pieces: seq<string>, i: nat, parse: Parser)
    requires i < |pieces|
    ensures FramesOf(pieces[..i + 1], parse) == FramesOf(pieces[..i], parse) + [ReadFrame(pieces[i], parse)]
  {
    assert pieces[..i + 1] == pieces[..i] + [pieces[i]];
    FramesOfAppend(pieces[..i], [pieces[i]], parse);
  }

  lemma ScanStep(pieces: seq<string>, i: nat, parse: Parser)
    requires i < |pieces| && FirstComplete(FramesOf(pieces[..i], parse)) == None
    ensures var f := ReadFrame(pieces[i], parse);
      var before := ProgressBefore(FramesOf(pieces[..i], parse));
      && (!f.Complete? ==> FirstComplete(FramesOf(pieces[..i + 1], parse)) == None)
      && (f.Complete? ==> FirstComplete(FramesOf(pieces[..i + 1], parse)) == Some(f.ev))
      && (f.Progress? ==> ProgressBefore(FramesOf(pieces[..i + 1], parse)) == before + [f.ev])
      && (!f.Progress? ==> ProgressBefore(FramesOf(pieces[..i + 1], parse)) == before)
  {
    var f := ReadFrame(pieces[i], parse);
    FramesSnoc(pieces, i, parse);
    ProgressBeforeAppend(FramesOf(pieces[..i], parse), [f]);
    assert [f][1..] == [];
  }

  /** A complete frame among the first pieces decides the whole list. */
  lemma ScanStops(pieces: seq<string>, k: nat, parse: Parser)
    requires k <= |pieces| && FirstComplete(FramesOf(pieces[..k], parse)).Some?
    ensures FirstComplete(FramesOf(pieces, parse)) == FirstComplete(FramesOf(pieces[..k], parse))
    ensures ProgressBefore(FramesOf(pieces, parse)) == ProgressBefore(FramesOf(pieces[..k], parse))
  {
    assert pieces[..k] + pieces[k..] == pieces;
    FramesOfAppend(pieces[..k], pieces[k..], parse);
    ProgressBeforeAppend(FramesOf(pieces[..k], parse), FramesOf(pieces[k..], parse));
  }

  /** The `for (const line of lines)` loop over one chunk's complete pieces. */
  method ScanPieces(pieces: seq<string>, parse: Parser) returns (delivered: seq<Value>, complete: Option<Value>)
    ensures delivered == ProgressBefore(FramesOf(pieces, parse))
    ensures complete == FirstComplete(FramesOf(pieces, parse))
  {
    delivered := [];
    var i := 0;
    while i < |pieces|
      invariant 0 <= i <= |pieces|
      invariant FirstComplete(FramesOf(pieces[..i], parse)) == None
      invariant delivered == ProgressBefore(FramesOf(pieces[..i], parse))
    {
      var f := ReadFrame(pieces[i], parse);
      ScanStep(pieces, i, parse);
      match f {
        case Complete(ev) =>
          ScanStops(pieces, i + 1, parse);
          complete := Some(ev);
          return;
        case Progress(ev) =>
          delivered := delivered + [ev];
        case Skipped =>
      }
      i := i + 1;
    }
    assert pieces[..i] == pieces;
    complete := None;
  }

  /** Once the text read so far holds a complete frame, whatever follows it changes nothing,
      and neither does how the stream would have ended. */
  lemma CompletionIsFinal(p: string, q: string, end: StreamEnd, parse: Parser)
    requires FirstComplete(FramesOf(Init(Split(p, Separator)), parse)).Some?
    ensures WholeText(p + q, end, parse) == WholeText(p, Done, parse)
  {
    SplitThrough(p, q);
    var ps := Split(p, Separator);
    var tail := Split(Last(ps) + q, Separator);
    FramesOfAppend(Init(ps), Init(tail), parse);
    ProgressBeforeAppend(FramesOf(Init(ps), parse), FramesOf(Init(tail), parse));
  }

  /** The frames complete in the first `k` chunks. */
  function PrefixFrames(chunks: seq<string>, k: nat, parse: Parser): seq<Frame>
    requires k <= |chunks|
  {
    FramesOf(Init(Split(Concat(chunks[..k]), Separator)), parse)
  }

  /** The tail left after the first `k` chunks. */
  function PrefixTail(chunks: seq<string>, k: nat): string
    requires k <= |chunks|
  {
    Last(Split(Concat(chunks[..k]), Separator))
  }

  /** Reading chunk `i` appends that chunk's complete pieces to the frames read so far and
      replaces the tail. */
  lemma ReadStep(chunks: seq<string>, i: nat, parse: Parser)
    requires i < |chunks|
    ensures var pieces := Split(PrefixTail(chunks, i) + chunks[i], Separator);
      && PrefixFrames(chunks, i + 1, parse) == PrefixFrames(chunks, i, parse) + FramesOf(Init(pieces), parse)
      && PrefixTail(chunks, i + 1) == Last(pieces)
  {
    ConcatPrefix(chunks, i);
    SplitThrough(Concat(chunks[..i]), chunks[i]);
    var pieces := Split(PrefixTail(chunks, i) + chunks[i], Separator);
    FramesOfAppend(Init(Split(Concat(chunks[..i]), Separator)), Init(pieces), parse);
  }

  /** A complete frame within the first `k` chunks decides the whole call. */
  lemma StopsAt(chunks: seq<string>, k: nat, end: StreamEnd, parse: Parser)
    requires k <= |chunks| && FirstComplete(PrefixFrames(chunks, k, parse)).Some?
    ensures WholeText(Concat(chunks), end, parse) == WholeText(Concat(chunks[..k]), Done, parse)
  {
    ConcatSplitAt(chunks, k);
    CompletionIsFinal(Concat(chunks[..k]), Concat(chunks[k..]), end, parse);
  }

  lemma ConcatSplitAt(chunks: seq<string>, k: nat)
    requires k <= |chunks|
    ensures Concat(chunks) == Concat(chunks[..k]) + Concat(chunks[k..])
  {
    var a, b := chunks[..k], chunks[k..];
    assert a + b == chunks;
    ConcatAppend(a, b);
  }

  lemma WholeTextCompleted(p: string, parse: Parser)
    requires FirstComplete(FramesOf(Init(Split(p, Separator)), parse)).Some?
    ensures var fs := FramesOf(Init(Split(p, Separator)), parse);
      WholeText(p, Done, parse) == Observed(ProgressBefore(fs), [Resolved(FirstComplete(fs).value)], true)
  {
  }

  lemma WholeTextUncompleted(text: string, end: StreamEnd, parse: Parser)
    requires FirstComplete(FramesOf(Init(Split(text, Separator)), parse)) == None
    ensures var fs := FramesOf(Init(Split(text, Separator)), parse);
      var fin := Finish(Last(Split(text, Separator)), end, parse);
      WholeText(text, end, parse) == Observed(ProgressBefore(fs) + fin.progress, fin.settles, false)
  {
  }

  /** Reading the stream chunk by chunk (`processChunk`). */
  method ReadStream(chunks: seq<string>, end: StreamEnd, parse: Parser) returns (run: Run)
    ensures run.observed == WholeText(Concat(chunks), end, parse)
    ensures run.chunksRead <= |chunks|
    ensures !run.observed.cancelled ==> run.chunksRead == |chunks|
    ensures run.observed.cancelled ==>
      && run.chunksRead >= 1
      && FirstComplete(PrefixFrames(chunks, run.chunksRead, parse)).Some?
      && FirstComplete(PrefixFrames(chunks, run.chunksRead - 1, parse)) == None
  {
    var buffer := "";
    var delivered: seq<Value> := [];
    var i := 0;
    assert Concat(chunks[..0]) == "";
    while i < |chunks|
      invariant 0 <= i <= |chunks|
      invariant buffer == PrefixTail(chunks, i)
      invariant FirstComplete(PrefixFrames(chunks, i, parse)) == None
      invariant delivered == ProgressBefore(PrefixFrames(chunks, i, parse))
    {
      var pieces := Split(buffer + chunks[i], Separator);
      var d, c := ScanPieces(Init(pieces), parse);
      ReadStep(chunks, i, parse);
      ProgressBeforeAppend(PrefixFrames(chunks, i, parse), FramesOf(Init(pieces), parse));
      if c.Some? {
        StopsAt(chunks, i + 1, end, parse);
        WholeTextCompleted(Concat(chunks[..i + 1]), parse);
        return Run(Observed(delivered + d, [Resolved(c.value)], true), i + 1);
      }
      delivered := delivered + d;
      buffer := Last(pieces);
      i := i + 1;
    }
    assert chunks[..i] == chunks;
    WholeTextUncompleted(Concat(chunks), end, parse);
    var fin := Finish(buffer, end, parse);
    run := Run(Observed(delivered + fin.progress, fin.settles, false), |chunks|);
  }

  /** `analyzeSelectedCompsStream` against a given reply. */
  method AnalyzeSelectedCompsStream(reply: Reply, parse: Parser) returns (run: Run)
    ensures reply.FetchFailed? ==> run == Run(Observed([], [Rejected(NetworkError)], false), 0)
    ensures reply.Reply? && !IsOk(reply.status) ==>
      run == Run(Observed([], [Rejected(HttpError(
        reply.status,
        if reply.statusText != "" then reply.statusText else DefaultFailureMessage,
        parse(reply.bodyText)))], false), 0)
    ensures reply.Reply? && IsOk(reply.status) ==>
      run.observed == WholeText(Concat(reply.chunks), reply.end, parse)
  {
    if reply.FetchFailed? {
      return Run(Observed([], [Rejected(NetworkError)], false), 0);
    }
    if !IsOk(reply.status) {
      var message := if reply.statusText != "" then reply.statusText else DefaultFailureMessage;
      return Run(Observed([], [Rejected(HttpError(reply.status, message, parse(reply.bodyText)))], false), 0);
    }
    run := ReadStream(reply.chunks, reply.end, parse);
  }

  /** The promise always settles, and it settles on the first call: a complete event in the
      leftover resolves with that event although `resolve(null)` follows it. */
  lemma SettlesOnce(text: string, end: StreamEnd, parse: Parser)
    ensures var o := WholeText(text, end, parse);
      1 <= |o.settles| <= 2
      && (|o.settles| == 2 ==> o.settles[0].Resolved? && IsComplete(o.settles[0].value) && o.settles[1] == Resolved(Null))
  {
  }

  /** Events reach `onProgress` in stream order, each at most once, and never the complete
      event that ends a stream mid-body. */
  lemma ProgressIsInOrder(text: string, end: StreamEnd, parse: Parser)
    ensures var o := WholeText(text, end, parse);
      var fs := FramesOf(Init(Split(text, Separator)), parse);
      o.progress[..|ProgressBefore(fs)|] == ProgressBefore(fs)
      && (o.cancelled ==> o.progress == ProgressBefore(fs) && forall v :: v in o.progress ==> !IsComplete(v))
  {
    var fs := FramesOf(Init(Split(text, Separator)), parse);
    forall v | v in ProgressBefore(fs)
      ensures !IsComplete(v)
    {
      ProgressComesFromFrames(fs, v);
    }
  }
}
