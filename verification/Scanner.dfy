/** The incremental frame scanner of the gateway (mote-gateway/soft/mote-gateway.go, serialworker):
    it appends each read to a buffer, takes the leftmost match of `<PAYLOAD=[^>]+>\n`, at most one
    per read, and keeps what follows the match. */
module Scanner {
  import opened Text

  const HEAD := "<PAYLOAD="

  predicate HeadAt(s: string, i: nat) {
    i + |HEAD| <= |s| && s[i..i + |HEAD|] == HEAD
  }

  /** s[i..j] is in the language of the expression. `[^>]` also stands for a newline. */
  ghost predicate MatchAt(s: string, i: nat, j: nat) {
    && i + |HEAD| + 3 <= j <= |s|
    && HeadAt(s, i)
    && (forall k | i + |HEAD| <= k < j - 2 :: s[k] != '>')
    && s[j - 2] == '>' && s[j - 1] == '\n'
  }

  datatype Span = Span(start: nat, end: nat)

  /** What `FindIndex` promises: the leftmost match, or that there is none. */
  ghost predicate Leftmost(s: string, from: nat, m: Option<Span>) {
    match m
    case None => forall i: nat, j: nat | from <= i :: !MatchAt(s, i, j)
    case Some(p) =>
      && from <= p.start && MatchAt(s, p.start, p.end)
      && forall i: nat, j: nat | from <= i < p.start :: !MatchAt(s, i, j)
  }

  // ---------------------------------------------------------------- the search

  /** The first `>` at or after k, or the end of the string. */
  function FirstClose(s: string, k: nat): (g: nat)
    requires k <= |s|
    ensures k <= g <= |s|
    decreases |s| - k
  {
    if k == |s| || s[k] == '>' then k else FirstClose(s, k + 1)
  }

  lemma {:induction false} FirstCloseIsFirst(s: string, k: nat)
    requires k <= |s|
    ensures forall x | k <= x < FirstClose(s, k) :: s[x] != '>'
    ensures FirstClose(s, k) < |s| ==> s[FirstClose(s, k)] == '>'
    decreases |s| - k
  {
    if k < |s| && s[k] != '>' { FirstCloseIsFirst(s, k + 1); }
  }

  function MatchEnd(s: string, i: nat): (end: Option<nat>)
    ensures end.Some? ==> i + |HEAD| + 3 <= end.value <= |s|
  {
    if !HeadAt(s, i) then None
    else
      var g := FirstClose(s, i + |HEAD|);
      if g > i + |HEAD| && g + 1 < |s| && s[g + 1] == '\n' then Some(g + 2) else None
  }

  /** A match starting at i has only one possible end, and MatchEnd finds it. */
  lemma MatchEndExact(s: string, i: nat, j: nat)
    ensures MatchAt(s, i, j) <==> MatchEnd(s, i) == Some(j)
  {
    if HeadAt(s, i) {
      FirstCloseIsFirst(s, i + |HEAD|);
    }
  }

  function FindFrom(s: string, from: nat): (m: Option<Span>)
    ensures m.Some? ==> from <= m.value.start && m.value.start + |HEAD| + 3 <= m.value.end <= |s|
    decreases |s| - from
  {
    if from >= |s| then None
    else match MatchEnd(s, from)
      case Some(end) => Some(Span(from, end))
      case None => FindFrom(s, from + 1)
  }

  function Find(s: string): (m: Option<Span>)
    ensures m.Some? ==> m.value.start + |HEAD| + 3 <= m.value.end <= |s|
  {
    FindFrom(s, 0)
  }

  lemma EndIsUnique(s: string, i: nat)
    ensures forall j: nat :: MatchAt(s, i, j) ==> MatchEnd(s, i) == Some(j)
    ensures MatchEnd(s, i).Some? ==> MatchAt(s, i, MatchEnd(s, i).value)
  {
    forall j: nat ensures MatchAt(s, i, j) ==> MatchEnd(s, i) == Some(j) {
      MatchEndExact(s, i, j);
    }
    if MatchEnd(s, i).Some? { MatchEndExact(s, i, MatchEnd(s, i).value); }
  }

  lemma LeftmostHere(s: string, from: nat, end: nat)
    requires MatchAt(s, from, end)
    ensures Leftmost(s, from, Some(Span(from, end)))
  {
  }

  lemma LeftmostLater(s: string, from: nat, m: Option<Span>)
    requires forall j: nat :: !MatchAt(s, from, j)
    requires Leftmost(s, from + 1, m)
    ensures Leftmost(s, from, m)
  {
  }

  lemma {:induction false} FindFromIsLeftmost(s: string, from: nat)
    ensures Leftmost(s, from, FindFrom(s, from))
    decreases |s| - from
  {
    if from < |s| {
      EndIsUnique(s, from);
      match MatchEnd(s, from) {
        case Some(end) => LeftmostHere(s, from, end);
        case None =>
          FindFromIsLeftmost(s, from + 1);
          LeftmostLater(s, from, FindFrom(s, from + 1));
      }
    }
  }

  /** The search computes what the regular expression means. */
  lemma FindIsLeftmost(s: string)
    ensures Leftmost(s, 0, Find(s))
  {
    FindFromIsLeftmost(s, 0);
  }

  /** There is only one leftmost match. */
  lemma LeftmostUnique(s: string, m: Option<Span>, n: Option<Span>)
    requires Leftmost(s, 0, m) && Leftmost(s, 0, n)
    ensures m == n
  {
    if m.Some? && n.Some? {
      assert m.value.start == n.value.start;
      MatchEndExact(s, m.value.start, m.value.end);
      MatchEndExact(s, n.value.start, n.value.end);
    }
  }

  lemma MatchExtends(a: string, b: string, i: nat, j: nat)
    requires j <= |a|
    ensures MatchAt(a + b, i, j) <==> MatchAt(a, i, j)
  {
    if i + |HEAD| <= |a| {
      assert (a + b)[i..i + |HEAD|] == a[i..i + |HEAD|];
    }
    assert forall k | 0 <= k < |a| :: (a + b)[k] == a[k];
  }

  /** A match found stays the leftmost match, with the same end, whatever bytes come after it. */
  lemma MatchStable(a: string, b: string)
    requires Find(a).Some?
    ensures Find(a + b) == Find(a)
  {
    var m := Find(a).value;
    var s := a + b;
    FindIsLeftmost(a);
    FindIsLeftmost(s);
    MatchExtends(a, b, m.start, m.end);
    forall i: nat, j: nat | i < m.start && j > |a|
      ensures !MatchAt(s, i, j)
    {
      // The body of such a match would run over the `>` that ends m.
      assert s[m.end - 2] == '>';
    }
    forall i: nat, j: nat | i < m.start && j <= |a|
      ensures !MatchAt(s, i, j)
    {
      MatchExtends(a, b, i, j);
    }
    LeftmostUnique(s, Find(s), Find(a));
  }

  // ---------------------------------------------------------------- all frames of a string

  /** One frame cut from the stream: the bytes skipped before it and the text between its tags. */
  datatype Piece = Piece(noise: string, raw: string)

  function PieceOf(s: string, m: Span): Piece
    requires m.start + 3 <= m.end <= |s|
  {
    Piece(s[..m.start], s[m.start + 1..m.end - 2])
  }

  /** Repeated leftmost extraction over a whole string. */
  function Pieces(s: string): seq<Piece>
    decreases |s|
  {
    match Find(s)
    case None => []
    case Some(m) => [PieceOf(s, m)] + Pieces(s[m.end..])
  }

  /** What repeated extraction leaves over. */
  function Rest(s: string): (r: string)
    ensures Find(r).None?
    decreases |s|
  {
    match Find(s)
    case None => s
    case Some(m) => Rest(s[m.end..])
  }

  /** The frames themselves. */
  function Raws(ps: seq<Piece>): (rs: seq<string>)
    ensures |rs| == |ps|
    ensures forall i | 0 <= i < |ps| :: rs[i] == ps[i].raw
  {
    seq(|ps|, i requires 0 <= i < |ps| => ps[i].raw)
  }

  lemma Unfold(s: string)
    ensures Find(s).None? ==> Pieces(s) == [] && Rest(s) == s
    ensures Find(s).Some? ==>
      var m := Find(s).value;
      Pieces(s) == [PieceOf(s, m)] + Pieces(s[m.end..]) && Rest(s) == Rest(s[m.end..])
  {
  }

  lemma Regroup<T>(a: seq<T>, b: seq<T>, c: seq<T>)
    ensures (a + b) + c == a + (b + c)
  {
  }

  lemma SlicesExtend(a: string, b: string, m: Span)
    requires m.start + 3 <= m.end <= |a|
    ensures PieceOf(a + b, m) == PieceOf(a, m)
    ensures (a + b)[m.end..] == a[m.end..] + b
  {
  }

  /** Extraction may be done on a prefix first: nothing is lost or found twice at the cut. */
  lemma {:induction false} PiecesAppend(a: string, b: string)
    ensures Pieces(a + b) == Pieces(a) + Pieces(Rest(a) + b)
    ensures Rest(a + b) == Rest(Rest(a) + b)
    decreases |a|
  {
    Unfold(a);
    if Find(a).Some? {
      var m := Find(a).value;
      MatchStable(a, b);
      SlicesExtend(a, b, m);
      Unfold(a + b);
      PiecesAppend(a[m.end..], b);
      Regroup([PieceOf(a, m)], Pieces(a[m.end..]), Pieces(Rest(a) + b));
    }
  }

  /** The bytes that a piece came from. */
  function Source(p: Piece): string {
    p.noise + "<" + p.raw + ">\n"
  }

  function Glue(ps: seq<Piece>): string {
    if ps == [] then "" else Source(ps[0]) + Glue(ps[1..])
  }

  lemma {:induction false} GlueAppend(ps: seq<Piece>, qs: seq<Piece>)
    ensures Glue(ps + qs) == Glue(ps) + Glue(qs)
  {
    if ps == [] {
      assert ps + qs == qs;
    } else {
      assert (ps + qs)[1..] == ps[1..] + qs;
      GlueAppend(ps[1..], qs);
      Regroup(Source(ps[0]), Glue(ps[1..]), Glue(qs));
    }
  }

  lemma GlueFirst(p: Piece, ps: seq<Piece>)
    ensures Glue([p] + ps) == Source(p) + Glue(ps)
  {
    assert ([p] + ps)[1..] == ps;
  }

  ghost predicate WellFormed(raw: string) {
    && |raw| >= |HEAD| && raw[..|HEAD| - 1] == HEAD[1..]
    && '>' !in raw
  }

  /** What was skipped holds no match, and a frame starts with its tag, has a body and no `>`. */
  ghost predicate GoodPieces(ps: seq<Piece>) {
    forall i | 0 <= i < |ps| :: WellFormed(ps[i].raw) && Find(ps[i].noise).None?
  }

  /** Pieces cuts a string without losing or changing a byte. */
  lemma {:induction false} GluePieces(s: string)
    ensures Glue(Pieces(s)) + Rest(s) == s
    ensures GoodPieces(Pieces(s))
    decreases |s|
  {
    Unfold(s);
    if Find(s).Some? {
      var m := Find(s).value;
      var p, tail := PieceOf(s, m), s[m.end..];
      GluePieces(tail);
      PieceSource(s, m);
      PieceWellFormed(s, m);
      GlueFirst(p, Pieces(tail));
      Regroup(Source(p), Glue(Pieces(tail)), Rest(tail));
    }
  }

  lemma PieceSource(s: string, m: Span)
    requires Find(s) == Some(m)
    ensures Source(PieceOf(s, m)) + s[m.end..] == s
  {
    FindIsLeftmost(s);
    assert s[m.start] == s[m.start..m.start + |HEAD|][0] == '<';
    assert s[m.end - 2..m.end] == ">\n";
    assert s == s[..m.start] + [s[m.start]] + s[m.start + 1..m.end - 2] + s[m.end - 2..m.end] + s[m.end..];
  }

  lemma PieceWellFormed(s: string, m: Span)
    requires Find(s) == Some(m)
    ensures WellFormed(PieceOf(s, m).raw) && Find(PieceOf(s, m).noise).None?
  {
    FindIsLeftmost(s);
    var raw := PieceOf(s, m).raw;
    assert HEAD == s[m.start..m.start + |HEAD|];
    assert raw[..|HEAD| - 1] == HEAD[1..];
    forall k | 0 <= k < |raw| ensures raw[k] != '>' {
      if k < |HEAD| - 1 { assert raw[k] == HEAD[1..][k]; }
    }
    assert s[..m.start] + s[m.start..] == s;
    if Find(s[..m.start]).Some? {
      MatchStable(s[..m.start], s[m.start..]);
    }
  }

  // ---------------------------------------------------------------- the reader

  /** The state of serialworker: the frames handed over and `buftotal`. */
  datatype Worker = Worker(sent: seq<Piece>, buf: string)

  /** The buffer starts with one NUL byte. */
  const START := Worker([], "\0")

  function Read(w: Worker, chunk: string): Worker {
    if chunk == "" then w
    else
      var buf := w.buf + chunk;
      match Find(buf)
      case None => w.(buf := buf)
      case Some(m) => Worker(w.sent + [PieceOf(buf, m)], buf[m.end..])
  }

  /** A read of no bytes hands nothing over, even when a frame is waiting in the buffer. */
  lemma EmptyRead(w: Worker)
    ensures Read(w, "") == w
  {
  }

  function Run(chunks: seq<string>): Worker {
    if chunks == [] then START else Read(Run(chunks[..|chunks| - 1]), chunks[|chunks| - 1])
  }

  function Concat(chunks: seq<string>): string {
    if chunks == [] then "" else Concat(chunks[..|chunks| - 1]) + chunks[|chunks| - 1]
  }

  /** Everything that has reached the buffer. */
  function Input(chunks: seq<string>): string { "\0" + Concat(chunks) }

  /** Appending a read to the buffer keeps the account. */
  lemma BufferStep(sent: seq<Piece>, buf: string, input: string, c: string)
    requires sent + Pieces(buf) == Pieces(input) && Rest(buf) == Rest(input)
    ensures sent + Pieces(buf + c) == Pieces(input + c) && Rest(buf + c) == Rest(input + c)
  {
    PiecesAppend(input, c);
    PiecesAppend(buf, c);
    Regroup(sent, Pieces(buf), Pieces(Rest(buf) + c));
  }

  lemma ReadStep(w: Worker, input: string, c: string)
    requires w.sent + Pieces(w.buf) == Pieces(input) && Rest(w.buf) == Rest(input)
    ensures Read(w, c).sent + Pieces(Read(w, c).buf) == Pieces(input + c)
    ensures Rest(Read(w, c).buf) == Rest(input + c)
  {
    if c == "" {
      assert input + c == input;
    } else {
      var buf := w.buf + c;
      BufferStep(w.sent, w.buf, input, c);
      Unfold(buf);
      if Find(buf).Some? {
        Regroup(w.sent, [PieceOf(buf, Find(buf).value)], Pieces(Read(w, c).buf));
      }
    }
  }

  lemma InputStep(chunks: seq<string>)
    requires chunks != []
    ensures Input(chunks) == Input(chunks[..|chunks| - 1]) + chunks[|chunks| - 1]
  {
  }

  /** Chunking independence: after any reads, the frames handed over followed by those still in the
      buffer are the frames of the whole input; none is lost, doubled, reordered or invented. */
  lemma {:induction false} ChunkingIndependence(chunks: seq<string>)
    ensures Run(chunks).sent + Pieces(Run(chunks).buf) == Pieces(Input(chunks))
    ensures Rest(Run(chunks).buf) == Rest(Input(chunks))
  {
    if chunks == [] {
      assert Input(chunks) == "\0";
    } else {
      var before, c := chunks[..|chunks| - 1], chunks[|chunks| - 1];
      ChunkingIndependence(before);
      ReadStep(Run(before), Input(before), c);
      InputStep(chunks);
    }
  }

  /** Reading on never takes back a frame. */
  lemma SentIsPrefix(chunks: seq<string>, more: string)
    ensures Run(chunks).sent <= Pieces(Input(chunks) + more)
  {
    ChunkingIndependence(chunks);
    PiecesAppend(Input(chunks), more);
  }

  /** Byte conservation: the skipped bytes, the frames handed over and the buffer are the input. */
  lemma ByteConservation(chunks: seq<string>)
    ensures Glue(Run(chunks).sent) + Run(chunks).buf == Input(chunks)
    ensures GoodPieces(Run(chunks).sent)
  {
    ChunkingIndependence(chunks);
    var w := Run(chunks);
    AccountGlues(w.sent, w.buf, Input(chunks));
  }

  lemma AccountGlues(sent: seq<Piece>, buf: string, input: string)
    requires sent + Pieces(buf) == Pieces(input) && Rest(buf) == Rest(input)
    ensures Glue(sent) + buf == input
    ensures GoodPieces(sent)
  {
    GluePieces(input);
    GluePieces(buf);
    GlueAppend(sent, Pieces(buf));
    Regroup(Glue(sent), Glue(Pieces(buf)), Rest(buf));
    forall i | 0 <= i < |sent| ensures WellFormed(sent[i].raw) && Find(sent[i].noise).None? {
      assert Pieces(input)[i] == sent[i];
    }
  }

  // ---------------------------------------------------------------- lag of one frame per read

  /** Frames complete in the input after the first j reads. */
  function Complete(chunks: seq<string>, j: nat): nat
    requires j <= |chunks|
  {
    |Pieces(Input(chunks[..j]))|
  }

  function Delivered(chunks: seq<string>, j: nat): nat
    requires j <= |chunks|
  {
    |Run(chunks[..j]).sent|
  }

  ghost predicate AllNonEmpty(chunks: seq<string>) {
    forall i | 0 <= i < |chunks| :: chunks[i] != ""
  }

  lemma CompleteAtStart(chunks: seq<string>)
    ensures Complete(chunks, 0) == 0
  {
    assert chunks[..0] == [];
    assert Input([]) == "\0";
  }

  lemma CompleteGrows(chunks: seq<string>, j: nat)
    requires j < |chunks|
    ensures Complete(chunks, j) <= Complete(chunks, j + 1)
  {
    assert chunks[..j + 1][..j] == chunks[..j];
    InputStep(chunks[..j + 1]);
    PiecesAppend(Input(chunks[..j]), chunks[j]);
  }

  /** How many frames are in the buffer: those complete and not handed over. */
  lemma Backlog(chunks: seq<string>, k: nat)
    requires k <= |chunks|
    ensures Complete(chunks, k) == Delivered(chunks, k) + |Pieces(Run(chunks[..k]).buf)|
  {
    ChunkingIndependence(chunks[..k]);
  }

  lemma ReadTakesOne(w: Worker, c: string)
    requires c != ""
    ensures |Read(w, c).sent| == |w.sent| + if Pieces(w.buf + c) == [] then 0 else 1
  {
    Unfold(w.buf + c);
  }

  /** One read hands over one frame if the input holds one that was not handed over yet. */
  lemma DeliveryStep(chunks: seq<string>, j: nat)
    requires j < |chunks| && chunks[j] != ""
    ensures Delivered(chunks, j) <= Complete(chunks, j)
    ensures Complete(chunks, j) <= Complete(chunks, j + 1)
    ensures Delivered(chunks, j + 1)
         == if Complete(chunks, j + 1) > Delivered(chunks, j) then Delivered(chunks, j) + 1 else Delivered(chunks, j)
  {
    var before, after, c := chunks[..j], chunks[..j + 1], chunks[j];
    var w := Run(before);
    assert after[..j] == before && after[j] == c;
    Backlog(chunks, j);
    CompleteGrows(chunks, j);
    ChunkingIndependence(before);
    BufferStep(w.sent, w.buf, Input(before), c);
    InputStep(after);
    ReadTakesOne(w, c);
    assert Run(after) == Read(w, c);
  }

  /** The counts after each read. */
  function CompleteCounts(chunks: seq<string>): (counts: seq<nat>)
    ensures |counts| == |chunks| + 1 && forall j | 0 <= j <= |chunks| :: counts[j] == Complete(chunks, j)
  {
    seq(|chunks| + 1, j requires 0 <= j <= |chunks| => Complete(chunks, j))
  }

  function DeliveredCounts(chunks: seq<string>): (counts: seq<nat>)
    ensures |counts| == |chunks| + 1 && forall j | 0 <= j <= |chunks| :: counts[j] == Delivered(chunks, j)
  {
    seq(|chunks| + 1, j requires 0 <= j <= |chunks| => Delivered(chunks, j))
  }

  ghost predicate Served(complete: seq<nat>, delivered: seq<nat>) {
    && |complete| == |delivered| > 0
    && complete[0] == delivered[0] == 0
    && forall j | 0 < j < |complete| :: OnePerRead(complete, delivered, j)
  }

  ghost predicate OnePerRead(complete: seq<nat>, delivered: seq<nat>, j: nat)
    requires 0 < j < |complete| == |delivered|
  {
    && delivered[j - 1] <= complete[j - 1] <= complete[j]
    && delivered[j] == if complete[j] > delivered[j - 1] then delivered[j - 1] + 1 else delivered[j - 1]
  }

  lemma CountsServed(chunks: seq<string>)
    requires AllNonEmpty(chunks)
    ensures Served(CompleteCounts(chunks), DeliveredCounts(chunks))
  {
    CompleteAtStart(chunks);
    Backlog(chunks, 0);
    forall j | 0 < j <= |chunks| ensures OnePerRead(CompleteCounts(chunks), DeliveredCounts(chunks), j) {
      DeliveryStep(chunks, j - 1);
    }
  }

  lemma {:induction false} LeastOfServed(complete: seq<nat>, delivered: seq<nat>, k: nat) returns (least: nat)
    requires Served(complete, delivered) && k < |complete|
    ensures forall i | 0 <= i <= k :: delivered[k] <= complete[i] + (k - i)
    ensures least <= k && delivered[k] == complete[least] + (k - least)
  {
    if k == 0 {
      least := 0;
    } else {
      least := LeastOfServed(complete, delivered, k - 1);
      assert OnePerRead(complete, delivered, k);
      if complete[k] <= delivered[k - 1] { least := k; }
    }
  }

  /** Exact lag: after k non-empty reads, the number of frames handed over is the least
      Complete(i) + (k - i) over all 0 <= i <= k. */
  lemma ExactLag(chunks: seq<string>, k: nat)
    requires AllNonEmpty(chunks) && k <= |chunks|
    ensures forall i | 0 <= i <= k :: Delivered(chunks, k) <= Complete(chunks, i) + (k - i)
    ensures exists i | 0 <= i <= k :: Delivered(chunks, k) == Complete(chunks, i) + (k - i)
  {
    var complete, delivered := CompleteCounts(chunks), DeliveredCounts(chunks);
    CountsServed(chunks);
    var least := LeastOfServed(complete, delivered, k);
    forall i | 0 <= i <= k ensures Delivered(chunks, k) <= Complete(chunks, i) + (k - i) {
      assert delivered[k] <= complete[i] + (k - i);
    }
    assert Delivered(chunks, k) == Complete(chunks, least) + (k - least);
  }

  lemma {:induction false} ServedKeepsUp(complete: seq<nat>, delivered: seq<nat>, k: nat)
    requires Served(complete, delivered) && k < |complete|
    requires forall j | 0 < j < |complete| :: complete[j] <= complete[j - 1] + 1
    ensures delivered[k] == complete[k]
  {
    if k > 0 {
      ServedKeepsUp(complete, delivered, k - 1);
      assert OnePerRead(complete, delivered, k);
    }
  }

  /** The reader is never behind if and only if no read completes more than one frame. */
  lemma NeverBehind(chunks: seq<string>)
    requires AllNonEmpty(chunks)
    ensures (forall k | 0 <= k <= |chunks| :: Delivered(chunks, k) == Complete(chunks, k))
       <==> (forall k | 0 <= k < |chunks| :: Complete(chunks, k + 1) <= Complete(chunks, k) + 1)
  {
    var complete, delivered := CompleteCounts(chunks), DeliveredCounts(chunks);
    CountsServed(chunks);
    forall k | 0 <= k < |chunks| ensures Delivered(chunks, k + 1) <= Delivered(chunks, k) + 1 {
      assert OnePerRead(complete, delivered, k + 1);
    }
    if forall k | 0 <= k < |chunks| :: Complete(chunks, k + 1) <= Complete(chunks, k) + 1 {
      forall j | 0 < j < |complete| ensures complete[j] <= complete[j - 1] + 1 {
        assert Complete(chunks, (j - 1) + 1) <= Complete(chunks, j - 1) + 1;
      }
      forall k | 0 <= k <= |chunks| ensures Delivered(chunks, k) == Complete(chunks, k) {
        ServedKeepsUp(complete, delivered, k);
      }
    }
  }

  lemma {:induction false} ServedDrains(complete: seq<nat>, delivered: seq<nat>, k: nat, n: nat)
    requires Served(complete, delivered) && k + n < |complete|
    ensures complete[k] <= complete[k + n]
    ensures delivered[k + n] >= complete[k] || delivered[k + n] == delivered[k] + n
  {
    if n > 0 {
      ServedDrains(complete, delivered, k, n - 1);
      assert OnePerRead(complete, delivered, k + n);
    }
  }

  /** A backlog shrinks by one with every further read, so enough reads hand over every frame. */
  lemma BacklogDrains(chunks: seq<string>, k: nat, n: nat)
    requires AllNonEmpty(chunks) && k + n <= |chunks|
    ensures Delivered(chunks, k + n) >= Complete(chunks, k)
         || Delivered(chunks, k + n) == Delivered(chunks, k) + n
  {
    CountsServed(chunks);
    ServedDrains(CompleteCounts(chunks), DeliveredCounts(chunks), k, n);
  }

  lemma CompleteAfterAll(chunks: seq<string>)
    ensures Complete(chunks, |chunks|) == |Pieces("\0" + Concat(chunks))|
  {
    assert chunks[..|chunks|] == chunks;
  }

  /** As many further non-empty reads as frames were complete hand over all of these. */
  lemma EnoughReads(chunks: seq<string>, extra: seq<string>)
    requires AllNonEmpty(chunks) && AllNonEmpty(extra)
    requires |extra| >= Complete(chunks, |chunks|)
    ensures Delivered(chunks + extra, |chunks + extra|) >= Complete(chunks, |chunks|)
  {
    var longer := chunks + extra;
    assert longer[..|chunks|] == chunks == chunks[..|chunks|];
    assert AllNonEmpty(longer);
    BacklogDrains(longer, |chunks|, |extra|);
  }

  lemma {:induction false} ConcatAppend(chunks: seq<string>, extra: seq<string>)
    ensures Concat(chunks + extra) == Concat(chunks) + Concat(extra)
  {
    if extra == [] {
      assert chunks + extra == chunks;
    } else {
      var init := extra[..|extra| - 1];
      assert (chunks + extra)[..|chunks + extra| - 1] == chunks + init;
      ConcatAppend(chunks, init);
      Regroup(Concat(chunks), Concat(init), extra[|extra| - 1]);
    }
  }

  /** Whatever is read later, the packets handed over begin with the frames of the input so far, once
      there are enough of them. */
  lemma {:induction false} HandedOverFirst(chunks: seq<string>, extra: seq<string>)
    requires |Run(chunks + extra).sent| >= |Pieces(Input(chunks))|
    ensures Pieces(Input(chunks)) <= Run(chunks + extra).sent
  {
    ConcatAppend(chunks, extra);
    Regroup("\0", Concat(chunks), Concat(extra));
    PiecesAppend(Input(chunks), Concat(extra));
    SentIsPrefix(chunks + extra, "");
    assert Input(chunks + extra) + "" == Input(chunks + extra);
  }

  // ---------------------------------------------------------------- the loop in place

  class SerialWorker {
    var buftotal: string
    ghost var input: string        // every byte that reached the buffer
    ghost var sent: seq<Piece>     // every frame sent on the channel

    ghost predicate Valid()
      reads this
    {
      && sent + Pieces(buftotal) == Pieces(input)
      && Rest(buftotal) == Rest(input)
    }

    ghost function State(): Worker
      reads this
    {
      Worker(sent, buftotal)
    }

    constructor ()
      ensures Valid() && State() == START && input == "\0"
    {
      buftotal := "\0";
      input := "\0";
      sent := [];
    }

    /** One turn of the loop. The packet sent on the channel, if any, is the next frame of the
        input that was not sent before. */
    method OnRead(chunk: string) returns (raw: Option<string>)
      requires Valid()
      modifies this
      ensures Valid()
      ensures State() == Read(old(State()), chunk)
      ensures input == old(input) + chunk
      ensures raw.None? ==> sent == old(sent) && (chunk == "" || Pieces(input) == sent)
      ensures raw.Some? ==> |sent| == |old(sent)| + 1 && old(sent) <= sent && raw == Some(sent[|old(sent)|].raw)
    {
      raw := None;
      ghost var before := State();
      ReadStep(before, input, chunk);
      Unfold(buftotal + chunk);
      if |chunk| > 0 {
        buftotal := buftotal + chunk;
        var m := Find(buftotal);
        if m.Some? {
          raw := Some(buftotal[m.value.start + 1..m.value.end - 2]);
          sent := sent + [PieceOf(buftotal, m.value)];
          buftotal := buftotal[m.value.end..];
        }
      }
      input := input + chunk;
    }
  }
}
