/**
 * The chunker of the retrieval engine (`RAGSystem._chunk_text`): text longer
 * than the chunk size is cut into overlapping windows whose ends are moved back
 * to a sentence or line boundary when one lies close enough, and each window is
 * kept, stripped of surrounding whitespace, unless it is blank.
 *
 * `Windows` and `Chunks` are the reference definition (the windows, one at a
 * time, then their stripped pieces with the blank ones dropped); `ChunkText` is
 * the loop the source runs, proved equal to it.
 */
module Chunker {
  import opened Strings

  const DefaultChunkSize: nat := 500
  const DefaultOverlap: nat := 100
  /** How far before the raw window end the boundary scan may look. */
  const LookBack: nat := 50

  /** The characters a window may be cut after: sentence ends and newlines. */
  predicate IsTerminator(c: char) {
    c == '.' || c == '!' || c == '?' || c == '\n'
  }

  function Max(a: int, b: int): int { if a >= b then a else b }

  function Min(a: int, b: int): int { if a <= b then a else b }

  /**
   * The backward boundary scan: looks at text[i], text[i-1], ..., text[lo+1] and
   * cuts just after the first terminator it meets; when there is none the cut
   * stays at `dflt`.
   */
  function ScanBack(text: string, i: int, lo: nat, dflt: int): (e: int)
    requires i < |text|
    decreases i - lo
    ensures e == dflt || lo + 1 < e <= i + 1
  {
    if i <= lo then dflt
    else if IsTerminator(text[i]) then i + 1
    else ScanBack(text, i - 1, lo, dflt)
  }

  /**
   * The scan cuts just after the LAST terminator of text[lo+1..i], and keeps
   * `dflt` exactly when that range holds none.
   */
  lemma {:induction false} ScanBackFindsLastTerminator(text: string, i: int, lo: nat, dflt: int)
    requires i < |text|
    decreases i - lo
    ensures var e := ScanBack(text, i, lo, dflt);
      || (e == dflt && forall k :: lo < k <= i ==> !IsTerminator(text[k]))
      || (lo + 1 < e <= i + 1 && IsTerminator(text[e - 1])
          && forall k :: e - 1 < k <= i ==> !IsTerminator(text[k]))
  {
    if i > lo && !IsTerminator(text[i]) {
      ScanBackFindsLastTerminator(text, i - 1, lo, dflt);
    }
  }

  /**
   * The exclusive end of the window that starts at `start`. It may lie past the
   * end of the text (Python slicing clamps it). The scan starts AT the raw end
   * `start + chunkSize`, so a terminator there lengthens the window by one.
   */
  function CutEnd(text: string, start: nat, chunkSize: nat): (end: int)
    requires start < |text| && 1 <= chunkSize
    ensures start + chunkSize / 2 < end <= start + chunkSize + 1
  {
    var end := start + chunkSize;
    if end < |text| then ScanBack(text, end, Max(start + chunkSize / 2, end - LookBack), end)
    else end
  }

  /**
   * Where a window is cut: at the raw end when the text runs out first;
   * otherwise just after the last terminator of the scanned range, which may be
   * the character at the raw end itself; and at the raw end when the range has none.
   */
  lemma CutEndAtBoundary(text: string, start: nat, chunkSize: nat)
    requires start < |text| && 1 <= chunkSize
    ensures var end := CutEnd(text, start, chunkSize);
      && (start + chunkSize >= |text| ==> end == start + chunkSize)
      && (end != start + chunkSize ==> end <= |text| && IsTerminator(text[end - 1]))
      && (end == start + chunkSize + 1 ==> IsTerminator(text[start + chunkSize]))
  {
    var end := start + chunkSize;
    if end < |text| {
      ScanBackFindsLastTerminator(text, end, Max(start + chunkSize / 2, end - LookBack), end);
    }
  }

  /** A raw window: `start` and the (unclamped, exclusive) cut `end`. */
  datatype Window = Window(start: nat, end: int)

  /**
   * The windows the chunker visits from `start` on: each next window starts
   * `overlap` characters before the previous cut, and the last one is the first
   * whose next start would lie at or past the end of the text.
   */
  function Windows(text: string, chunkSize: nat, overlap: nat, start: nat): (ws: seq<Window>)
    requires 1 <= chunkSize && overlap <= chunkSize / 2
    requires start < |text|
    decreases |text| - start
    ensures |ws| >= 1 && ws[0] == Window(start, CutEnd(text, start, chunkSize))
  {
    var end := CutEnd(text, start, chunkSize);
    if end - overlap >= |text| then [Window(start, end)]
    else [Window(start, end)] + Windows(text, chunkSize, overlap, end - overlap)
  }

  /**
   * Every window starts inside the text and is cut where `CutEnd` says, so more
   * than half a chunk and at most one character more than a chunk after its start.
   */
  lemma {:induction false} WindowsBounds(text: string, chunkSize: nat, overlap: nat, start: nat, ws: seq<Window>)
    requires 1 <= chunkSize && overlap <= chunkSize / 2
    requires start < |text| && ws == Windows(text, chunkSize, overlap, start)
    decreases |text| - start
    ensures forall k :: 0 <= k < |ws| ==>
      && start <= ws[k].start < |text|
      && ws[k].end == CutEnd(text, ws[k].start, chunkSize)
      && ws[k].start + chunkSize / 2 < ws[k].end <= ws[k].start + chunkSize + 1
  {
    var end := CutEnd(text, start, chunkSize);
    if end - overlap < |text| {
      var rest := Windows(text, chunkSize, overlap, end - overlap);
      WindowsBounds(text, chunkSize, overlap, end - overlap, rest);
      assert ws == [Window(start, end)] + rest;
      forall k | 1 <= k < |ws|
        ensures start <= ws[k].start
      {
        assert ws[k] == rest[k - 1];
      }
    }
  }

  /** Each next window starts `overlap` before the previous cut, and that start is still inside the text. */
  lemma {:induction false} WindowsLinked(text: string, chunkSize: nat, overlap: nat, start: nat, ws: seq<Window>)
    requires 1 <= chunkSize && overlap <= chunkSize / 2
    requires start < |text| && ws == Windows(text, chunkSize, overlap, start)
    decreases |text| - start
    ensures forall i, j :: 0 <= i && j == i + 1 && j < |ws| ==>
      ws[j].start == ws[i].end - overlap && ws[i].end - overlap < |text|
  {
    var end := CutEnd(text, start, chunkSize);
    if end - overlap < |text| {
      var rest := Windows(text, chunkSize, overlap, end - overlap);
      WindowsLinked(text, chunkSize, overlap, end - overlap, rest);
      assert ws == [Window(start, end)] + rest;
      forall i, j | 1 <= i && j == i + 1 && j < |ws|
        ensures ws[j].start == ws[i].end - overlap && ws[i].end - overlap < |text|
      {
        assert ws[i] == rest[i - 1] && ws[j] == rest[j - 1];
      }
    }
  }

  /** The last window is the first whose cut minus the overlap reaches the end of the text. */
  lemma {:induction false} WindowsLast(text: string, chunkSize: nat, overlap: nat, start: nat)
    requires 1 <= chunkSize && overlap <= chunkSize / 2
    requires start < |text|
    decreases |text| - start
    ensures var ws := Windows(text, chunkSize, overlap, start);
      ws[|ws| - 1].end - overlap >= |text|
  {
    var ws := Windows(text, chunkSize, overlap, start);
    var end := CutEnd(text, start, chunkSize);
    if end - overlap < |text| {
      var rest := Windows(text, chunkSize, overlap, end - overlap);
      WindowsLast(text, chunkSize, overlap, end - overlap);
      assert ws[|ws| - 1] == rest[|rest| - 1];
    }
  }

  /** Every window starts inside the text and ends after it starts. */
  ghost predicate WellFormed(text: string, ws: seq<Window>) {
    forall k :: 0 <= k < |ws| ==> ws[k].start < |text| && ws[k].start < ws[k].end
  }

  /**
   * The windows start at 0, start strictly later each time without leaving a
   * gap after the previous window, are never longer than `chunkSize + 1`, and
   * the last one reaches the end of the text.
   */
  lemma WindowsProgress(text: string, chunkSize: nat, overlap: nat)
    requires 1 <= chunkSize && overlap <= chunkSize / 2 && |text| > 0
    ensures var ws := Windows(text, chunkSize, overlap, 0);
      && ws[0].start == 0
      && WellFormed(text, ws)
      && (forall k :: 0 <= k < |ws| ==> ws[k].end <= ws[k].start + chunkSize + 1)
      && (forall i, j :: 0 <= i && j == i + 1 && j < |ws| ==> ws[i].start < ws[j].start <= ws[i].end)
      && ws[|ws| - 1].end >= |text|
  {
    var ws := Windows(text, chunkSize, overlap, 0);
    WindowsBounds(text, chunkSize, overlap, 0, ws);
    WindowsLinked(text, chunkSize, overlap, 0, ws);
    WindowsLast(text, chunkSize, overlap, 0);
  }

  /** Every position of the text lies inside the window `k` of those from `start` on (no gaps). */
  lemma {:induction false} WindowsCover(text: string, chunkSize: nat, overlap: nat, start: nat, p: nat)
      returns (k: nat)
    requires 1 <= chunkSize && overlap <= chunkSize / 2
    requires start <= p < |text|
    ensures var ws := Windows(text, chunkSize, overlap, start);
      k < |ws| && ws[k].start <= p < ws[k].end
    decreases |text| - start
  {
    var ws := Windows(text, chunkSize, overlap, start);
    var end := CutEnd(text, start, chunkSize);
    if p < end {
      k := 0;
    } else {
      var next := end - overlap;
      var rest := Windows(text, chunkSize, overlap, next);
      assert ws == [Window(start, end)] + rest;
      var k' := WindowsCover(text, chunkSize, overlap, next, p);
      k := k' + 1;
      assert ws[k] == rest[k'];
    }
  }

  /** The characters a window covers: Python's `text[start:end]`, which clamps both ends. */
  function Piece(text: string, w: Window): string {
    text[PieceStart(text, w)..PieceEnd(text, w)]
  }

  /** Where Python's `text[start:end]` begins once clamped. */
  function PieceStart(text: string, w: Window): (lo: nat)
    ensures lo <= |text|
  {
    Min(w.start, |text|)
  }

  /** Where Python's `text[start:end]` ends once clamped. */
  function PieceEnd(text: string, w: Window): (hi: nat)
    ensures PieceStart(text, w) <= hi <= |text|
  {
    Max(PieceStart(text, w), Min(w.end, |text|))
  }

  /** `text[start:end].strip()`, located by indices of `text`. */
  function StrippedPiece(text: string, w: Window): string {
    var lo, hi := PieceStart(text, w), PieceEnd(text, w);
    text[StripStart(text, lo, hi)..StripEnd(text, lo, hi)]
  }

  /** The index form of a window's stripped piece is Python's `text[start:end].strip()`. */
  lemma StrippedPieceIsStrip(text: string, w: Window)
    ensures StrippedPiece(text, w) == Strip(Piece(text, w))
  {
    StripOfSlice(text, PieceStart(text, w), PieceEnd(text, w));
  }

  /** The stripped pieces of the windows, in window order. */
  function Pieces(text: string, ws: seq<Window>): (ps: seq<string>)
    ensures |ps| == |ws|
  {
    seq(|ws|, k requires 0 <= k < |ws| => StrippedPiece(text, ws[k]))
  }

  /** A stripped piece is kept as a chunk unless it is blank. */
  function Keep(c: string): (r: seq<string>) {
    if c == [] then [] else [c]
  }

  /** The non-blank strings of `ps`, in order (defined from the back, as the loop appends). */
  function NonBlank(ps: seq<string>): seq<string> {
    if ps == [] then [] else NonBlank(ps[..|ps| - 1]) + Keep(ps[|ps| - 1])
  }

  /** One more piece: the chunks so far, then this piece unless it is blank. */
  lemma NonBlankSnoc(ps: seq<string>, n: nat)
    requires n < |ps|
    ensures NonBlank(ps[..n + 1]) == NonBlank(ps[..n]) + Keep(ps[n])
  {
    assert ps[..n + 1][..n] == ps[..n];
  }

  /** `NonBlank` keeps exactly the non-blank strings. */
  lemma {:induction false} NonBlankMembers(ps: seq<string>)
    ensures forall c :: c in NonBlank(ps) <==> c in ps && c != []
  {
    if ps != [] {
      var init := ps[..|ps| - 1];
      NonBlankMembers(init);
      assert ps == init + [ps[|ps| - 1]];
    }
  }

  /** The chunks of `text`: the whole text when it fits in one chunk, else the non-blank stripped windows. */
  function Chunks(text: string, chunkSize: nat, overlap: nat): seq<string>
    requires 1 <= chunkSize && overlap <= chunkSize / 2
  {
    if |text| <= chunkSize then [text]
    else NonBlank(Pieces(text, Windows(text, chunkSize, overlap, 0)))
  }

  /** `c` is non-blank, has no surrounding whitespace and is a slice of `text`. */
  ghost predicate StrippedSliceOf(text: string, c: string) {
    c != [] && !IsSpace(c[0]) && !IsSpace(c[|c| - 1]) && Contains(text, c)
  }

  /** A window's stripped piece, when not blank, is a stripped slice of the text. */
  lemma StrippedPieceIsSlice(text: string, w: Window)
    ensures StrippedPiece(text, w) != [] ==> StrippedSliceOf(text, StrippedPiece(text, w))
  {
    var lo, hi := PieceStart(text, w), PieceEnd(text, w);
    var a, e := StripStart(text, lo, hi), StripEnd(text, lo, hi);
    var c := StrippedPiece(text, w);
    if c != [] {
      SkipSpacesIsMaximalRun(text, lo, hi);
      TrimEndIsMaximalRun(text, a, hi);
      assert c[0] == text[a] && c[|c| - 1] == text[e - 1];
      assert OccursAt(text, c, a);
    }
  }

  /**
   * A text that fits in one chunk is returned whole (not stripped, possibly
   * blank); a longer text yields only non-blank stripped slices of itself, and
   * every non-blank stripped window is among them.
   */
  lemma ChunksAreNonBlankSlices(text: string, chunkSize: nat, overlap: nat)
    requires 1 <= chunkSize && overlap <= chunkSize / 2
    ensures |text| <= chunkSize ==> Chunks(text, chunkSize, overlap) == [text]
    ensures |text| > chunkSize ==>
      && (forall c :: c in Chunks(text, chunkSize, overlap) ==> StrippedSliceOf(text, c))
      && (forall w :: w in Windows(text, chunkSize, overlap, 0) && StrippedPiece(text, w) != [] ==>
            StrippedPiece(text, w) in Chunks(text, chunkSize, overlap))
  {
    if |text| > chunkSize {
      var ws := Windows(text, chunkSize, overlap, 0);
      var ps := Pieces(text, ws);
      NonBlankMembers(ps);
      forall c | c in NonBlank(ps)
        ensures StrippedSliceOf(text, c)
      {
        var k :| 0 <= k < |ps| && ps[k] == c;
        StrippedPieceIsSlice(text, ws[k]);
      }
      forall w | w in ws && StrippedPiece(text, w) != []
        ensures StrippedPiece(text, w) in NonBlank(ps)
      {
        var k :| 0 <= k < |ws| && ws[k] == w;
        assert ps[k] == StrippedPiece(text, w);
      }
    }
  }

  /** The backward scan of one window, as the source's inner `for` loop with its `break`. */
  method FindCut(text: string, start: nat, chunkSize: nat) returns (end: int)
    requires start < |text| && 1 <= chunkSize
    ensures end == CutEnd(text, start, chunkSize)
  {
    end := start + chunkSize;
    if end < |text| {
      var lo := Max(start + chunkSize / 2, end - LookBack);
      var i := end;
      while i > lo
        invariant lo <= i <= end == start + chunkSize
        invariant ScanBack(text, i, lo, end) == CutEnd(text, start, chunkSize)
        decreases i
      {
        if IsTerminator(text[i]) {
          end := i + 1;
          break;
        }
        i := i - 1;
      }
    }
  }

  /**
   * `_chunk_text`: the window loop, proved to produce exactly
   * `Chunks(text, chunkSize, overlap)`. The bound on `overlap` makes every step
   * advance, so the loop ends.
   */
  method ChunkText(text: string, chunkSize: nat, overlap: nat) returns (chunks: seq<string>)
    requires 1 <= chunkSize && overlap <= chunkSize / 2
    ensures chunks == Chunks(text, chunkSize, overlap)
    ensures |text| <= chunkSize ==> chunks == [text]
  {
    if |text| <= chunkSize {
      return [text];
    }
    chunks := [];
    var start: nat := 0;
    ghost var ws := Windows(text, chunkSize, overlap, 0);
    ghost var ps := Pieces(text, ws);
    ghost var n := 0;
    while start < |text|
      invariant 0 <= n < |ws| && start == ws[n].start < |text|
      invariant chunks == NonBlank(ps[..n])
      decreases |text| - start
    {
      WindowStep(text, chunkSize, overlap, ws, n);
      var end := FindCut(text, start, chunkSize);
      var chunk := Strip(text[start..Min(end, |text|)]);
      PieceStep(text, ws, ps, n);
      NonBlankSnoc(ps, n);
      if chunk != [] {
        chunks := chunks + [chunk];
      }
      if end - overlap >= |text| {
        assert ps[..n + 1] == ps;
        break;
      }
      start := end - overlap;
      n := n + 1;
    }
  }

  /** What the window loop needs to know about window `n`: where it is cut and which window follows it. */
  lemma WindowStep(text: string, chunkSize: nat, overlap: nat, ws: seq<Window>, n: nat)
    requires 1 <= chunkSize && overlap <= chunkSize / 2 && |text| > 0
    requires ws == Windows(text, chunkSize, overlap, 0) && n < |ws|
    ensures ws[n].start < |text| && ws[n].end == CutEnd(text, ws[n].start, chunkSize)
    ensures ws[n].end - overlap < |text| ==> n + 1 < |ws| && ws[n + 1].start == ws[n].end - overlap
    ensures ws[n].end - overlap >= |text| ==> n + 1 == |ws|
  {
    WindowsBounds(text, chunkSize, overlap, 0, ws);
    WindowsLinked(text, chunkSize, overlap, 0, ws);
    WindowsLast(text, chunkSize, overlap, 0);
    if n + 1 < |ws| {
      assert ws[n + 1].start == ws[n].end - overlap;
    }
  }

  /** The piece the loop strips for window `n` is the `n`-th stripped piece. */
  lemma PieceStep(text: string, ws: seq<Window>, ps: seq<string>, n: nat)
    requires ps == Pieces(text, ws) && n < |ws|
    requires ws[n].start < ws[n].end && ws[n].start < |text|
    ensures Strip(text[ws[n].start..Min(ws[n].end, |text|)]) == ps[n]
  {
    StrippedPieceIsStrip(text, ws[n]);
  }
}
