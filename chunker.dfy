/**
  `chunk_text`: splitting a chapter's plain text into pieces of at most
  `size` characters, preferring a paragraph break, then a line break in the
  second half of the window, then a hard cut.
 */
module Chunker {
  import opened Text

  /** A paragraph break ("\n\n") starting in the second half of the window and ending inside it. */
  predicate ParagraphBreakIn(r: string, size: int, p: int) {
    size <= 2 * p && p + 2 <= size && OccursAt(r, "\n\n", p)
  }

  /** A line break ("\n") in the second half of the window. */
  predicate LineBreakIn(r: string, size: int, p: int) {
    size <= 2 * p && p + 1 <= size && OccursAt(r, "\n", p)
  }

  /**
    Where a remainder longer than the window is cut (`split_pos`): the last
    paragraph break if it lies in the second half of the window, else the last
    line break if that does, else exactly at `size`.
   */
  function BreakPos(r: string, size: int): (b: int)
    requires 0 < size < |r|
    ensures 0 < b <= size && size <= 2 * b
  {
    var para := RFind(r, "\n\n", size);
    var line := RFind(r, "\n", size);
    if para != -1 && size <= 2 * para then para
    else if line != -1 && size <= 2 * line then line
    else size
  }

  /** The chunks of a remainder `r`, in order; `chunk_text(text, size)` is `Chunks(Strip(text), size)`. */
  function Chunks(r: string, size: int): (cs: seq<string>)
    requires size > 0
    ensures forall i :: 0 <= i < |cs| ==> 0 < |cs[i]| <= size
    ensures cs == [] <==> r == []
    ensures r != [] && |r| <= size ==> cs == [r]
    decreases |r|
  {
    if r == [] then []
    else if |r| <= size then [r]
    else
      var b := BreakPos(r, size);
      [r[..b]] + Chunks(LStrip(r[b..]), size)
  }

  /**
    When the remainder does not fit, the first chunk is cut at a break chosen in
    a fixed order of preference, and as late as that choice allows.
   */
  lemma BreakPriority(r: string, size: int)
    requires 0 < size < |r|
    ensures var b := |Chunks(r, size)[0]|;
      && Chunks(r, size)[0] == r[..b]
      && ((exists p :: ParagraphBreakIn(r, size, p)) ==>
            ParagraphBreakIn(r, size, b) && forall q :: b < q ==> !ParagraphBreakIn(r, size, q))
      && ((forall p :: !ParagraphBreakIn(r, size, p)) && (exists p :: LineBreakIn(r, size, p)) ==>
            LineBreakIn(r, size, b) && forall q :: b < q ==> !LineBreakIn(r, size, q))
      && ((forall p :: !ParagraphBreakIn(r, size, p)) && (forall p :: !LineBreakIn(r, size, p)) ==>
            b == size)
  {
    var para := RFind(r, "\n\n", size);
    var line := RFind(r, "\n", size);
    assert Chunks(r, size)[0] == r[..BreakPos(r, size)];
    RFindWindow(r, "\n\n", size);
    if para != -1 && size <= 2 * para {
      assert ParagraphBreakIn(r, size, para);
    } else {
      assert forall p :: !ParagraphBreakIn(r, size, p);
      RFindWindow(r, "\n", size);
      if line != -1 && size <= 2 * line {
        assert LineBreakIn(r, size, line);
      } else {
        assert forall p :: !LineBreakIn(r, size, p);
      }
    }
  }

  /** The last occurrence of `pat` ending inside the window, read for the second half of the window. */
  lemma RFindWindow(r: string, pat: string, size: int)
    requires size > 0
    ensures var pos := RFind(r, pat, size);
      && (pos != -1 && size <= 2 * pos ==>
            && pos + |pat| <= size && OccursAt(r, pat, pos)
            && forall q :: pos < q && q + |pat| <= size ==> !OccursAt(r, pat, q))
      && (pos == -1 || size > 2 * pos ==>
            forall q :: size <= 2 * q && q + |pat| <= size ==> !OccursAt(r, pat, q))
  {
    RFindSpec(r, pat, size);
  }

  /**
    The whitespace dropped after each chunk: the break's newline(s) and what
    `lstrip` removes from the rest; empty after a final chunk that fits.
   */
  function Gaps(r: string, size: int): (gs: seq<string>)
    requires size > 0
    ensures |gs| == |Chunks(r, size)|
    ensures forall i :: 0 <= i < |gs| ==> AllSpace(gs[i])
    decreases |r|
  {
    if r == [] then []
    else if |r| <= size then [[]]
    else
      var b := BreakPos(r, size);
      var rest := r[b..];
      var k := LeadingSpace(rest);
      [rest[..k]] + Gaps(rest[k..], size)
  }

  /** chunk 0, gap 0, chunk 1, gap 1, ... */
  function Interleave(chunks: seq<string>, gaps: seq<string>): string
    requires |chunks| == |gaps|
  {
    if chunks == [] then [] else chunks[0] + gaps[0] + Interleave(chunks[1..], gaps[1..])
  }

  lemma InterleaveCons(c: string, g: string, cs: seq<string>, gs: seq<string>)
    requires |cs| == |gs|
    ensures Interleave([c] + cs, [g] + gs) == c + g + Interleave(cs, gs)
  {
    assert ([c] + cs)[1..] == cs && ([g] + gs)[1..] == gs;
  }

  lemma CutTwice(r: string, b: nat, k: nat)
    requires b <= |r| && k <= |r| - b
    ensures r[..b] + r[b..][..k] + r[b..][k..] == r
  {
    assert r[b..] == r[b..][..k] + r[b..][k..];
    assert r == r[..b] + r[b..];
  }

  /** The chunks, put back together with the whitespace between them, are exactly the remainder. */
  lemma {:induction false} Reassemble(r: string, size: int)
    requires size > 0
    ensures Interleave(Chunks(r, size), Gaps(r, size)) == r
    decreases |r|
  {
    if |r| > size {
      var b := BreakPos(r, size);
      var rest := r[b..];
      var k := LeadingSpace(rest);
      var cs, gs := Chunks(rest[k..], size), Gaps(rest[k..], size);
      Reassemble(rest[k..], size);
      assert Chunks(r, size) == [r[..b]] + cs;
      assert Gaps(r, size) == [rest[..k]] + gs;
      InterleaveCons(r[..b], rest[..k], cs, gs);
      CutTwice(r, b, k);
    } else if r != [] {
      assert Interleave([r], [[]]) == r + [] + [];
    }
  }

  lemma {:induction false} NonSpaceInterleave(cs: seq<string>, gs: seq<string>)
    requires |cs| == |gs|
    requires forall i :: 0 <= i < |gs| ==> AllSpace(gs[i])
    ensures NonSpace(Interleave(cs, gs)) == NonSpace(Concat(cs))
  {
    if cs != [] {
      NonSpaceInterleave(cs[1..], gs[1..]);
      NonSpaceEmpty(gs[0]);
      NonSpaceAppend(cs[0] + gs[0], Interleave(cs[1..], gs[1..]));
      NonSpaceAppend(cs[0], gs[0]);
      NonSpaceAppend(cs[0], Concat(cs[1..]));
    }
  }

  /** No visible character of the text is lost, duplicated or moved by chunking. */
  lemma ChunksKeepText(text: string, size: int)
    requires size > 0
    ensures NonSpace(Concat(Chunks(Strip(text), size))) == NonSpace(text)
  {
    var r := Strip(text);
    StripKeepsText(text);
    Reassemble(r, size);
    NonSpaceInterleave(Chunks(r, size), Gaps(r, size));
  }

  lemma AppendAssoc(a: seq<string>, b: seq<string>, c: seq<string>)
    ensures a + b + c == a + (b + c)
  {
  }

  /** `chunk_text(text, chunk_size)` */
  /** The cut position `chunk_text` searches for in a remainder longer than the window. */
  method FindSplit(remaining: string, size: int) returns (splitPos: int)
    requires 0 < size < |remaining|
    ensures splitPos == BreakPos(remaining, size)
  {
    splitPos := RFind(remaining, "\n\n", size);
    if splitPos == -1 || 2 * splitPos < size {
      var singlePos := RFind(remaining, "\n", size);
      if singlePos != -1 && 2 * singlePos >= size {
        splitPos := singlePos;
      }
    }
    if splitPos == -1 || 2 * splitPos < size {
      splitPos := size;
    }
  }

  method ChunkText(text: string, size: int) returns (chunks: seq<string>)
    requires size > 0
    ensures chunks == Chunks(Strip(text), size)
    ensures forall i :: 0 <= i < |chunks| ==> 0 < |chunks[i]| <= size
    ensures chunks == [] <==> AllSpace(text)
    ensures !AllSpace(text) && |Strip(text)| <= size ==> chunks == [Strip(text)]
    ensures Interleave(chunks, Gaps(Strip(text), size)) == Strip(text)
    ensures NonSpace(Concat(chunks)) == NonSpace(text)
  {
    chunks := [];
    var remaining := Strip(text);
    while remaining != []
      invariant Chunks(Strip(text), size) == chunks + Chunks(remaining, size)
      decreases |remaining|
    {
      if |remaining| <= size {
        chunks := chunks + [remaining];
        break;
      }
      var splitPos := FindSplit(remaining, size);
      var next := LStrip(remaining[splitPos..]);
      assert |next| < |remaining|;
      var piece := remaining[..splitPos];
      ghost var later := Chunks(next, size);
      assert Chunks(remaining, size) == [piece] + later;
      AppendAssoc(chunks, [piece], later);
      chunks := chunks + [piece];
      remaining := next;
    }
    Reassemble(Strip(text), size);
    ChunksKeepText(text, size);
  }
}
