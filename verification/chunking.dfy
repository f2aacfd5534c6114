/**
  Sliding-window chunking: `chunk_document` of `backend/eval/pipeline.py`.  A page is a string.
 */
module Chunking {
  import opened Seqs
  import opened Strings
  import opened Text

  const CHUNK_CHARS: nat := 1200
  const OVERLAP: nat := 200
  const STRIDE: nat := 1000 // CHUNK_CHARS - OVERLAP
  const SHORTEST: nat := 40

  // ----- Windows -----

  function Window(text: string, start: nat): (w: string)
    requires start <= |text|
    ensures |w| == if start + CHUNK_CHARS <= |text| then CHUNK_CHARS else |text| - start
  {
    text[start..if start + CHUNK_CHARS <= |text| then start + CHUNK_CHARS else |text|]
  }

  /** Every window from `start` on. */
  function Windows(text: string, start: nat): seq<string>
    requires start < |text|
    decreases |text| - start
  {
    [Window(text, start)] + if start + CHUNK_CHARS >= |text| then [] else Windows(text, start + STRIDE)
  }

  predicate LongEnough(piece: string) { |Strip(piece, IsSpace)| >= SHORTEST }

  /** The chunks of one normalised page. */
  function PageChunks(text: string): seq<string> {
    if |text| < SHORTEST then [] else Filter(Windows(text, 0), LongEnough)
  }

  /** One page of `chunk_document`: the loop over `start`. */
  method ChunkPage(text: string) returns (chunks: seq<string>)
    ensures chunks == PageChunks(text)
  {
    chunks := [];
    if |text| < SHORTEST { return; }
    var start := 0;
    while start < |text|
      invariant start < |text| && chunks + Filter(Windows(text, start), LongEnough) == PageChunks(text)
      decreases |text| - start
    {
      var piece := Window(text, start);
      ghost var rest := if start + CHUNK_CHARS >= |text| then [] else Windows(text, start + STRIDE);
      FilterCons(piece, rest, LongEnough);
      if |Strip(piece, IsSpace)| >= SHORTEST { chunks := chunks + [piece]; }
      if start + CHUNK_CHARS >= |text| { break; }
      start := start + STRIDE;
    }
  }

  datatype Chunk = Chunk(page: nat, text: string)

  function OnPage(page: nat, texts: seq<string>): seq<Chunk> {
    if texts == [] then [] else [Chunk(page, texts[0])] + OnPage(page, texts[1..])
  }

  /** The chunks of pages `from`, `from + 1`, ..., given each page's texts. */
  function Numbered(pages: seq<seq<string>>, from: nat): seq<Chunk> {
    if pages == [] then [] else OnPage(from, pages[0]) + Numbered(pages[1..], from + 1)
  }

  function ChunkLists(pages: seq<string>): (lists: seq<seq<string>>)
    ensures |lists| == |pages|
  {
    if pages == [] then [] else [PageChunks(Normalise(pages[0]))] + ChunkLists(pages[1..])
  }

  function DocumentChunks(pages: seq<string>): seq<Chunk> {
    Numbered(ChunkLists(pages), 1)
  }

  lemma NextPage(pages: seq<string>, i: nat, from: nat)
    requires i < |pages|
    ensures Numbered(ChunkLists(pages[i..]), from)
         == OnPage(from, PageChunks(Normalise(pages[i]))) + Numbered(ChunkLists(pages[i + 1..]), from + 1)
  {
    var texts, rest := PageChunks(Normalise(pages[i])), ChunkLists(pages[i + 1..]);
    assert pages[i..][1..] == pages[i + 1..];
    assert ChunkLists(pages[i..]) == [texts] + rest;
    assert ([texts] + rest)[1..] == rest;
  }

  /** `chunk_document` over the extracted pages, numbered from 1. */
  method ChunkDocument(pages: seq<string>) returns (chunks: seq<Chunk>)
    ensures chunks == DocumentChunks(pages)
  {
    chunks := [];
    for i := 0 to |pages|
      invariant chunks + Numbered(ChunkLists(pages[i..]), i + 1) == DocumentChunks(pages)
    {
      var pieces := ChunkPage(Normalise(pages[i]));
      NextPage(pages, i, i + 1);
      chunks := chunks + OnPage(i + 1, pieces);
    }
  }

  // ----- The filter never fires -----

  lemma StripRightLoses(s: string)
    requires forall i :: 0 < i < |s| ==> !(IsSpace(s[i - 1]) && IsSpace(s[i]))
    ensures |StripRight(s, IsSpace)| + 1 >= |s|
    ensures s != [] && !IsSpace(s[|s| - 1]) ==> StripRight(s, IsSpace) == s
  {
    if s != [] && IsSpace(s[|s| - 1]) {
      var t := s[..|s| - 1];
      if t != [] { assert t[|t| - 1] == s[|s| - 2]; }
      assert StripRight(t, IsSpace) == t;
    }
  }

  lemma StripLeftLoses(s: string)
    requires forall i :: 0 < i < |s| ==> !(IsSpace(s[i - 1]) && IsSpace(s[i]))
    ensures StripLeft(s, IsSpace) == s || (s != [] && StripLeft(s, IsSpace) == s[1..])
    ensures s != [] && !IsSpace(s[0]) ==> StripLeft(s, IsSpace) == s
  {
    if |s| > 1 && IsSpace(s[0]) { assert s[1..][0] == s[1]; }
  }

  /** Stripping a window of a normal page takes at most a blank from each end. */
  lemma StripLoses(text: string, start: nat)
    requires Normal(text) && start < |text|
    ensures |Strip(Window(text, start), IsSpace)| + 2 >= |Window(text, start)|
    ensures start == 0 && |text| <= CHUNK_CHARS ==> Strip(Window(text, start), IsSpace) == text
  {
    var w := Window(text, start);
    forall i | 0 < i < |w| ensures !(IsSpace(w[i - 1]) && IsSpace(w[i])) {
      assert w[i - 1] == text[start + i - 1] && w[i] == text[start + i];
    }
    StripLeftLoses(w);
    var u := StripLeft(w, IsSpace);
    forall i | 0 < i < |u| ensures !(IsSpace(u[i - 1]) && IsSpace(u[i])) {
      assert u == w || (u[i - 1] == w[i] && u[i] == w[i + 1]);
    }
    StripRightLoses(u);
  }

  lemma WindowIsLong(text: string, start: nat)
    requires Normal(text) && SHORTEST <= |text| && start < |text|
    requires start == 0 || start + OVERLAP < |text|
    ensures LongEnough(Window(text, start))
  {
    StripLoses(text, start);
  }

  lemma {:induction false} WindowsAreLong(text: string, start: nat, piece: string)
    requires Normal(text) && SHORTEST <= |text| && start < |text|
    requires start == 0 || start + OVERLAP < |text|
    requires piece in Windows(text, start)
    ensures LongEnough(piece)
    decreases |text| - start
  {
    if piece == Window(text, start) {
      WindowIsLong(text, start);
    } else {
      WindowsAreLong(text, start + STRIDE, piece);
    }
  }

  lemma NoneFiltered(text: string, start: nat)
    requires Normal(text) && SHORTEST <= |text| && start < |text|
    requires start == 0 || start + OVERLAP < |text|
    ensures Filter(Windows(text, start), LongEnough) == Windows(text, start)
  {
    forall piece | piece in Windows(text, start) ensures LongEnough(piece) { WindowsAreLong(text, start, piece); }
    FilterAll(Windows(text, start), LongEnough);
  }

  lemma PageIsWindows(raw: string)
    requires |Normalise(raw)| >= SHORTEST
    ensures PageChunks(Normalise(raw)) == Windows(Normalise(raw), 0)
  {
    NormaliseNormalises(raw);
    NoneFiltered(Normalise(raw), 0);
  }

  // ----- Nothing is lost -----

  function Tails(windows: seq<string>): string {
    if windows == [] then [] else (if |windows[0]| >= OVERLAP then windows[0][OVERLAP..] else []) + Tails(windows[1..])
  }

  /** The first chunk, and every later one without the characters it shares with its predecessor. */
  function Rebuild(windows: seq<string>): string {
    if windows == [] then [] else windows[0] + Tails(windows[1..])
  }

  lemma {:induction false} TailsRebuild(text: string, start: nat)
    requires start + OVERLAP <= |text| && start < |text|
    ensures Tails(Windows(text, start)) == text[start + OVERLAP..]
    decreases |text| - start
  {
    var w := Window(text, start);
    if start + CHUNK_CHARS >= |text| {
      assert [w][1..] == [];
    } else {
      var rest := Windows(text, start + STRIDE);
      assert ([w] + rest)[1..] == rest;
      TailsRebuild(text, start + STRIDE);
      assert w[OVERLAP..] + text[start + CHUNK_CHARS..] == text[start + OVERLAP..];
    }
  }

  lemma RebuildCons(w: string, rest: seq<string>)
    ensures Rebuild([w] + rest) == w + Tails(rest)
  {
    assert ([w] + rest)[1..] == rest;
  }

  lemma WindowsRebuild(text: string)
    requires text != []
    ensures Rebuild(Windows(text, 0)) == text
  {
    var w := Window(text, 0);
    if CHUNK_CHARS >= |text| {
      RebuildCons(w, []);
    } else {
      RebuildCons(w, Windows(text, STRIDE));
      TailsRebuild(text, STRIDE);
      assert w == text[..CHUNK_CHARS];
    }
  }

  /** `b` follows `a` on the page, sharing exactly the overlap and adding something new. */
  ghost predicate Follows(a: string, b: string) {
    |a| == CHUNK_CHARS && OVERLAP < |b| <= CHUNK_CHARS && a[STRIDE..] == b[..OVERLAP]
  }

  lemma {:induction false} WindowsFollow(text: string, start: nat)
    requires start < |text|
    ensures forall i :: 0 < i < |Windows(text, start)| ==> Follows(Windows(text, start)[i - 1], Windows(text, start)[i])
    decreases |text| - start
  {
    if start + CHUNK_CHARS < |text| {
      var next := start + STRIDE;
      WindowsFollow(text, next);
      assert Windows(text, next)[0] == Window(text, next);
      assert Window(text, start)[STRIDE..] == text[next..start + CHUNK_CHARS] == Window(text, next)[..OVERLAP];
      FollowsCons(Window(text, start), Windows(text, next));
    }
  }

  lemma FollowsCons(w: string, rest: seq<string>)
    requires rest != [] && Follows(w, rest[0])
    requires forall i :: 0 < i < |rest| ==> Follows(rest[i - 1], rest[i])
    ensures forall i :: 0 < i <= |rest| ==> Follows(([w] + rest)[i - 1], ([w] + rest)[i])
  {
    forall i | 0 < i <= |rest| ensures Follows(([w] + rest)[i - 1], ([w] + rest)[i]) {
      if i > 1 { assert Follows(rest[i - 2], rest[i - 1]); }
    }
  }

  /** For every raw page: the chunks are the page, and a page under 40 characters has none. */
  lemma PageRebuilds(raw: string)
    ensures Rebuild(PageChunks(Normalise(raw))) == if |Normalise(raw)| < SHORTEST then [] else Normalise(raw)
  {
    var text := Normalise(raw);
    NormaliseNormalises(raw);
    if |text| >= SHORTEST {
      NoneFiltered(text, 0);
      WindowsRebuild(text);
    }
  }

  /** Each chunk of a page shares exactly the overlap with the one before, and adds to it. */
  lemma ChunksFollow(raw: string, i: nat)
    requires 0 < i < |PageChunks(Normalise(raw))|
    ensures Follows(PageChunks(Normalise(raw))[i - 1], PageChunks(Normalise(raw))[i])
  {
    var text := Normalise(raw);
    NormaliseNormalises(raw);
    NoneFiltered(text, 0);
    WindowsFollow(text, 0);
  }

  // ----- What fits in one window -----

  lemma WindowsCons(text: string, start: nat)
    requires start < |text|
    ensures |Windows(text, start)| >= 1 && Windows(text, start)[0] == Window(text, start)
    ensures start + CHUNK_CHARS < |text| ==> Windows(text, start)[1..] == Windows(text, start + STRIDE)
  {}

  /** The window that starts at or before `a`, as far right as any does. */
  lemma {:induction false} WindowAt(text: string, start: nat, i: nat)
    requires start < |text| && (i == 0 || start + 1000 * i + OVERLAP < |text|)
    ensures i < |Windows(text, start)| && Windows(text, start)[i] == Window(text, start + 1000 * i)
    decreases i
  {
    WindowsCons(text, start);
    if i > 0 { WindowAt(text, start + STRIDE, i - 1); }
  }

  lemma WindowsAre(text: string, i: nat)
    requires text != []
    ensures i < |Windows(text, 0)| <==> i == 0 || 1000 * i + 200 < |text|
    ensures i < |Windows(text, 0)| ==> Windows(text, 0)[i] == Window(text, 1000 * i)
  {
    WindowCount(text, 0, i);
    if i == 0 || 1000 * i + OVERLAP < |text| { WindowAt(text, 0, i); }
  }

  /** The chunks of a page, in numbers: none of a page under 40 characters; else the first 1200 characters,
      and another 1200 from every thousandth on, for as long as the one before left any. */
  lemma ChunksAre(raw: string, i: nat)
    ensures var text, chunks := Normalise(raw), PageChunks(Normalise(raw));
      && (|text| < 40 ==> chunks == [])
      && (|text| >= 40 ==> (i < |chunks| <==> i == 0 || 1000 * i + 200 < |text|))
      && (i < |chunks| ==> 1000 * i <= |text|)
      && (i < |chunks| ==> chunks[i] == text[1000 * i..if 1000 * i + 1200 <= |text| then 1000 * i + 1200 else |text|])
  {
    var text := Normalise(raw);
    if |text| >= 40 {
      PageIsWindows(raw);
      WindowsAre(text, i);
    }
  }

  lemma {:induction false} WindowCount(text: string, start: nat, i: nat)
    requires start < |text|
    ensures i < |Windows(text, start)| <==> i == 0 || start + 1000 * i + OVERLAP < |text|
    decreases i
  {
    if i > 0 && start + CHUNK_CHARS < |text| { WindowCount(text, start + STRIDE, i - 1); }
  }

  ghost predicate At(part: string, whole: string, k: nat) {
    k + |part| <= |whole| && whole[k..k + |part|] == part
  }

  ghost predicate Within(part: string, whole: string) {
    exists k: nat :: At(part, whole, k)
  }

  lemma SliceOfSlice<T>(s: seq<T>, lo: nat, hi: nat, a: nat, b: nat)
    requires lo <= a <= b <= hi <= |s|
    ensures s[lo..hi][a - lo..b - lo] == s[a..b]
  {
    var t := s[lo..hi][a - lo..b - lo];
    forall k | 0 <= k < b - a ensures t[k] == s[a..b][k] { assert t[k] == s[lo..hi][a - lo + k]; }
  }

  lemma WindowHolds(text: string, at: nat, a: nat, b: nat)
    requires at <= a < b <= |text| && b <= at + CHUNK_CHARS
    ensures Within(text[a..b], Window(text, at))
  {
    var w := Window(text, at);
    SliceOfSlice(text, at, at + |w|, a, b);
    assert w == text[at..at + |w|];
    assert At(text[a..b], w, a - at);
  }

  lemma HomeOf(n: nat, a: nat, b: nat) returns (i: nat)
    requires a < b <= n && b - a <= OVERLAP + 1
    ensures 1000 * i <= a && b <= 1000 * i + CHUNK_CHARS && (i == 0 || 1000 * i + OVERLAP < n)
  {
    i := if a < 1000 || a / 1000 * 1000 + OVERLAP < n then a / 1000 else a / 1000 - 1;
  }

  /** No stretch of up to 201 characters of a page is split between chunks. */
  lemma NothingSplit(raw: string, a: nat, b: nat)
    requires |Normalise(raw)| >= SHORTEST && a < b <= |Normalise(raw)| && b - a <= OVERLAP + 1
    ensures exists i :: 0 <= i < |PageChunks(Normalise(raw))|
              && Within(Normalise(raw)[a..b], PageChunks(Normalise(raw))[i])
  {
    var text := Normalise(raw);
    var i := HomeOf(|text|, a, b);
    ChunksAre(raw, i);
    WindowHolds(text, 1000 * i, a, b);
    assert PageChunks(text)[i] == Window(text, 1000 * i);
  }

  // ----- Pages -----

  function IsPage(page: nat): Chunk -> bool { (c: Chunk) => c.page == page }

  function Texts(chunks: seq<Chunk>): seq<string> {
    if chunks == [] then [] else [chunks[0].text] + Texts(chunks[1..])
  }

  lemma {:induction false} OnPageTexts(page: nat, texts: seq<string>)
    ensures Texts(OnPage(page, texts)) == texts
  {
    if texts != [] {
      OnPageTexts(page, texts[1..]);
      assert ([Chunk(page, texts[0])] + OnPage(page, texts[1..]))[1..] == OnPage(page, texts[1..]);
    }
  }

  lemma {:induction false} OnPageFiltered(page: nat, texts: seq<string>, want: nat)
    ensures Filter(OnPage(page, texts), IsPage(want)) == if page == want then OnPage(page, texts) else []
  {
    if texts != [] {
      OnPageFiltered(page, texts[1..], want);
      FilterCons(Chunk(page, texts[0]), OnPage(page, texts[1..]), IsPage(want));
    }
  }

  lemma {:induction false} NumberedFiltered(pages: seq<seq<string>>, from: nat, want: nat)
    ensures Filter(Numbered(pages, from), IsPage(want))
         == if from <= want < from + |pages| then OnPage(want, pages[want - from]) else []
  {
    if pages != [] {
      var first, rest := OnPage(from, pages[0]), Numbered(pages[1..], from + 1);
      FilterConcat(first, rest, IsPage(want));
      OnPageFiltered(from, pages[0], want);
      NumberedFiltered(pages[1..], from + 1, want);
    }
  }

  lemma {:induction false} ChunkListAt(pages: seq<string>, i: nat)
    requires i < |pages|
    ensures ChunkLists(pages)[i] == PageChunks(Normalise(pages[i]))
  {
    if i > 0 { ChunkListAt(pages[1..], i - 1); }
  }

  /** No chunk spans pages: the chunks that carry a page's number are exactly that page's, in order. */
  lemma ChunksOfPage(pages: seq<string>, page: nat)
    ensures Texts(Filter(DocumentChunks(pages), IsPage(page)))
         == if 1 <= page <= |pages| then PageChunks(Normalise(pages[page - 1])) else []
  {
    NumberedFiltered(ChunkLists(pages), 1, page);
    if 1 <= page <= |pages| {
      ChunkListAt(pages, page - 1);
      OnPageTexts(page, PageChunks(Normalise(pages[page - 1])));
    }
  }

  /** From the chunks of a document every normalised page of at least 40 characters can be read back. */
  lemma DocumentReadsBack(pages: seq<string>, page: nat)
    requires 1 <= page <= |pages|
    ensures Rebuild(Texts(Filter(DocumentChunks(pages), IsPage(page))))
         == if |Normalise(pages[page - 1])| < SHORTEST then [] else Normalise(pages[page - 1])
  {
    ChunksOfPage(pages, page);
    PageRebuilds(pages[page - 1]);
  }
}
