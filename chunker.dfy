/** The section chunker: documents are cut at every newline that is followed
    by a section marker, each piece is stripped, blank pieces are dropped, and
    every chunk carries the filename of the document it came from. */
module Chunker {
  import opened Wrappers
  import opened Text

  /** A document as the chunker accepts it: a dictionary whose `content` and
      `filename` keys may be missing, or a bare string. */
  datatype Doc = Dict(content: Option<string>, filename: Option<string>) | Raw(text: string)

  /** A chunk: a stripped, non-blank section and the file it came from. */
  datatype Chunk = Chunk(content: string, filename: string)

  // ---------------------------------------------------------------------
  // Section markers: the lookahead `#{1,6} |\d+\.\s+|Section\s+\d+`
  // ---------------------------------------------------------------------

  /** Number of leading `#` characters of `t`. */
  function HashRun(t: string): (n: nat)
    ensures n <= |t|
  {
    if t != [] && t[0] == '#' then 1 + HashRun(t[1..]) else 0
  }

  /** Number of leading digits of `t`. */
  function DigitRun(t: string): (n: nat)
    ensures n <= |t|
  {
    if t != [] && IsDigit(t[0]) then 1 + DigitRun(t[1..]) else 0
  }

  /** `#{1,6} `: one to six `#` and then a space. Because a space is not a
      `#`, the run of `#` must end at the space, so seven or more `#` never
      match. */
  predicate IsHeadingMarker(t: string) {
    var k := HashRun(t);
    1 <= k <= 6 && k < |t| && t[k] == ' '
  }

  /** `\d+\.\s+`: digits, a dot and at least one whitespace character. */
  predicate IsNumberedMarker(t: string) {
    var d := DigitRun(t);
    1 <= d && d + 1 < |t| && t[d] == '.' && IsSpace(t[d + 1])
  }

  /** `Section\s+\d+`: the word `Section`, whitespace, then a digit. */
  predicate IsSectionMarker(t: string) {
    StartsWith(t, "Section") &&
    var w := Lead(t[7..]);
    1 <= w && 7 + w < |t| && IsDigit(t[7 + w])
  }

  /** `t` begins with one of the three section markers. */
  predicate StartsWithMarker(t: string) {
    IsHeadingMarker(t) || IsNumberedMarker(t) || IsSectionMarker(t)
  }

  /** Position `i` of `s` is a split point: a newline followed by a marker. */
  predicate IsBoundary(s: string, i: int) {
    0 <= i < |s| && s[i] == '\n' && StartsWithMarker(s[i + 1..])
  }

  // ---------------------------------------------------------------------
  // The split (`re.split` on a newline with a marker lookahead)
  // ---------------------------------------------------------------------

  /** The raw pieces of `s`: `s` cut at every boundary newline, which is
      consumed. */
  function Split(s: string): (r: seq<string>)
    ensures |r| >= 1
    decreases |s|
  {
    if s == [] then [""]
    else if IsBoundary(s, 0) then [""] + Split(s[1..])
    else
      var rest := Split(s[1..]);
      [[s[0]] + rest[0]] + rest[1..]
  }

  lemma BoundaryShift(s: string, i: int)
    requires 1 <= i < |s|
    ensures IsBoundary(s, i) == IsBoundary(s[1..], i - 1)
  {
    assert s[1..][i - 1 + 1..] == s[i + 1..];
  }

  /** Joining the pieces with a newline gives back the content: only the
      boundary newlines are consumed. */
  lemma {:induction false} SplitJoin(s: string)
    ensures Join(Split(s), "\n") == s
    decreases |s|
  {
    if s == [] {
    } else if IsBoundary(s, 0) {
      SplitJoin(s[1..]);
      JoinCons("", Split(s[1..]), "\n");
      assert s == "\n" + s[1..];
    } else {
      var rest := Split(s[1..]);
      SplitJoin(s[1..]);
      JoinPrefixFirst([s[0]], rest, "\n");
      assert s == [s[0]] + s[1..];
    }
  }

  /** The first piece is the longest prefix of `s` before the first boundary;
      when there is a boundary, the remaining pieces are the split of what
      follows it. With `SplitJoin` this determines the split completely. */
  lemma {:induction false} SplitFirst(s: string)
    ensures var r := Split(s);
      && |r[0]| <= |s| && r[0] == s[..|r[0]|]
      && (forall i :: 0 <= i < |r[0]| ==> !IsBoundary(s, i))
      && (|r| == 1 ==> r[0] == s)
      && (|r| > 1 ==> IsBoundary(s, |r[0]|) && Split(s[|r[0]| + 1..]) == r[1..])
    decreases |s|
  {
    if s == [] {
    } else if IsBoundary(s, 0) {
      assert s[0 + 1..] == s[1..];
    } else {
      SplitFirst(s[1..]);
      FirstPiecePrefix(s);
      FirstPieceNoBoundary(s);
      FirstPieceRest(s);
    }
  }

  /** The steps of `SplitFirst` when the first character is not a boundary:
      it joins the first piece of the rest. */
  lemma FirstPiecePrefix(s: string)
    requires s != [] && !IsBoundary(s, 0)
    requires var rest := Split(s[1..]);
      && |rest[0]| <= |s[1..]| && rest[0] == s[1..][..|rest[0]|]
      && (|rest| == 1 ==> rest[0] == s[1..])
    ensures var r := Split(s);
      && |r[0]| <= |s| && r[0] == s[..|r[0]|]
      && (|r| == 1 ==> r[0] == s)
  {
    var rest := Split(s[1..]);
    assert s[..1 + |rest[0]|] == [s[0]] + s[1..][..|rest[0]|];
    assert s == [s[0]] + s[1..];
  }

  lemma FirstPieceNoBoundary(s: string)
    requires s != [] && !IsBoundary(s, 0)
    requires var rest := Split(s[1..]);
      && |rest[0]| <= |s| - 1
      && forall i :: 0 <= i < |rest[0]| ==> !IsBoundary(s[1..], i)
    ensures var r := Split(s);
      forall i :: 0 <= i < |r[0]| ==> !IsBoundary(s, i)
  {
    var rest := Split(s[1..]);
    assert |Split(s)[0]| == 1 + |rest[0]|;
    forall i | 0 <= i < 1 + |rest[0]|
      ensures !IsBoundary(s, i)
    {
      if i > 0 { BoundaryShift(s, i); }
    }
  }

  lemma FirstPieceRest(s: string)
    requires s != [] && !IsBoundary(s, 0)
    requires var rest := Split(s[1..]);
      |rest| > 1 ==> IsBoundary(s[1..], |rest[0]|) && Split(s[1..][|rest[0]| + 1..]) == rest[1..]
    ensures var r := Split(s);
      |r| > 1 ==> IsBoundary(s, |r[0]|) && Split(s[|r[0]| + 1..]) == r[1..]
  {
    var rest := Split(s[1..]);
    var r := Split(s);
    assert r == [[s[0]] + rest[0]] + rest[1..];
    var n := |rest[0]|;
    assert |r[0]| == 1 + n && r[1..] == rest[1..] && |r| == |rest|;
    if |rest| > 1 {
      BoundaryShift(s, 1 + n);
      assert s[1..][n + 1..] == s[1 + n + 1..];
    }
  }

  /** Content without a boundary is one piece, the content itself. */
  lemma SplitNoBoundary(s: string)
    requires forall i :: !IsBoundary(s, i)
    ensures Split(s) == [s]
  {
    SplitFirst(s);
  }

  /** Every piece after the first starts a section: the text from that piece
      onwards (a suffix of the content) begins with a marker. */
  lemma {:induction false} PiecesStartWithMarker(s: string)
    ensures var r := Split(s);
      forall k :: 1 <= k < |r| ==> StartsWithMarker(Join(r[k..], "\n"))
    decreases |s|
  {
    var r := Split(s);
    SplitFirst(s);
    if |r| > 1 {
      var s' := s[|r[0]| + 1..];
      SplitJoin(s');
      PiecesStartWithMarker(s');
      forall k | 1 <= k < |r|
        ensures StartsWithMarker(Join(r[k..], "\n"))
      {
        if k > 1 {
          assert r[1..][k - 1..] == r[k..];
        }
      }
    }
  }

  /** A marker only looks at a prefix, so text that begins with one still
      does after anything is appended. */
  lemma MarkerExtends(t: string, u: string)
    requires StartsWithMarker(t)
    ensures StartsWithMarker(t + u)
  {
    HashRunExtends(t, u);
    DigitRunExtends(t, u);
    if IsSectionMarker(t) {
      var w := Lead(t[7..]);
      assert (t + u)[7..] == t[7..] + u;
      LeadExtends(t[7..], u);
    }
  }

  lemma {:induction false} HashRunExtends(t: string, u: string)
    ensures HashRun(t) < |t| ==> HashRun(t + u) == HashRun(t)
  {
    if t != [] && t[0] == '#' {
      assert (t + u)[1..] == t[1..] + u;
      HashRunExtends(t[1..], u);
    }
  }

  lemma {:induction false} DigitRunExtends(t: string, u: string)
    ensures DigitRun(t) < |t| ==> DigitRun(t + u) == DigitRun(t)
  {
    if t != [] && IsDigit(t[0]) {
      assert (t + u)[1..] == t[1..] + u;
      DigitRunExtends(t[1..], u);
    }
  }

  lemma {:induction false} LeadExtends(t: string, u: string)
    ensures Lead(t) < |t| ==> Lead(t + u) == Lead(t)
  {
    if t != [] && IsSpace(t[0]) {
      assert (t + u)[1..] == t[1..] + u;
      LeadExtends(t[1..], u);
    }
  }

  /** No piece contains a newline followed by a marker, looked at in the
      content (`forall i < |r[0]|` in `SplitFirst`) or in the piece alone. */
  lemma {:induction false} NoBoundaryInPieces(s: string)
    ensures var r := Split(s);
      forall k, i :: 0 <= k < |r| && 0 <= i < |r[k]| ==> !IsBoundary(r[k], i)
    decreases |s|
  {
    var r := Split(s);
    SplitFirst(s);
    forall i | 0 <= i < |r[0]|
      ensures !IsBoundary(r[0], i)
    {
      if IsBoundary(r[0], i) {
        BoundaryInPrefix(s, |r[0]|, i);
      }
    }
    if |r| > 1 {
      NoBoundaryInPieces(s[|r[0]| + 1..]);
      forall k, i | 1 <= k < |r| && 0 <= i < |r[k]|
        ensures !IsBoundary(r[k], i)
      {
        assert r[k] == r[1..][k - 1];
      }
    }
  }

  /** A boundary of a prefix is a boundary of the whole text. */
  lemma BoundaryInPrefix(s: string, n: nat, i: nat)
    requires n <= |s| && i < n
    requires IsBoundary(s[..n], i)
    ensures IsBoundary(s, i)
  {
    var p := s[..n];
    assert p[i + 1..] + s[n..] == s[i + 1..];
    MarkerExtends(p[i + 1..], s[n..]);
  }

  /** Seven `#` and a space do not start a section. */
  lemma SevenHashesNoMarker()
    ensures !StartsWithMarker("####### A")
  {
    var t := "####### A";
    assert t[1..] == "###### A" && t[1..][1..] == "##### A";
    assert HashRun("##### A") == 5 by {
      assert "##### A"[1..] == "#### A" && "#### A"[1..] == "### A";
      assert HashRun("### A") == 3 by {
        assert "### A"[1..] == "## A" && "## A"[1..] == "# A" && "# A"[1..] == " A";
      }
    }
    assert HashRun(t) == 7;
  }

  /** A `#` not followed by a space does not start a section. */
  lemma HashWithoutSpaceNoMarker()
    ensures !StartsWithMarker("#A")
  {
    assert "#A"[1..] == "A";
    assert HashRun("#A") == 1;
  }

  /** One to six `#` and a space, numbered items and `Section <n>` start
      sections. */
  lemma MarkerExamples()
    ensures StartsWithMarker("## A")
    ensures StartsWithMarker("12. A")
    ensures StartsWithMarker("Section 4")
  {
    assert "## A"[1..] == "# A" && "# A"[1..] == " A";
    assert HashRun("## A") == 2;
    assert "12. A"[1..] == "2. A" && "2. A"[1..] == ". A";
    assert DigitRun("12. A") == 2;
    assert "Section 4"[7..] == " 4" && " 4"[1..] == "4";
    assert Lead(" 4") == 1;
  }

  // ---------------------------------------------------------------------
  // Chunks
  // ---------------------------------------------------------------------

  /** The text of a document: the `content` key (default empty), or the bare
      string. */
  function ContentOf(d: Doc): string {
    match d
    case Dict(c, _) => c.GetOr("")
    case Raw(t) => t
  }

  /** The provenance of a document: the `filename` key, or `"Unknown"` for a
      dictionary without one and for a bare string. */
  function FilenameOf(d: Doc): string {
    match d
    case Dict(_, f) => f.GetOr("Unknown")
    case Raw(_) => "Unknown"
  }

  /** The chunk a raw piece yields: the stripped piece, or none if blank. */
  function Keep(piece: string, filename: string): seq<Chunk> {
    var cleaned := Strip(piece);
    if cleaned == [] then [] else [Chunk(cleaned, filename)]
  }

  /** The chunks yielded by the raw pieces `pieces` of a file `filename`. */
  function Kept(pieces: seq<string>, filename: string): seq<Chunk> {
    if pieces == [] then []
    else Kept(pieces[..|pieces| - 1], filename) + Keep(pieces[|pieces| - 1], filename)
  }

  lemma KeptSnoc(pieces: seq<string>, j: nat, filename: string)
    requires j < |pieces|
    ensures Kept(pieces[..j + 1], filename) == Kept(pieces[..j], filename) + Keep(pieces[j], filename)
  {
    assert pieces[..j + 1][..j] == pieces[..j];
  }

  /** The chunks of one document. */
  function DocChunks(d: Doc): seq<Chunk> {
    Kept(Split(ContentOf(d)), FilenameOf(d))
  }

  /** The chunks of a document list: each document's chunks, in document
      order. */
  function AllChunks(docs: seq<Doc>): seq<Chunk> {
    FlatMap(DocChunks, docs)
  }

  /** `chunk_sections`: the chunk list is filled document by document,
      section by section. */
  method ChunkSections(documents: seq<Doc>) returns (chunks: seq<Chunk>)
    ensures chunks == AllChunks(documents)
    ensures documents == [] ==> chunks == []
  {
    chunks := [];
    for i := 0 to |documents|
      invariant chunks == AllChunks(documents[..i])
    {
      var content, filename;
      match documents[i] {
        case Dict(c, f) =>
          content := c.GetOr("");
          filename := f.GetOr("Unknown");
        case Raw(t) =>
          content := t;
          filename := "Unknown";
      }
      var sections := Split(content);
      ghost var before := chunks;
      for j := 0 to |sections|
        invariant chunks == before + Kept(sections[..j], filename)
      {
        KeptSnoc(sections, j, filename);
        var cleaned := Strip(sections[j]);
        if cleaned != [] {
          chunks := chunks + [Chunk(cleaned, filename)];
        }
      }
      assert sections[..|sections|] == sections;
      assert content == ContentOf(documents[i]) && filename == FilenameOf(documents[i]);
      FlatMapSnoc(DocChunks, documents, i);
    }
    assert documents[..|documents|] == documents;
  }

  // ---------------------------------------------------------------------
  // Properties of the chunks
  // ---------------------------------------------------------------------

  predicate WellFormed(c: Chunk) {
    c.content != [] && !IsSpace(c.content[0]) && !IsSpace(c.content[|c.content| - 1])
  }

  lemma {:induction false} KeptWellFormed(pieces: seq<string>, filename: string)
    ensures forall c :: c in Kept(pieces, filename) ==> WellFormed(c) && c.filename == filename
  {
    if pieces != [] {
      KeptWellFormed(pieces[..|pieces| - 1], filename);
      StripSpec(pieces[|pieces| - 1]);
    }
  }

  /** Every chunk is non-empty, has no leading or trailing whitespace, and
      carries the filename of its document (`"Unknown"` when there is none). */
  lemma {:induction false} ChunksWellFormed(docs: seq<Doc>)
    ensures forall c :: c in AllChunks(docs) ==> WellFormed(c)
    ensures forall c :: c in AllChunks(docs) ==> exists d :: d in docs && c.filename == FilenameOf(d)
  {
    if docs != [] {
      var last := docs[|docs| - 1];
      ChunksWellFormed(docs[..|docs| - 1]);
      KeptWellFormed(Split(ContentOf(last)), FilenameOf(last));
      forall c | c in AllChunks(docs)
        ensures exists d :: d in docs && c.filename == FilenameOf(d)
      {
        if c in AllChunks(docs[..|docs| - 1]) {
          var d :| d in docs[..|docs| - 1] && c.filename == FilenameOf(d);
          assert d in docs;
        } else {
          assert last in docs;
        }
      }
    }
  }

  /** The chunks of one document all carry its filename: the dictionary's
      `filename`, else `"Unknown"`. */
  lemma DocProvenance(d: Doc)
    ensures forall c :: c in DocChunks(d) ==>
      c.filename == (if d.Dict? && d.filename.Some? then d.filename.value else "Unknown")
  {
    KeptWellFormed(Split(ContentOf(d)), FilenameOf(d));
  }

  /** Chunks are grouped by document, in document order. */
  lemma AllChunksAppend(a: seq<Doc>, b: seq<Doc>)
    ensures AllChunks(a + b) == AllChunks(a) + AllChunks(b)
  {
    FlatMapAppend(DocChunks, a, b);
  }

  /** A document without any boundary yields its stripped content as the one
      chunk, or nothing if it is blank. */
  lemma NoMarkerOneChunk(d: Doc)
    requires forall i :: !IsBoundary(ContentOf(d), i)
    ensures DocChunks(d) ==
      if AllSpace(ContentOf(d)) then [] else [Chunk(Strip(ContentOf(d)), FilenameOf(d))]
  {
    SplitNoBoundary(ContentOf(d));
    StripSpec(ContentOf(d));
    var p := [ContentOf(d)];
    assert p[..0] == [];
    assert Kept(p, FilenameOf(d)) == Keep(ContentOf(d), FilenameOf(d));
  }

  /** The concatenated contents of a chunk list. */
  function Contents(cs: seq<Chunk>): string {
    if cs == [] then "" else Contents(cs[..|cs| - 1]) + cs[|cs| - 1].content
  }

  lemma {:induction false} ContentsAppend(a: seq<Chunk>, b: seq<Chunk>)
    ensures Contents(a + b) == Contents(a) + Contents(b)
    decreases |b|
  {
    if b == [] {
      assert a + b == a;
    } else {
      var b', x := b[..|b| - 1], b[|b| - 1];
      assert (a + b)[..|a + b| - 1] == a + b';
      assert (a + b)[|a + b| - 1] == x;
      ContentsAppend(a, b');
      calc {
        Contents(a + b);
        Contents(a + b') + x.content;
        (Contents(a) + Contents(b')) + x.content;
        Contents(a) + (Contents(b') + x.content);
        Contents(a) + Contents(b);
      }
    }
  }

  lemma {:induction false} NonSpaceJoin(parts: seq<string>)
    ensures NonSpace(Join(parts, "\n")) == NonSpace(Concat(parts))
    decreases |parts|
  {
    if |parts| == 0 {
    } else if |parts| == 1 {
      assert parts[..0] == [];
      assert Concat(parts) == parts[0];
    } else {
      var rest := parts[1..];
      assert parts == [parts[0]] + rest;
      NonSpaceJoin(rest);
      ConcatSplit([parts[0]], rest);
      assert [parts[0]][..0] == [];
      assert Concat([parts[0]]) == parts[0];
      NonSpaceAppend(parts[0] + "\n", Join(rest, "\n"));
      NonSpaceAppend(parts[0], "\n");
      NonSpaceAppend(parts[0], Concat(rest));
      assert NonSpace("\n") == [] by { assert IsSpace('\n'); }
    }
  }

  lemma KeepCoverage(piece: string, filename: string)
    ensures NonSpace(Contents(Keep(piece, filename))) == NonSpace(piece)
  {
    var cleaned := Strip(piece);
    NonSpaceStrip(piece);
    StripSpec(piece);
    if cleaned == [] {
      NonSpaceOfAllSpace(piece);
    } else {
      assert [Chunk(cleaned, filename)][..0] == [];
      assert Contents([Chunk(cleaned, filename)]) == cleaned;
    }
  }

  lemma {:induction false} KeptCoverage(pieces: seq<string>, filename: string)
    ensures NonSpace(Contents(Kept(pieces, filename))) == NonSpace(Concat(pieces))
    decreases |pieces|
  {
    if pieces != [] {
      var init, last := pieces[..|pieces| - 1], pieces[|pieces| - 1];
      KeptCoverage(init, filename);
      KeepCoverage(last, filename);
      ContentsAppend(Kept(init, filename), Keep(last, filename));
      NonSpaceAppend(Contents(Kept(init, filename)), Contents(Keep(last, filename)));
      NonSpaceAppend(Concat(init), last);
    }
  }

  /** Coverage: the chunks of a document hold all of its non-whitespace
      characters, each exactly once and in the original order. */
  lemma DocCoverage(d: Doc)
    ensures NonSpace(Contents(DocChunks(d))) == NonSpace(ContentOf(d))
  {
    var pieces := Split(ContentOf(d));
    KeptCoverage(pieces, FilenameOf(d));
    NonSpaceJoin(pieces);
    SplitJoin(ContentOf(d));
  }
}
