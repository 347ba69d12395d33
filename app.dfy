/** The decision logic of the app script: the filename-question route, the
    "already structured" bypass in front of the chunker, the query path from
    loaded documents to the chain-of-thought prompt, and the presentation of
    evaluation metrics. Rendering, the language model and the similarity
    search are not modelled; the candidate pool the search returns is an
    input. */
module App {
  import opened Wrappers
  import opened Text
  import Chunker
  import FaissHandler
  import ChainOfThought
  import FileLoader

  // ---------------------------------------------------------------------
  // Filename route: `re.search(r"what does (.*?) say", query.lower())`
  // ---------------------------------------------------------------------

  const RouteOpening: string := "what does "
  const RouteClosing: string := " say"

  /** ` say` starts at `j`, and the capture from `start` to `j` holds no
      newline (`.` does not match one). */
  predicate SayFrom(q: string, start: int, j: int) {
    && 0 <= start <= j && j + |RouteClosing| <= |q|
    && q[j..j + |RouteClosing|] == RouteClosing
    && forall k :: start <= k < j ==> q[k] != '\n'
  }

  /** The pattern matches at `i` with the capture `q[i + 10..j]`. */
  predicate IsRouteMatch(q: string, i: int, j: int) {
    && 0 <= i && i + |RouteOpening| <= |q|
    && q[i..i + |RouteOpening|] == RouteOpening
    && SayFrom(q, i + |RouteOpening|, j)
  }

  /** The lazy `(.*?)`: the first end position at or after `j` where
      ` say` follows, giving up at a newline. */
  function CaptureEnd(q: string, start: nat, j: nat): (r: Option<nat>)
    requires start <= j <= |q|
    requires forall k :: start <= k < j ==> q[k] != '\n'
    ensures r.Some? ==> j <= r.value && SayFrom(q, start, r.value)
    ensures r.Some? ==> forall m :: j <= m < r.value ==> !SayFrom(q, start, m)
    ensures r.None? ==> forall m :: j <= m ==> !SayFrom(q, start, m)
    decreases |q| - j
  {
    if j + |RouteClosing| > |q| then None
    else if q[j..j + |RouteClosing|] == RouteClosing then Some(j)
    else if q[j] == '\n' then None
    else CaptureEnd(q, start, j + 1)
  }

  /** The leftmost match at or after `i`, with its shortest capture. */
  function FindRoute(q: string, i: nat): (r: Option<(nat, nat)>)
    ensures r.Some? ==> i <= r.value.0 && IsRouteMatch(q, r.value.0, r.value.1)
    ensures r.Some? ==> forall m, j :: i <= m < r.value.0 ==> !IsRouteMatch(q, m, j)
    ensures r.Some? ==> forall j :: j < r.value.1 ==> !IsRouteMatch(q, r.value.0, j)
    ensures r.None? ==> forall m, j :: i <= m ==> !IsRouteMatch(q, m, j)
    decreases |q| - i
  {
    if i + |RouteOpening| > |q| then None
    else
      var start := i + |RouteOpening|;
      if q[i..start] == RouteOpening && CaptureEnd(q, start, start).Some? then
        Some((i, CaptureEnd(q, start, start).value))
      else
        FindRoute(q, i + 1)
  }

  /** The keyword of a filename question, if the query is one: the capture,
      stripped, with spaces removed, lowercased. The route fires exactly when
      the lowercased query matches the pattern somewhere; the keyword comes
      from the leftmost match and its shortest capture, and holds neither a
      space nor an upper-case letter. */
  function RouteKeyword(query: string): (r: Option<string>)
    ensures r.Some? <==> exists i, j :: IsRouteMatch(Lower(query), i, j)
    ensures r.Some? ==> exists i, j ::
      && IsRouteMatch(Lower(query), i, j)
      && (forall m, k :: 0 <= m < i ==> !IsRouteMatch(Lower(query), m, k))
      && (forall k :: k < j ==> !IsRouteMatch(Lower(query), i, k))
      && r.value == Lower(RemoveSpaces(Strip(Lower(query)[i + |RouteOpening|..j])))
    ensures r.Some? ==> forall k :: 0 <= k < |r.value| ==> r.value[k] != ' ' && !IsUpper(r.value[k])
  {
    var q := Lower(query);
    match FindRoute(q, 0)
    case None => None
    case Some((i, j)) =>
      var keyword := Lower(RemoveSpaces(Strip(q[i + |RouteOpening|..j])));
      LowerKeepsSpaces(RemoveSpaces(Strip(q[i + |RouteOpening|..j])));
      Some(keyword)
  }

  lemma LowerKeepsSpaces(s: string)
    requires forall k :: 0 <= k < |s| ==> s[k] != ' '
    ensures forall k :: 0 <= k < |Lower(s)| ==> Lower(s)[k] != ' '
  {
    forall k | 0 <= k < |s| ensures Lower(s)[k] != ' ' {
      assert !IsSpace(s[k]) || s[k] != ' ';
    }
  }

  /** A question about a file routes with the file's name as keyword. */
  lemma RouteExample()
    ensures RouteKeyword("What does A b say") == Some("ab")
  {
    var q := "what does a b say";
    LowerExample();
    RouteExampleMatch();
    RouteExampleKeyword();
    assert q[10..13] == "a b";
    assert RouteKeyword("What does A b say") == Some(Lower(RemoveSpaces(Strip(q[10..13]))));
  }

  lemma LowerExample()
    ensures Lower("What does A b say") == "what does a b say"
    ensures Lower("what does a b say") == "what does a b say"
    ensures Lower("ab") == "ab"
  {
    var q := "what does a b say";
    var l := Lower("What does A b say");
    forall i | 0 <= i < |q| ensures l[i] == q[i] {
      assert l[i] == LowerChar("What does A b say"[i]);
    }
  }

  lemma RouteExampleMatch()
    ensures FindRoute("what does a b say", 0) == Some((0, 13))
  {
    var q := "what does a b say";
    assert q[0..10] == RouteOpening;
    assert q[13..17] == RouteClosing;
    assert CaptureEnd(q, 10, 13) == Some(13);
    assert q[12..16][0] != RouteClosing[0];
    assert CaptureEnd(q, 10, 12) == Some(13);
    assert q[11..15][1] != RouteClosing[1];
    assert CaptureEnd(q, 10, 11) == Some(13);
    assert q[10..14][0] != RouteClosing[0];
    assert CaptureEnd(q, 10, 10) == Some(13);
  }

  lemma RouteExampleKeyword()
    ensures RemoveSpaces(Strip("a b")) == "ab"
  {
    var capture := "a b";
    assert Lead(capture) == 0 && Trail(capture) == 0;
    assert Strip(capture) == capture;
    assert RemoveSpaces(capture[2..]) == "b";
    assert RemoveSpaces(capture[1..]) == "b";
  }

  /** The name a document is matched by: lowercased, spaces removed. */
  function MatchKey(filename: string): string {
    RemoveSpaces(Lower(filename))
  }

  /** The documents whose match key contains the keyword, in document order. */
  function Matches(docs: seq<FileLoader.Entry>, keyword: string): (r: seq<FileLoader.Entry>)
    ensures IsSubsequence(r, docs)
    ensures forall d :: d in r ==> Contains(MatchKey(d.filename), keyword)
    ensures forall d :: d in docs && Contains(MatchKey(d.filename), keyword) ==> d in r
    ensures forall d {:trigger multiset(r)[d]} :: multiset(r)[d] == if Contains(MatchKey(d.filename), keyword) then multiset(docs)[d] else 0
    decreases |docs|
  {
    if docs == [] then []
    else
      assert docs == [docs[0]] + docs[1..];
      if Contains(MatchKey(docs[0].filename), keyword) then [docs[0]] + Matches(docs[1..], keyword)
      else
        var r := Matches(docs[1..], keyword);
        SubsequenceSkip(r, docs);
        r
  }

  /** An empty keyword (`what does  say`) matches every document. */
  lemma {:induction false} EmptyKeywordMatchesAll(docs: seq<FileLoader.Entry>)
    ensures Matches(docs, "") == docs
    decreases |docs|
  {
    if docs != [] {
      assert OccursAt(MatchKey(docs[0].filename), "", 0);
      EmptyKeywordMatchesAll(docs[1..]);
    }
  }

  /** The first match is the first document, in document order, whose match
      key contains the keyword. */
  lemma {:induction false} FirstMatch(docs: seq<FileLoader.Entry>, keyword: string)
    requires Matches(docs, keyword) != []
    ensures exists k ::
      && 0 <= k < |docs| && Matches(docs, keyword)[0] == docs[k]
      && Contains(MatchKey(docs[k].filename), keyword)
      && forall m :: 0 <= m < k ==> !Contains(MatchKey(docs[m].filename), keyword)
    decreases |docs|
  {
    if !Contains(MatchKey(docs[0].filename), keyword) {
      var tail := docs[1..];
      assert Matches(docs, keyword) == Matches(tail, keyword);
      FirstMatch(tail, keyword);
      var k :| && 0 <= k < |tail| && Matches(tail, keyword)[0] == tail[k]
        && Contains(MatchKey(tail[k].filename), keyword)
        && forall m :: 0 <= m < k ==> !Contains(MatchKey(tail[m].filename), keyword);
      forall m | 0 <= m < k + 1
        ensures !Contains(MatchKey(docs[m].filename), keyword)
      {
        if m > 0 { assert docs[m] == tail[m - 1]; }
      }
      assert docs[k + 1] == tail[k];
    } else {
      assert Matches(docs, keyword)[0] == docs[0];
    }
  }

  /** Characters of the matched content shown to the user. */
  const ShownLength: nat := 2000
  /** Characters of the matched content placed in the prompt. */
  const PromptedLength: nat := 3000

  /** The indentation the prompt's continuation lines carry. */
  const Indent: string := "                "

  /** The prompt for a filename question. */
  function FilenamePrompt(filename: string, excerpt: string, query: string): string {
    "Use the following document content to answer the question:\n\n"
    + Indent + "Content from " + filename + ":\n"
    + Indent + excerpt + "\n\n"
    + Indent + "Question: " + query + "\n"
    + Indent + "Answer:"
  }

  /** What the filename route does: report the keyword when no document
      matches, or use the first match only. */
  datatype RouteReply =
    | NoMatch(keyword: string)
    | Found(filename: string, shown: string, prompt: string)

  /** With no match the reply reports the keyword; otherwise it quotes the
      first match, a document of the list whose match key holds the
      keyword. */
  function FilenameRoute(docs: seq<FileLoader.Entry>, query: string, keyword: string): (r: RouteReply)
    ensures r.NoMatch? ==> r.keyword == keyword && forall d :: d in docs ==> !Contains(MatchKey(d.filename), keyword)
    ensures r.Found? ==>
      && Matches(docs, keyword) != []
      && var d := Matches(docs, keyword)[0];
         d in docs && Contains(MatchKey(d.filename), keyword) && Quotes(r, d, query)
  {
    var matched := Matches(docs, keyword);
    if matched == [] then NoMatch(keyword)
    else
      var first := matched[0];
      FoundQuotes(first, query);
      SubsequenceMembers(matched, docs);
      Found(first.filename, Take(first.content, ShownLength),
            FilenamePrompt(first.filename, Take(first.content, PromptedLength), query))
  }

  /** The route finds something exactly when some document's match key
      contains the keyword. */
  lemma FilenameRouteFinds(docs: seq<FileLoader.Entry>, query: string, keyword: string)
    ensures FilenameRoute(docs, query, keyword).Found? <==>
      exists k :: 0 <= k < |docs| && Contains(MatchKey(docs[k].filename), keyword)
  {
    if exists k :: 0 <= k < |docs| && Contains(MatchKey(docs[k].filename), keyword) {
      var k :| 0 <= k < |docs| && Contains(MatchKey(docs[k].filename), keyword);
      assert docs[k] in docs;
    }
    if Matches(docs, keyword) != [] {
      FirstMatch(docs, keyword);
    }
  }

  /** A reply that quotes document `d`: it names the file, shows the first
      2000 characters of its content (all of it when shorter), which are a
      prefix of the first 3000 characters, and the prompt is the filename
      prompt for those 3000 characters, holding them and the query
      verbatim. */
  predicate Quotes(reply: RouteReply, d: FileLoader.Entry, query: string) {
    && reply.Found?
    && reply.filename == d.filename
    && reply.shown == Take(d.content, ShownLength)
    && reply.prompt == FilenamePrompt(d.filename, Take(d.content, PromptedLength), query)
    && |reply.shown| <= ShownLength
    && StartsWith(d.content, reply.shown)
    && StartsWith(Take(d.content, PromptedLength), reply.shown)
    && Contains(reply.prompt, Take(d.content, PromptedLength))
    && Contains(reply.prompt, query)
  }

  /** What the route finds is the first matching document, and the reply
      quotes it. */
  lemma FilenameRouteReply(docs: seq<FileLoader.Entry>, query: string, keyword: string)
    ensures var reply := FilenameRoute(docs, query, keyword);
      reply.Found? ==> exists k ::
        && 0 <= k < |docs| && Contains(MatchKey(docs[k].filename), keyword)
        && (forall m :: 0 <= m < k ==> !Contains(MatchKey(docs[m].filename), keyword))
        && Quotes(reply, docs[k], query)
  {
    var matched := Matches(docs, keyword);
    if matched != [] {
      FirstMatch(docs, keyword);
      var k :| && 0 <= k < |docs| && matched[0] == docs[k]
        && Contains(MatchKey(docs[k].filename), keyword)
        && forall m :: 0 <= m < k ==> !Contains(MatchKey(docs[m].filename), keyword);
      FoundQuotes(docs[k], query);
    }
  }

  /** The reply built from a document quotes it. */
  lemma FoundQuotes(d: FileLoader.Entry, query: string)
    ensures Quotes(Found(d.filename, Take(d.content, ShownLength),
                         FilenamePrompt(d.filename, Take(d.content, PromptedLength), query)), d, query)
  {
    ShownWithinPrompted(d.content);
    PromptQuotes(d.filename, Take(d.content, PromptedLength), query);
  }

  /** The shown text is a prefix of the prompted text, itself a prefix of
      the content. */
  lemma ShownWithinPrompted(content: string)
    ensures StartsWith(content, Take(content, ShownLength))
    ensures StartsWith(Take(content, PromptedLength), Take(content, ShownLength))
  {
    var shown, prompted := Take(content, ShownLength), Take(content, PromptedLength);
    assert prompted[..|shown|] == content[..|shown|];
  }

  /** The filename prompt quotes the excerpt and the query verbatim. */
  lemma PromptQuotes(filename: string, excerpt: string, query: string)
    ensures Contains(FilenamePrompt(filename, excerpt, query), excerpt)
    ensures Contains(FilenamePrompt(filename, excerpt, query), query)
  {
    var a := "Use the following document content to answer the question:\n\n"
      + Indent + "Content from " + filename + ":\n" + Indent;
    var b := "\n\n" + Indent + "Question: ";
    var c := "\n" + Indent + "Answer:";
    assert FilenamePrompt(filename, excerpt, query) == a + excerpt + (b + query + c);
    assert OccursAt(excerpt, excerpt, 0);
    ContainsInfix(a, excerpt, b + query + c, excerpt);
    assert FilenamePrompt(filename, excerpt, query) == (a + excerpt + b) + query + c;
    assert OccursAt(query, query, 0);
    ContainsInfix(a + excerpt + b, query, c, query);
  }

  // ---------------------------------------------------------------------
  // Query path: structured bypass, index, retrieval and prompt
  // ---------------------------------------------------------------------

  /** A loaded document that already reads as structured data. */
  predicate IsStructuredDoc(d: FileLoader.Entry) {
    Contains(d.content, "Year:") && Contains(d.content, "Revenue:")
  }

  /** The bypass test: some document holds both `Year:` and `Revenue:`. */
  predicate IsStructured(docs: seq<FileLoader.Entry>): (b: bool)
    ensures b <==> exists d :: d in docs && Contains(d.content, "Year:") && Contains(d.content, "Revenue:")
  {
    exists k :: 0 <= k < |docs| && IsStructuredDoc(docs[k])
  }

  /** The bypass test looks at every document and only asks whether one of
      them qualifies: it holds for a concatenation exactly when it holds for
      either part, so neither the order nor the grouping of the uploads
      matters. */
  lemma StructuredAppend(a: seq<FileLoader.Entry>, b: seq<FileLoader.Entry>)
    ensures IsStructured(a + b) <==> IsStructured(a) || IsStructured(b)
  {
    if IsStructured(a + b) {
      var k :| 0 <= k < |a + b| && IsStructuredDoc((a + b)[k]);
      if k >= |a| {
        assert (a + b)[k] == b[k - |a|];
      }
    }
    if IsStructured(b) {
      var k :| 0 <= k < |b| && IsStructuredDoc(b[k]);
      assert (a + b)[|a| + k] == b[k];
    }
  }

  /** A loaded document as the chunker and the index read it. */
  function AsDoc(d: FileLoader.Entry): Chunker.Doc {
    Chunker.Dict(Some(d.content), Some(d.filename))
  }

  function AsDocs(docs: seq<FileLoader.Entry>): (r: seq<Chunker.Doc>)
    ensures |r| == |docs|
  {
    seq(|docs|, i requires 0 <= i < |docs| => AsDoc(docs[i]))
  }

  /** A chunk as the index reads it. */
  function ChunkAsDoc(c: Chunker.Chunk): Chunker.Doc {
    Chunker.Dict(Some(c.content), Some(c.filename))
  }

  function ChunksAsDocs(cs: seq<Chunker.Chunk>): (r: seq<Chunker.Doc>)
    ensures |r| == |cs|
  {
    seq(|cs|, i requires 0 <= i < |cs| => ChunkAsDoc(cs[i]))
  }

  /** A spreadsheet upload with a `Year` and a `Revenue` column and at least
      one row switches the whole load to the bypass. */
  lemma SpreadsheetTriggersBypass(files: seq<FileLoader.Upload>, k: nat, y: nat, v: nat)
    requires FileLoader.SheetsRectangular(files)
    requires FileLoader.LoadAll(files).Ok?
    requires k < |FileLoader.SupportedFiles(files)|
    requires var f := FileLoader.SupportedFiles(files)[k];
      && FileLoader.FormatOf(f.name) == Some(FileLoader.Xlsx) && f.sheet.Ok?
      && FileLoader.Rectangular(f.sheet.value) && |f.sheet.value.rows| > 0
      && y < |f.sheet.value.columns| && Strip(f.sheet.value.columns[y]) == "Year"
      && v < |f.sheet.value.columns| && Strip(f.sheet.value.columns[v]) == "Revenue"
    ensures IsStructured(FileLoader.LoadAll(files).value)
  {
    var f := FileLoader.SupportedFiles(files)[k];
    var entries := FileLoader.LoadAll(files).value;
    FileLoader.LoadAllEntries(files);
    FileLoader.DescribesLength(entries, FileLoader.SupportedFiles(files));
    FileLoader.DescribesAt(entries, FileLoader.SupportedFiles(files), k);
    FileLoader.LoadsSheet(f);
    FileLoader.YearRevenueSheet(f.sheet.value, y, v);
    assert IsStructuredDoc(entries[k]);
  }

  /** Steps 3 and 4 of the query path: the chunks the index is built from —
      every document unsplit when the bypass applies, the section chunks of
      all documents otherwise — each a dictionary with content and filename
      naming one of the uploaded files. */
  method SelectChunks(documents: seq<FileLoader.Entry>) returns (chunks: seq<Chunker.Doc>)
    ensures IsStructured(documents) ==> chunks == AsDocs(documents)
    ensures !IsStructured(documents) ==> chunks == ChunksAsDocs(Chunker.AllChunks(AsDocs(documents)))
    ensures forall i :: 0 <= i < |chunks| ==>
      && chunks[i].Dict? && chunks[i].content.Some? && chunks[i].filename.Some?
      && exists k :: 0 <= k < |documents| && chunks[i].filename.value == documents[k].filename
  {
    if IsStructured(documents) {
      chunks := AsDocs(documents);
    } else {
      var docs := AsDocs(documents);
      var sections := Chunker.ChunkSections(docs);
      chunks := ChunksAsDocs(sections);
      Chunker.ChunksWellFormed(docs);
      forall i | 0 <= i < |chunks|
        ensures exists k :: 0 <= k < |documents| && chunks[i].filename.value == documents[k].filename
      {
        assert sections[i] in sections;
        var d :| d in docs && sections[i].filename == Chunker.FilenameOf(d);
        var k :| 0 <= k < |docs| && docs[k] == d;
      }
    }
  }

  /** The index build of the query path: one indexed document per selected
      chunk, each named after an uploaded file; under the bypass, exactly the
      uploaded documents in order. */
  method BuildIndex(documents: seq<FileLoader.Entry>) returns (index: seq<FaissHandler.Document>)
    ensures forall i :: 0 <= i < |index| ==>
      exists k :: 0 <= k < |documents| && index[i].metadata.filename == documents[k].filename
    ensures IsStructured(documents) ==>
      && |index| == |documents|
      && forall i :: 0 <= i < |index| ==>
        index[i].pageContent == documents[i].content && index[i].metadata.filename == documents[i].filename
    ensures !IsStructured(documents) ==>
      && |index| == |Chunker.AllChunks(AsDocs(documents))|
      && forall i :: 0 <= i < |index| ==>
        && index[i].pageContent == Chunker.AllChunks(AsDocs(documents))[i].content
        && index[i].metadata.filename == Chunker.AllChunks(AsDocs(documents))[i].filename
  {
    var chunks := SelectChunks(documents);
    index := FaissHandler.BuildFaissIndex(chunks);
    forall i | 0 <= i < |index|
      ensures exists k :: 0 <= k < |documents| && index[i].metadata.filename == documents[k].filename
    {
      assert index[i].metadata.filename == chunks[i].filename.value;
    }
    if IsStructured(documents) {
      forall i | 0 <= i < |index|
        ensures index[i].pageContent == documents[i].content
        ensures index[i].metadata.filename == documents[i].filename
      {
        assert chunks[i] == AsDoc(documents[i]);
      }
    } else {
      var all := Chunker.AllChunks(AsDocs(documents));
      forall i | 0 <= i < |index|
        ensures index[i].pageContent == all[i].content
        ensures index[i].metadata.filename == all[i].filename
      {
        assert chunks[i] == ChunkAsDoc(all[i]);
      }
    }
  }

  /** A retrieval result as the prompt reads it: no `filename` key, the
      name under `metadata`. */
  function AsContextChunk(r: FaissHandler.Retrieved): (c: ChainOfThought.ContextChunk)
    ensures ChainOfThought.SourceName(c) == r.metadata.filename
    ensures c.content == r.content
  {
    ChainOfThought.ContextChunk(r.content, None, Some(r.metadata.filename))
  }

  function AsContext(rs: seq<FaissHandler.Retrieved>): (r: seq<ChainOfThought.ContextChunk>)
    ensures |r| == |rs|
  {
    seq(|rs|, i requires 0 <= i < |rs| => AsContextChunk(rs[i]))
  }

  /** Top-k requested by the app. */
  const AppTopK: nat := 5

  /** Steps 5 and 6 of the query path: retrieval with `top_k = 5` from the
      candidate pool, then the chain-of-thought prompt. The pool holds at
      most three candidates, so the prompt's context is built from the whole
      pool, in similarity order, whatever year the query mentions. */
  method QueryPrompt(query: string, pool: seq<FaissHandler.Document>) returns (prompt: string)
    requires |pool| <= FaissHandler.PoolSize
    ensures prompt == ChainOfThought.Preamble + ChainOfThought.Context(AsContext(FaissHandler.Project(pool)))
      + "\n\nQuestion: " + query + "\nAnswer:"
  {
    var relevant := FaissHandler.GetTopChunks(pool, query, AppTopK);
    FaissHandler.AppSelectsWholePool(pool, query);
    prompt := ChainOfThought.CotPrompt(query, AsContext(relevant));
  }

  // ---------------------------------------------------------------------
  // Metric presentation
  // ---------------------------------------------------------------------

  datatype Quality = Poor | Fair | Good | Excellent

  /** `quality_level`: the four levels partition the scores into bands at
      0.3, 0.5 and 0.75. */
  function QualityLevel(score: real): (q: Quality)
    ensures q == Excellent <==> 0.75 <= score
    ensures q == Good <==> 0.5 <= score < 0.75
    ensures q == Fair <==> 0.3 <= score < 0.5
    ensures q == Poor <==> score < 0.3
  {
    if score >= 0.75 then Excellent
    else if 0.5 <= score < 0.75 then Good
    else if 0.3 <= score < 0.5 then Fair
    else Poor
  }

  function Rank(q: Quality): nat {
    match q
    case Poor => 0
    case Fair => 1
    case Good => 2
    case Excellent => 3
  }

  /** A higher score never gets a lower level. */
  lemma QualityMonotone(a: real, b: real)
    requires a <= b
    ensures Rank(QualityLevel(a)) <= Rank(QualityLevel(b))
  {
  }

  /** The key the table and the explanations skip. */
  const ModelUsed: string := "Model Used"

  /** The metric table rows: every result except `Model Used`, in order. */
  function MetricPairs(results: seq<(string, real)>): (r: seq<(string, real)>)
    ensures IsSubsequence(r, results)
    ensures forall p :: p in r ==> p.0 != ModelUsed
    ensures forall p :: p in results && p.0 != ModelUsed ==> p in r
    decreases |results|
  {
    if results == [] then []
    else if results[0].0 != ModelUsed then [results[0]] + MetricPairs(results[1..])
    else
      var r := MetricPairs(results[1..]);
      SubsequenceSkip(r, results);
      r
  }

  const NoExplanation: string := "No explanation available."

  /** The explanation texts, keyed by metric name. */
  const ExplanationMap: map<string, string> := map[
    "ROUGE-1" :=
      "Measures the overlap of **unigrams** (individual words) between the model\U{2019}s answer and the expected answer.\n\n"
      + "- High score (\U{2265} 0.75): Excellent word overlap.\n"
      + "- Moderate score (0.50\U{2013}0.75): Good overlap, minor wording differences.\n"
      + "- Low score (< 0.50): Significant wording mismatch or missing terms.",
    "ROUGE-L" :=
      "Focuses on the **longest common subsequence** between predicted and actual answers, capturing structure/order.\n\n"
      + "- High score (\U{2265} 0.75): Structure and phrasing are highly aligned.\n"
      + "- Moderate score (0.50\U{2013}0.75): Generally aligned but with reordered phrases.\n"
      + "- Low score (< 0.50): Different phrasing or fragmented structure.",
    "Cosine Similarity" :=
      "Measures the **semantic similarity** between the model\U{2019}s answer and the expected one.\n\n"
      + "- High score (\U{2265} 0.85): Strong semantic match.\n"
      + "- Moderate score (0.60\U{2013}0.85): Similar meaning with different wording.\n"
      + "- Low score (< 0.60): Weak or incorrect meaning.",
    "F1_SCORE" :=
      "Harmonic mean of **precision** and **recall**, reflecting correctness and completeness.\n\n"
      + "- High score (\U{2265} 0.75): Mostly correct and complete.\n"
      + "- Moderate score (0.50\U{2013}0.75): Some errors or omissions.\n"
      + "- Low score (< 0.50): Many incorrect or missing pieces.",
    "Accuracy" :=
      "Measures whether the predicted answer **exactly matches** the expected answer.\n\n"
      + "- Score of 1.00: Perfect match.\n"
      + "- Score of 0.00: No exact matches.\n"
      + "- This metric is harsh \U{2014} even small variations will reduce it."
  ]

  /** `explanation_map.get(metric, "No explanation available.")`. */
  function Explanation(metric: string): string {
    if metric in ExplanationMap then ExplanationMap[metric] else NoExplanation
  }

  /** The metric names the evaluation reports, in order. */
  const ResultKeys: seq<string> := ["ROUGE-1", "ROUGE-L", "Cosine Similarity", "F1_Score", "Accuracy"]

  /** Of the metrics the evaluation reports, exactly `F1_Score` gets no
      explanation: the map spells its key `F1_SCORE`, and the lookup is
      case-sensitive. */
  lemma OnlyF1ScoreUnexplained()
    ensures forall k :: k in ResultKeys ==> (Explanation(k) == NoExplanation <==> k == "F1_Score")
  {
    assert "F1_Score" != "F1_SCORE";
    forall k | k in ResultKeys && k != "F1_Score" ensures Explanation(k) != NoExplanation {
      assert k in ExplanationMap;
      assert ExplanationMap[k] != NoExplanation by {
        assert |ExplanationMap[k]| > |NoExplanation|;
      }
    }
  }

  /** One explained metric: name, score, level and explanation text. */
  datatype MetricReport = MetricReport(metric: string, score: real, level: Quality, explanation: string)

  function Report(p: (string, real)): MetricReport {
    MetricReport(p.0, p.1, QualityLevel(p.1), Explanation(p.0))
  }

  /** The reports of a list of metric pairs. */
  function Reports(pairs: seq<(string, real)>): (r: seq<MetricReport>)
    ensures |r| == |pairs|
  {
    seq(|pairs|, j requires 0 <= j < |pairs| => Report(pairs[j]))
  }
  /** The explanation loop: one report per result other than `Model Used`,
      in result order, with the level of its score and its explanation. */
  method ExplainMetrics(results: seq<(string, real)>) returns (reports: seq<MetricReport>)
    ensures reports == Reports(MetricPairs(results))
  {
    reports := [];
    for i := 0 to |results|
      invariant reports == Reports(MetricPairs(results[..i]))
    {
      var (metric, score) := results[i];
      MetricPairsSnoc(results, i);
      if metric == ModelUsed {
        continue;
      }
      var explanation := Explanation(metric);
      var level := QualityLevel(score);
      ReportsSnoc(MetricPairs(results[..i]), results[i]);
      reports := reports + [MetricReport(metric, score, level, explanation)];
    }
    assert results[..|results|] == results;
  }

  lemma ReportsSnoc(pairs: seq<(string, real)>, p: (string, real))
    ensures Reports(pairs + [p]) == Reports(pairs) + [Report(p)]
  {
  }

  lemma {:induction false} MetricPairsAppend(a: seq<(string, real)>, b: seq<(string, real)>)
    ensures MetricPairs(a + b) == MetricPairs(a) + MetricPairs(b)
    decreases |a|
  {
    if a == [] {
      assert a + b == b;
    } else {
      assert (a + b)[1..] == a[1..] + b;
      MetricPairsAppend(a[1..], b);
    }
  }

  lemma MetricPairsSnoc(results: seq<(string, real)>, i: nat)
    requires i < |results|
    ensures MetricPairs(results[..i + 1]) ==
      MetricPairs(results[..i]) + (if results[i].0 != ModelUsed then [results[i]] else [])
  {
    assert results[..i + 1] == results[..i] + [results[i]];
    MetricPairsAppend(results[..i], [results[i]]);
  }

  /** No report is about `Model Used`, and every other result is reported. */
  lemma ReportsSkipModelUsed(results: seq<(string, real)>)
    ensures forall r :: r in Reports(MetricPairs(results)) ==> r.metric != ModelUsed
    ensures forall p :: p in results && p.0 != ModelUsed ==> Report(p) in Reports(MetricPairs(results))
  {
    forall p | p in results && p.0 != ModelUsed ensures Report(p) in Reports(MetricPairs(results)) {
      var pairs := MetricPairs(results);
      var j :| 0 <= j < |pairs| && pairs[j] == p;
      assert Reports(pairs)[j] == Report(p);
    }
  }
}
