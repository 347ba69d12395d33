/** Index build and year-aware top-k selection. Embedding and similarity
    search are not modelled: the candidate pool that the similarity search
    returns, already in similarity order, is an input. */
module FaissHandler {
  import opened Wrappers
  import opened Text
  import Chunker

  /** Metadata of an indexed document: `{"filename": ...}`. */
  datatype Metadata = Metadata(filename: string)

  /** An indexed document: its page content and metadata. */
  datatype Document = Document(pageContent: string, metadata: Metadata)

  /** A retrieval result `{"content": ..., "metadata": ...}`. */
  datatype Retrieved = Retrieved(content: string, metadata: Metadata)

  /** Size of the candidate pool the similarity search is asked for. */
  const PoolSize: nat := 3

  /** `build_faiss_index`, the part that turns chunks into documents: one
      document per chunk, in order, with the chunk's content and its filename
      (or `"Unknown"`). */
  method BuildFaissIndex(chunks: seq<Chunker.Doc>) returns (documents: seq<Document>)
    requires forall i :: 0 <= i < |chunks| ==> chunks[i].Dict? && chunks[i].content.Some?
    ensures |documents| == |chunks|
    ensures forall i :: 0 <= i < |chunks| ==>
      && documents[i].pageContent == chunks[i].content.value
      && documents[i].metadata.filename == chunks[i].filename.GetOr("Unknown")
  {
    documents := [];
    for i := 0 to |chunks|
      invariant |documents| == i
      invariant forall j :: 0 <= j < i ==>
        && documents[j].pageContent == chunks[j].content.value
        && documents[j].metadata.filename == chunks[j].filename.GetOr("Unknown")
    {
      var chunk := chunks[i];
      documents := documents + [Document(chunk.content.value, Metadata(chunk.filename.GetOr("Unknown")))];
    }
  }

  // ---------------------------------------------------------------------
  // Year detection: `re.search(r"\b(20\d{2})\b", query)`
  // ---------------------------------------------------------------------

  /** A word-bounded `20dd` token starts at `i`: `2`, `0`, two digits, and no
      word character right before or right after. */
  predicate IsYearAt(q: string, i: int) {
    && 0 <= i && i + 4 <= |q|
    && q[i] == '2' && q[i + 1] == '0' && IsDigit(q[i + 2]) && IsDigit(q[i + 3])
    && (i == 0 || !IsWordChar(q[i - 1]))
    && (i + 4 == |q| || !IsWordChar(q[i + 4]))
  }

  /** The leftmost year position at or after `from`. */
  function FindYearFrom(q: string, from: nat): (r: Option<nat>)
    requires from <= |q|
    ensures r.Some? ==> from <= r.value && IsYearAt(q, r.value)
    ensures r.Some? ==> forall j :: from <= j < r.value ==> !IsYearAt(q, j)
    ensures r.None? ==> forall j :: from <= j ==> !IsYearAt(q, j)
    decreases |q| - from
  {
    if from + 4 > |q| then None
    else if IsYearAt(q, from) then Some(from)
    else FindYearFrom(q, from + 1)
  }

  /** The year the query mentions, if any: the leftmost word-bounded `20dd`. */
  function Year(q: string): (r: Option<string>)
    ensures r.Some? <==> exists i :: IsYearAt(q, i)
    ensures r.Some? ==> exists i ::
      && IsYearAt(q, i)
      && r.value == q[i..i + 4]
      && (forall j :: 0 <= j < i ==> !IsYearAt(q, j))
  {
    match FindYearFrom(q, 0)
    case Some(p) => Some(q[p..p + 4])
    case None => None
  }

  /** `FY2024` and `20245` mention no year; `in 2014` mentions 2014. */
  lemma YearExamples()
    ensures Year("FY2024") == None
    ensures Year("20245") == None
    ensures Year("in 2014") == Some("2014")
  {
    assert !IsYearAt("FY2024", 2) by { assert IsWordChar("FY2024"[1]); }
    assert !IsYearAt("20245", 0) by { assert IsWordChar("20245"[4]); }
    assert IsYearAt("in 2014", 3);
    assert "in 2014"[3..7] == "2014";
  }

  // ---------------------------------------------------------------------
  // Selection
  // ---------------------------------------------------------------------

  /** `[doc for doc in pool if year in doc.page_content]`. */
  function Mentioning(pool: seq<Document>, year: string): (r: seq<Document>)
    ensures IsSubsequence(r, pool)
    ensures forall d :: d in r ==> Contains(d.pageContent, year)
    ensures forall d :: d in pool && Contains(d.pageContent, year) ==> d in r
    ensures forall d {:trigger multiset(r)[d]} :: multiset(r)[d] == if Contains(d.pageContent, year) then multiset(pool)[d] else 0
    decreases |pool|
  {
    if pool == [] then []
    else
      assert pool == [pool[0]] + pool[1..];
      if Contains(pool[0].pageContent, year) then [pool[0]] + Mentioning(pool[1..], year)
      else
        var r := Mentioning(pool[1..], year);
        SubsequenceSkip(r, pool);
        r
  }

  /** The documents `get_top_chunks` keeps from the pool, before projection.
      Whatever branch is taken, the selection keeps `min(top_k, |pool|)`
      documents of the pool in their similarity order; it never re-sorts. */
  function SelectTop(pool: seq<Document>, query: string, topK: nat): (r: seq<Document>)
    ensures |r| == (if topK < |pool| then topK else |pool|)
    ensures IsSubsequence(r, pool)
  {
    PrefixIsSubsequence(pool, |Take(pool, topK)|);
    match Year(query)
    case None => Take(pool, topK)
    case Some(year) =>
      var filtered := Mentioning(pool, year);
      SubsequenceLength(filtered, pool);
      if |filtered| >= topK then
        PrefixIsSubsequence(filtered, topK);
        SubsequenceTrans(Take(filtered, topK), filtered, pool);
        Take(filtered, topK)
      else Take(pool, topK)
  }

  /** With a year and at least `top_k` pool entries containing it, the
      result is the first `top_k` of them, each containing the year. */
  lemma YearFilterApplies(pool: seq<Document>, query: string, topK: nat)
    requires Year(query).Some?
    requires |Mentioning(pool, Year(query).value)| >= topK
    ensures var r := SelectTop(pool, query, topK);
      && r == Mentioning(pool, Year(query).value)[..topK]
      && forall d :: d in r ==> Contains(d.pageContent, Year(query).value)
  {
    var filtered := Mentioning(pool, Year(query).value);
    forall d | d in filtered[..topK] ensures d in filtered { }
  }

  /** With a year but fewer than `top_k` entries containing it, the filter
      is discarded and the unfiltered prefix is returned; without a year the
      unfiltered prefix is returned too. */
  lemma YearFilterFallsBack(pool: seq<Document>, query: string, topK: nat)
    requires Year(query).None? || |Mentioning(pool, Year(query).value)| < topK
    ensures SelectTop(pool, query, topK) == Take(pool, topK)
  {
  }

  /** The app asks for five results from a pool of at most three: the year
      filter can never take effect, and the whole pool is returned. */
  lemma AppSelectsWholePool(pool: seq<Document>, query: string)
    requires |pool| <= PoolSize
    ensures SelectTop(pool, query, 5) == pool
  {
    match Year(query)
    case None =>
    case Some(year) =>
      SubsequenceLength(Mentioning(pool, year), pool);
  }

  /** The projection `{"content": doc.page_content, "metadata": doc.metadata}`. */
  function Project(docs: seq<Document>): (r: seq<Retrieved>)
    ensures |r| == |docs|
    ensures forall i :: 0 <= i < |docs| ==>
      r[i].content == docs[i].pageContent && r[i].metadata == docs[i].metadata
  {
    seq(|docs|, i requires 0 <= i < |docs| => Retrieved(docs[i].pageContent, docs[i].metadata))
  }

  lemma {:induction false} ProjectSubsequence(a: seq<Document>, b: seq<Document>)
    requires IsSubsequence(a, b)
    ensures IsSubsequence(Project(a), Project(b))
    decreases |b|
  {
    if a != [] {
      assert Project(b)[1..] == Project(b[1..]);
      assert Project(a)[1..] == Project(a[1..]);
      if a[0] == b[0] {
        ProjectSubsequence(a[1..], b[1..]);
      } else {
        ProjectSubsequence(a, b[1..]);
        SubsequenceSkip(Project(a), Project(b));
      }
    }
  }

  /** `get_top_chunks` on the candidate pool the similarity search returned.
      Every result is an unchanged copy of a pool document's content and
      metadata; there are `min(top_k, |pool|)` of them, in pool order. */
  function GetTopChunks(pool: seq<Document>, query: string, topK: nat): (r: seq<Retrieved>)
    ensures |r| == (if topK < |pool| then topK else |pool|)
    ensures IsSubsequence(r, Project(pool))
  {
    ProjectSubsequence(SelectTop(pool, query, topK), pool);
    Project(SelectTop(pool, query, topK))
  }
}
