/** Chain-of-thought prompt assembly: a context made of one block per
    retrieved chunk, placed into a fixed instruction template. */
module ChainOfThought {
  import opened Wrappers
  import opened Text

  /** A chunk as the prompt reads it: its `content`, an optional `filename`
      key and an optional `metadata["filename"]`. */
  datatype ContextChunk = ContextChunk(content: string, filename: Option<string>, metadataFilename: Option<string>)

  /** Characters of each chunk's content that go into the context. */
  const ExcerptLength: nat := 1000

  /** The name a block is labelled with: the chunk's `filename`, else its
      metadata's `filename`, else `"Unknown"`. */
  function SourceName(c: ContextChunk): string {
    c.filename.GetOr(c.metadataFilename.GetOr("Unknown"))
  }

  /** Every chunk's content cut to its first 1000 characters. */
  function Excerpts(chunks: seq<ContextChunk>): (r: seq<string>)
    ensures |r| == |chunks|
  {
    seq(|chunks|, i requires 0 <= i < |chunks| => Take(chunks[i].content, ExcerptLength))
  }

  /** The body of every block: the generator inside the loop iterates over
      all chunks, not just the current one, so each block holds all
      excerpts joined by a blank line. */
  function Body(chunks: seq<ContextChunk>): string {
    Join(Excerpts(chunks), "\n\n")
  }

  function Block(name: string, body: string): string {
    "\n\nFrom " + name + ":\n" + body
  }

  /** One block per chunk, in input order, all with the same body. */
  function Blocks(chunks: seq<ContextChunk>, body: string): (r: seq<string>)
    ensures |r| == |chunks|
  {
    seq(|chunks|, i requires 0 <= i < |chunks| => Block(SourceName(chunks[i]), body))
  }

  /** The context the loop accumulates. */
  function Context(chunks: seq<ContextChunk>): string {
    Concat(Blocks(chunks, Body(chunks)))
  }

  /** The fixed instructions and worked examples, up to the context. */
  const Preamble: string :=
    "You are a smart assistant. Use clear, step-by-step reasoning to answer based on the provided context.\n" +
    "\n" +
    "Before answering, follow these steps:\n" +
    "1. Understand the question and its assumptions.\n" +
    "2. Check if the context supports the question\'s premise (e.g., names, years, events).\n" +
    "3. If an assumption is incorrect or not found in the context, politely correct it.\n" +
    "4. If the answer isn\'t present, say so clearly.\n" +
    "5. If valid, break down the answer step by step, especially for time-based questions (year/month), and respond chronologically.\n" +
    "\n" +
    "---\n" +
    "\n" +
    "Example 1:\n" +
    "Context: Flipkart acquired Myntra in 2014 to expand its fashion e-commerce reach.\n" +
    "Question: Why did Flipkart acquire Myntra?\n" +
    "Answer:\n" +
    "1. Myntra was strong in fashion.\n" +
    "2. Flipkart lacked that domain strength.\n" +
    "3. Acquisition filled the gap.\n" +
    "Final Answer: To strengthen its position in fashion e-commerce.\n" +
    "\n" +
    "---\n" +
    "\n" +
    "Example 2:\n" +
    "Context: In May 2024, Google invested $350 million in Flipkart.\n" +
    "Question: What happened in May 2024?\n" +
    "Answer:\n" +
    "1. Google made a strategic investment.\n" +
    "2. The investment was worth $350 million.\n" +
    "Final Answer: Google invested $350 million in Flipkart.\n" +
    "\n" +
    "---\n" +
    "\n" +
    "Example 3:\n" +
    "Context: Flipkart was founded in October 2007 by Sachin Bansal and Binny Bansal.\n" +
    "Question: When did Jac find Flipkart?\n" +
    "Answer:\n" +
    "1. The question assumes someone named Jac founded Flipkart.\n" +
    "2. The context shows it was Sachin and Binny Bansal in 2007.\n" +
    "Final Answer: No one named Jac founded Flipkart. It was founded by Sachin and Binny Bansal.\n" +
    "\n" +
    "---\n" +
    "\n" +
    "Now, use the same reasoning for the following:\n" +
    "\n" +
    "Context:\n"

  /** `cot_prompt`: the context is accumulated block by block, then placed
      between the preamble and the question, which is inserted verbatim. */
  method CotPrompt(query: string, chunks: seq<ContextChunk>) returns (prompt: string)
    ensures prompt == Preamble + Context(chunks) + "\n\nQuestion: " + query + "\nAnswer:"
  {
    var context := "";
    for i := 0 to |chunks|
      invariant context == Concat(Blocks(chunks[..i], Body(chunks)))
    {
      var chunk := chunks[i];
      var filename := chunk.filename.GetOr(chunk.metadataFilename.GetOr("Unknown"));
      var content := Body(chunks);
      BlocksSnoc(chunks, i, content);
      ConcatAppend(Blocks(chunks[..i], content), Block(filename, content));
      context := context + "\n\nFrom " + filename + ":\n" + content;
    }
    assert chunks[..|chunks|] == chunks;
    prompt := Preamble + context + "\n\nQuestion: " + query + "\nAnswer:";
  }

  lemma BlocksSnoc(chunks: seq<ContextChunk>, i: nat, body: string)
    requires i < |chunks|
    ensures Blocks(chunks[..i + 1], body) == Blocks(chunks[..i], body) + [Block(SourceName(chunks[i]), body)]
  {
    assert chunks[..i + 1][i] == chunks[i];
  }

  /** No chunks, no context. */
  lemma EmptyContext()
    ensures Context([]) == ""
  {
    assert Blocks([], Body([])) == [];
  }

  /** The quirk of the shared body: the block of any chunk `i` holds the
      excerpt of every chunk `j`, not only its own. */
  lemma EveryBlockHoldsEveryExcerpt(chunks: seq<ContextChunk>, i: nat, j: nat)
    requires i < |chunks| && j < |chunks|
    ensures StartsWith(Blocks(chunks, Body(chunks))[i], "\n\nFrom " + SourceName(chunks[i]) + ":\n")
    ensures Contains(Blocks(chunks, Body(chunks))[i], Take(chunks[j].content, ExcerptLength))
  {
    var body := Body(chunks);
    var head := "\n\nFrom " + SourceName(chunks[i]) + ":\n";
    JoinContainsPart(Excerpts(chunks), "\n\n", j);
    ContainsInfix(head, body, "", Take(chunks[j].content, ExcerptLength));
    assert head + body + "" == Blocks(chunks, body)[i];
    assert (head + body)[..|head|] == head;
  }

  /** No chunk contributes more than 1000 characters to a block: the shared
      body has at most 1002 characters per chunk (excerpt and separator). */
  lemma BodyLength(chunks: seq<ContextChunk>)
    ensures forall j :: 0 <= j < |chunks| ==> |Excerpts(chunks)[j]| <= ExcerptLength
    ensures |Body(chunks)| <= |chunks| * (ExcerptLength + 2)
  {
    JoinLengthBound(Excerpts(chunks), "\n\n", ExcerptLength);
  }
}
