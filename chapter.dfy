/**
  `summarize_chapter_content` and `condense_recap`: a chapter's chunks go to
  the rewriting oracle one at a time, in order, and each call threads the
  accumulated output, the rolling recap and the continuation snippet on to
  the next. Oracle failures are absorbed: a failed chunk is skipped, a failed
  condensation keeps the recap it was given.
 */
module Chapter {
  import opened Text
  import opened Optional
  import Chunker

  /** The recap a book starts with. */
  const Sentinel := "This is the beginning of the book."

  /** How many trailing characters of the previous output seed the next prompt. */
  const SnippetLength := 150

  /** The fixed text around the snippet in the continuation instruction. */
  const ContinuationLead := "\nYour response should seamlessly continue the story from this ending snippet of the previous part: '..."
  const ContinuationEnd := "'\n"

  /** The configuration values the chapter processor reads: `CHUNK_SIZE` and `MAX_RECAP_SIZE`. */
  datatype Config = Config(chunkSize: int, maxRecapSize: int)

  /** A non-positive budget switches the recap off. */
  predicate RecapEnabled(cfg: Config) {
    cfg.maxRecapSize > 0
  }

  /** What one oracle call gives back: the response text, or an error raised by the client. */
  datatype Reply = Ok(text: string) | Err

  /**
    What an oracle call carries. The fixed instructions and the template text
    around these values are left abstract; a rewrite call quotes its snippet
    in `ContinuationInstruction(snippet)`.
   */
  datatype Prompt =
    | Rewrite(chunk: string, snippet: string, recapSection: Option<string>)
    | Condense(recap: string)

  /** The oracle's reply to its k-th call (counting from 0). */
  type Oracle = nat -> Reply

  /** The same oracle with its first `n` replies already used. */
  function Shift(oracle: Oracle, n: nat): Oracle {
    (k: nat) => oracle(n + k)
  }

  /** `text.strip()[-150:]`; `SnippetRules` states what it is. */
  function Snippet(text: string): string
  {
    Tail(Strip(text), SnippetLength)
  }

  /** The snippet is the last (at most 150) characters of the stripped text, and empty only for blank text. */
  lemma SnippetRules(text: string)
    ensures |Snippet(text)| <= SnippetLength
    ensures Snippet(text) == [] <==> AllSpace(text)
    ensures |Snippet(text)| <= |Strip(text)| && Snippet(text) == Strip(text)[|Strip(text)| - |Snippet(text)|..]
    ensures |Strip(text)| <= SnippetLength ==> Snippet(text) == Strip(text)
    ensures |Strip(text)| > SnippetLength ==> |Snippet(text)| == SnippetLength
  {
  }

  /** The snippet for a chapter's first chunk, taken from the recap the chapter starts with. */
  function InitialSnippet(recap: string): (r: string)
    ensures r == [] <==> recap == Sentinel || AllSpace(recap)
    ensures recap != Sentinel ==> r == Snippet(recap)
  {
    SnippetRules(recap);
    if recap != Sentinel then Snippet(recap) else []
  }

  /** The continuation instruction: present exactly when there is a snippet, and then quoting it. */
  function ContinuationInstruction(snippet: string): (r: string)
    ensures r == [] <==> snippet == []
    ensures snippet != [] ==>
      |ContinuationLead| + |snippet| <= |r| && r[|ContinuationLead|..|ContinuationLead| + |snippet|] == snippet
  {
    if snippet == [] then [] else ContinuationLead + snippet + ContinuationEnd
  }

  /** `condense_recap(recap_text, llm)`, given the reply to its one oracle call. */
  function CondenseRecap(recap: string, reply: Reply): string
  {
    match reply
    case Ok(condensed) => condensed
    case Err => recap
  }

  /** The recap after a successful chunk; `ExtendRules` states what it is. */
  function Extend(recap: string, summary: string): string
  {
    if recap == Sentinel then summary else recap + "\n\n" + summary
  }

  /** The new summary replaces the sentinel recap, and otherwise follows the recap after a blank line. */
  lemma ExtendRules(recap: string, summary: string)
    ensures recap == Sentinel ==> Extend(recap, summary) == summary
    ensures recap != Sentinel ==>
      var r := Extend(recap, summary);
      && |r| == |recap| + 2 + |summary|
      && r[..|recap|] == recap && r[|recap|..|recap| + 2] == "\n\n" && r[|recap| + 2..] == summary
  {
  }

  /** The loop variables: `summarized_content`, `recap`, `last_summary_snippet`, and the calls made so far. */
  datatype ChapterState = ChapterState(output: string, recap: string, snippet: string, prompts: seq<Prompt>)

  /** The state before the first chunk. */
  function Initial(recap: string): ChapterState
  {
    ChapterState([], recap, InitialSnippet(recap), [])
  }

  /** The rewrite call for `chunk`: the current snippet, and the recap when it is enabled. */
  function RewritePrompt(cfg: Config, st: ChapterState, chunk: string): Prompt
  {
    Rewrite(chunk, st.snippet, if RecapEnabled(cfg) then Some(st.recap) else None)
  }

  /** One pass of the loop over chunks, `try` and `except` included; `StepRules` states what it does. */
  function Step(cfg: Config, st: ChapterState, chunk: string, oracle: Oracle): ChapterState
  {
    var k := |st.prompts|;
    var prompts := st.prompts + [RewritePrompt(cfg, st, chunk)];
    match oracle(k)
    case Err => st.(prompts := prompts)
    case Ok(summary) =>
      var output := st.output + summary + "\n\n";
      var snippet := Snippet(summary);
      if !RecapEnabled(cfg) then ChapterState(output, st.recap, snippet, prompts)
      else
        var grown := Extend(st.recap, summary);
        if |grown| > cfg.maxRecapSize then
          ChapterState(output, CondenseRecap(grown, oracle(k + 1)), snippet, prompts + [Condense(grown)])
        else ChapterState(output, grown, snippet, prompts)
  }

  /** The rules of one pass over a chunk. */
  lemma StepRules(cfg: Config, st: ChapterState, chunk: string, oracle: Oracle)
    ensures var r := Step(cfg, st, chunk, oracle); var k := |st.prompts|;
      && k < |r.prompts| <= k + 2
      && r.prompts[..k] == st.prompts
      && r.prompts[k] == RewritePrompt(cfg, st, chunk)
    // a failed call skips the chunk: nothing but the call log changes
    ensures var r := Step(cfg, st, chunk, oracle); var k := |st.prompts|;
      oracle(k).Err? ==> r.output == st.output && r.recap == st.recap && r.snippet == st.snippet && |r.prompts| == k + 1
    // a successful call appends its text and becomes the next snippet
    ensures var r := Step(cfg, st, chunk, oracle); var k := |st.prompts|;
      oracle(k).Ok? ==> r.output == st.output + oracle(k).text + "\n\n" && r.snippet == Snippet(oracle(k).text)
    // a disabled recap is never touched and never condensed
    ensures var r := Step(cfg, st, chunk, oracle);
      !RecapEnabled(cfg) ==> r.recap == st.recap && |r.prompts| == |st.prompts| + 1
    // an enabled recap grows by the summary and is condensed exactly when it exceeds the budget
    ensures var r := Step(cfg, st, chunk, oracle); var k := |st.prompts|;
      RecapEnabled(cfg) && oracle(k).Ok? ==>
        var grown := Extend(st.recap, oracle(k).text);
        && (|r.prompts| == k + 2 <==> |grown| > cfg.maxRecapSize)
        && (|grown| <= cfg.maxRecapSize ==> r.recap == grown)
        && (|grown| > cfg.maxRecapSize ==> r.prompts[k + 1] == Condense(grown))
        && (|grown| > cfg.maxRecapSize && oracle(k + 1).Ok? ==> r.recap == oracle(k + 1).text)
        && (|grown| > cfg.maxRecapSize && oracle(k + 1).Err? ==> r.recap == grown)
  {
  }

  /** The state after the loop has handled `chunks`. */
  function Run(cfg: Config, chunks: seq<string>, recap: string, oracle: Oracle): ChapterState
    decreases |chunks|
  {
    if chunks == [] then Initial(recap)
    else Step(cfg, Run(cfg, chunks[..|chunks| - 1], recap, oracle), chunks[|chunks| - 1], oracle)
  }

  /** `summarize_chapter_content` on a chapter whose extracted text is `text`. */
  function SummarizeChapter(cfg: Config, text: string, recap: string, oracle: Oracle): ChapterState
    requires cfg.chunkSize > 0
  {
    Run(cfg, Chunker.Chunks(Strip(text), cfg.chunkSize), recap, oracle)
  }

  /** In call order, `summary + "\n\n"` for every rewrite call that succeeded. */
  function Successes(prompts: seq<Prompt>, oracle: Oracle): string
    decreases |prompts|
  {
    if prompts == [] then []
    else
      var k := |prompts| - 1;
      Successes(prompts[..k], oracle) + (if prompts[k].Rewrite? && oracle(k).Ok? then oracle(k).text + "\n\n" else [])
  }

  /** The chunks of the rewrite calls, in call order. */
  function RewrittenChunks(prompts: seq<Prompt>): seq<string>
    decreases |prompts|
  {
    if prompts == [] then []
    else
      var k := |prompts| - 1;
      RewrittenChunks(prompts[..k]) + (if prompts[k].Rewrite? then [prompts[k].chunk] else [])
  }

  lemma PrefixOfPrefix<T>(s: seq<T>, i: nat, j: nat)
    requires j <= i <= |s|
    ensures s[..i][..j] == s[..j] && s[..|s|] == s
  {
  }

  lemma PrefixExtends<T>(a: seq<T>, b: seq<T>, c: seq<T>)
    requires |a| <= |b| && b[..|a|] == a
    requires |b| <= |c| && c[..|b|] == b
    ensures |a| <= |c| && c[..|a|] == a
  {
    assert c[..|a|] == c[..|b|][..|a|];
  }

  lemma OutputPrefix(a: string, c: string, reply: Reply)
    requires reply.Err? ==> c == a
    requires reply.Ok? ==> c == a + reply.text + "\n\n"
    ensures |a| <= |c| && c[..|a|] == a
  {
  }

  lemma SplitLast<T>(s: seq<T>)
    requires s != []
    ensures s[..|s| - 1] + [s[|s| - 1]] == s
  {
  }

  lemma LogAppend(prompts: seq<Prompt>, p: Prompt, oracle: Oracle)
    ensures Successes(prompts + [p], oracle)
      == Successes(prompts, oracle) + (if p.Rewrite? && oracle(|prompts|).Ok? then oracle(|prompts|).text + "\n\n" else [])
    ensures RewrittenChunks(prompts + [p]) == RewrittenChunks(prompts) + (if p.Rewrite? then [p.chunk] else [])
  {
    assert (prompts + [p])[..|prompts|] == prompts;
  }

  /** Logging a rewrite call adds its chunk, and its reply's text when it succeeds. */
  lemma LogRewrite(prompts: seq<Prompt>, p: Prompt, oracle: Oracle, before: string, after: string)
    requires before == Successes(prompts, oracle) && p.Rewrite?
    requires oracle(|prompts|).Err? ==> after == before
    requires oracle(|prompts|).Ok? ==> after == before + oracle(|prompts|).text + "\n\n"
    ensures RewrittenChunks(prompts + [p]) == RewrittenChunks(prompts) + [p.chunk]
    ensures Successes(prompts + [p], oracle) == after
  {
    LogAppend(prompts, p, oracle);
  }

  /** Logging a condensation call changes neither the chunks sent nor the output. */
  lemma LogCondense(prompts: seq<Prompt>, p: Prompt, oracle: Oracle)
    requires p.Condense?
    ensures RewrittenChunks(prompts + [p]) == RewrittenChunks(prompts)
    ensures Successes(prompts + [p], oracle) == Successes(prompts, oracle)
  {
    LogAppend(prompts, p, oracle);
  }

  /** A state that logs one rewrite call for `chunk`, maybe one condensation, and gains that call's success. */
  lemma LogStep(st: ChapterState, r: ChapterState, chunk: string, oracle: Oracle)
    requires st.output == Successes(st.prompts, oracle)
    requires var k := |st.prompts|;
      && k < |r.prompts| <= k + 2
      && r.prompts[..k] == st.prompts
      && r.prompts[k].Rewrite? && r.prompts[k].chunk == chunk
      && (|r.prompts| == k + 2 ==> r.prompts[k + 1].Condense?)
      && (oracle(k).Err? ==> r.output == st.output)
      && (oracle(k).Ok? ==> r.output == st.output + oracle(k).text + "\n\n")
    ensures RewrittenChunks(r.prompts) == RewrittenChunks(st.prompts) + [chunk]
    ensures r.output == Successes(r.prompts, oracle)
  {
    var k := |st.prompts|;
    var one := st.prompts + [r.prompts[k]];
    LogRewrite(st.prompts, r.prompts[k], oracle, st.output, r.output);
    if |r.prompts| == k + 2 {
      assert r.prompts == one + [r.prompts[k + 1]];
      LogCondense(one, r.prompts[k + 1], oracle);
    } else {
      assert r.prompts == one;
    }
  }

  /** One step logs exactly one rewrite call, for its chunk, and its output gains exactly that call's success. */
  lemma StepLog(cfg: Config, st: ChapterState, chunk: string, oracle: Oracle)
    requires st.output == Successes(st.prompts, oracle)
    ensures var r := Step(cfg, st, chunk, oracle);
      && RewrittenChunks(r.prompts) == RewrittenChunks(st.prompts) + [chunk]
      && r.output == Successes(r.prompts, oracle)
  {
    StepRules(cfg, st, chunk, oracle);
    LogStep(st, Step(cfg, st, chunk, oracle), chunk, oracle);
  }

  /**
    Every chunk is sent exactly once, in order, with no retry; the output is
    the in-order concatenation of the successful rewrites only; each chunk
    costs one call, or two when the recap is condensed after it.
   */
  lemma {:induction false} RunLog(cfg: Config, chunks: seq<string>, recap: string, oracle: Oracle)
    ensures var st := Run(cfg, chunks, recap, oracle);
      && RewrittenChunks(st.prompts) == chunks
      && st.output == Successes(st.prompts, oracle)
      && |chunks| <= |st.prompts| <= 2 * |chunks|
    decreases |chunks|
  {
    if chunks != [] {
      var n := |chunks| - 1;
      RunLog(cfg, chunks[..n], recap, oracle);
      StepLog(cfg, Run(cfg, chunks[..n], recap, oracle), chunks[n], oracle);
      SplitLast(chunks);
    }
  }

  /**
    The rules call `j` of a chapter obeys: a rewrite call carries the recap
    exactly when the recap is enabled, and a condensation call comes only right
    after a successful rewrite that pushed an enabled recap over its budget.
   */
  predicate ProperCall(cfg: Config, ps: seq<Prompt>, j: nat, oracle: Oracle)
    requires j < |ps|
  {
    && (ps[j].Rewrite? ==> (ps[j].recapSection.Some? <==> RecapEnabled(cfg)))
    && (ps[j].Condense? ==>
          RecapEnabled(cfg) && 0 < j && ps[j - 1].Rewrite? && oracle(j - 1).Ok?
          && |ps[j].recap| > cfg.maxRecapSize)
  }

  predicate ProperCalls(cfg: Config, ps: seq<Prompt>, oracle: Oracle) {
    forall j: nat :: j < |ps| ==> ProperCall(cfg, ps, j, oracle)
  }

  lemma ProperCallExtends(cfg: Config, ps: seq<Prompt>, qs: seq<Prompt>, j: nat, oracle: Oracle)
    requires j < |ps| <= |qs| && qs[..|ps|] == ps
    requires ProperCall(cfg, ps, j, oracle)
    ensures ProperCall(cfg, qs, j, oracle)
  {
    assert qs[j] == ps[j];
    if j > 0 {
      assert qs[j - 1] == ps[j - 1];
    }
  }

  /** Appending a rewrite call, maybe followed by a condensation made under the rules, keeps the call rules. */
  lemma CallsExtend(cfg: Config, ps: seq<Prompt>, qs: seq<Prompt>, oracle: Oracle)
    requires ProperCalls(cfg, ps, oracle)
    requires var k := |ps|;
      && k < |qs| <= k + 2 && qs[..k] == ps
      && qs[k].Rewrite? && (qs[k].recapSection.Some? <==> RecapEnabled(cfg))
      && (|qs| == k + 2 ==>
            RecapEnabled(cfg) && oracle(k).Ok? && qs[k + 1].Condense? && |qs[k + 1].recap| > cfg.maxRecapSize)
    ensures ProperCalls(cfg, qs, oracle)
  {
    forall j: nat | j < |qs|
      ensures ProperCall(cfg, qs, j, oracle)
    {
      if j < |ps| {
        ProperCallExtends(cfg, ps, qs, j, oracle);
      }
    }
  }

  /** One step keeps the call rules. */
  lemma StepCalls(cfg: Config, st: ChapterState, chunk: string, oracle: Oracle)
    requires ProperCalls(cfg, st.prompts, oracle)
    ensures ProperCalls(cfg, Step(cfg, st, chunk, oracle).prompts, oracle)
  {
    StepRules(cfg, st, chunk, oracle);
    CallsExtend(cfg, st.prompts, Step(cfg, st, chunk, oracle).prompts, oracle);
  }

  /** Every call a chapter makes obeys the call rules. */
  lemma {:induction false} RunCalls(cfg: Config, chunks: seq<string>, recap: string, oracle: Oracle)
    ensures ProperCalls(cfg, Run(cfg, chunks, recap, oracle).prompts, oracle)
    decreases |chunks|
  {
    if chunks != [] {
      var n := |chunks| - 1;
      RunCalls(cfg, chunks[..n], recap, oracle);
      StepCalls(cfg, Run(cfg, chunks[..n], recap, oracle), chunks[n], oracle);
    }
  }

  /** Step's result is pinned down field by field. */
  lemma StepIs(cfg: Config, st: ChapterState, chunk: string, oracle: Oracle, r: ChapterState)
    requires var k := |st.prompts|;
      && (oracle(k).Err? ==> r == st.(prompts := st.prompts + [RewritePrompt(cfg, st, chunk)]))
      && (oracle(k).Ok? ==>
            var summary := oracle(k).text;
            var grown := Extend(st.recap, summary);
            var prompts := st.prompts + [RewritePrompt(cfg, st, chunk)];
            && r.output == st.output + summary + "\n\n"
            && r.snippet == Snippet(summary)
            && (!RecapEnabled(cfg) ==> r.recap == st.recap && r.prompts == prompts)
            && (RecapEnabled(cfg) && |grown| <= cfg.maxRecapSize ==> r.recap == grown && r.prompts == prompts)
            && (RecapEnabled(cfg) && |grown| > cfg.maxRecapSize ==>
                  r.recap == CondenseRecap(grown, oracle(k + 1)) && r.prompts == prompts + [Condense(grown)]))
    ensures r == Step(cfg, st, chunk, oracle)
  {
  }

  lemma RunOne(cfg: Config, chunk: string, recap: string, oracle: Oracle)
    ensures Run(cfg, [chunk], recap, oracle) == Step(cfg, Initial(recap), chunk, oracle)
  {
    assert [chunk][..0] == [];
  }

  /**
    A chapter's first call rewrites its first chunk, quoting the snippet taken
    from the recap it was handed (none after the sentinel), and carrying that
    recap exactly when the recap is enabled.
   */
  lemma {:induction false} RunFirstCall(cfg: Config, chunks: seq<string>, recap: string, oracle: Oracle)
    requires chunks != []
    ensures |Run(cfg, chunks, recap, oracle).prompts| > 0
    ensures Run(cfg, chunks, recap, oracle).prompts[0]
      == Rewrite(chunks[0], InitialSnippet(recap), if RecapEnabled(cfg) then Some(recap) else None)
    decreases |chunks|
  {
    var n := |chunks| - 1;
    if n == 0 {
      RunOne(cfg, chunks[0], recap, oracle);
      assert chunks == [chunks[0]];
      StepRules(cfg, Initial(recap), chunks[0], oracle);
    } else {
      RunFirstCall(cfg, chunks[..n], recap, oracle);
      var mid := Run(cfg, chunks[..n], recap, oracle);
      StepRules(cfg, mid, chunks[n], oracle);
      var ps := Run(cfg, chunks, recap, oracle).prompts;
      assert ps[..|mid.prompts|][0] == ps[0];
    }
  }

  /** The loop's state after `i + 1` chunks is one more step from its state after `i`. */
  lemma RunNext(cfg: Config, chunks: seq<string>, i: nat, recap: string, oracle: Oracle)
    requires i < |chunks|
    ensures Run(cfg, chunks[..i + 1], recap, oracle) == Step(cfg, Run(cfg, chunks[..i], recap, oracle), chunks[i], oracle)
  {
    PrefixOfPrefix(chunks, i + 1, i);
  }

  /** When every oracle call fails, the chapter yields no text and the recap and snippet stay as they were. */
  lemma {:induction false} RunAllFail(cfg: Config, chunks: seq<string>, recap: string, oracle: Oracle)
    requires forall k :: oracle(k).Err?
    ensures var st := Run(cfg, chunks, recap, oracle);
      st.output == [] && st.recap == recap && st.snippet == InitialSnippet(recap) && |st.prompts| == |chunks|
    decreases |chunks|
  {
    if chunks != [] {
      RunAllFail(cfg, chunks[..|chunks| - 1], recap, oracle);
    }
  }

  /** With the recap disabled, the recap a chapter hands on is the one it was given. */
  lemma {:induction false} RunRecapDisabled(cfg: Config, chunks: seq<string>, recap: string, oracle: Oracle)
    requires !RecapEnabled(cfg)
    ensures Run(cfg, chunks, recap, oracle).recap == recap
    ensures |Run(cfg, chunks, recap, oracle).prompts| == |chunks|
    decreases |chunks|
  {
    if chunks != [] {
      RunRecapDisabled(cfg, chunks[..|chunks| - 1], recap, oracle);
    }
  }

  lemma StepOutputGrows(cfg: Config, st: ChapterState, chunk: string, oracle: Oracle)
    ensures var r := Step(cfg, st, chunk, oracle);
      |st.output| <= |r.output| && r.output[..|st.output|] == st.output
  {
    StepRules(cfg, st, chunk, oracle);
    OutputPrefix(st.output, Step(cfg, st, chunk, oracle).output, oracle(|st.prompts|));
  }

  /** Output is only ever appended to: what an earlier chunk produced stays at the front. */
  lemma {:induction false} RunOutputGrows(cfg: Config, chunks: seq<string>, i: nat, recap: string, oracle: Oracle)
    requires i <= |chunks|
    ensures var before := Run(cfg, chunks[..i], recap, oracle).output;
      var after := Run(cfg, chunks, recap, oracle).output;
      |before| <= |after| && after[..|before|] == before
    decreases |chunks|
  {
    if i < |chunks| {
      var n := |chunks| - 1;
      var mid := Run(cfg, chunks[..n], recap, oracle);
      var last := Run(cfg, chunks, recap, oracle);
      assert last == Step(cfg, mid, chunks[n], oracle);
      StepOutputGrows(cfg, mid, chunks[n], oracle);
      if i < n {
        RunOutputGrows(cfg, chunks[..n], i, recap, oracle);
        PrefixOfPrefix(chunks, n, i);
        PrefixExtends(Run(cfg, chunks[..i], recap, oracle).output, mid.output, last.output);
      }
    } else {
      PrefixOfPrefix(chunks, |chunks|, |chunks|);
    }
  }

  /** `summarize_chapter_content(item_content, llm, current_recap)`, on the extracted text of the chapter. */
  method SummarizeChapterContent(cfg: Config, text: string, currentRecap: string, oracle: Oracle)
    returns (output: string, recap: string, prompts: seq<Prompt>)
    requires cfg.chunkSize > 0
    ensures var st := SummarizeChapter(cfg, text, currentRecap, oracle);
      output == st.output && recap == st.recap && prompts == st.prompts
    ensures RewrittenChunks(prompts) == Chunker.Chunks(Strip(text), cfg.chunkSize)
    ensures output == Successes(prompts, oracle)
    ensures !RecapEnabled(cfg) ==> recap == currentRecap
  {
    var chunks := Chunker.ChunkText(text, cfg.chunkSize);
    output, recap, prompts := RewriteChunks(cfg, chunks, currentRecap, oracle);
  }

  /** The loop of `summarize_chapter_content` over the chunks of one chapter. */
  method RewriteChunks(cfg: Config, chunks: seq<string>, currentRecap: string, oracle: Oracle)
    returns (output: string, recap: string, prompts: seq<Prompt>)
    ensures var st := Run(cfg, chunks, currentRecap, oracle);
      output == st.output && recap == st.recap && prompts == st.prompts
    ensures RewrittenChunks(prompts) == chunks
    ensures output == Successes(prompts, oracle)
    ensures !RecapEnabled(cfg) ==> recap == currentRecap && |prompts| == |chunks|
  {
    output := [];
    recap := currentRecap;
    var recapEnabled := cfg.maxRecapSize > 0;
    var snippet := [];
    if recap != Sentinel {
      snippet := Tail(Strip(recap), SnippetLength);
    }
    prompts := [];
    for i := 0 to |chunks|
      invariant ChapterState(output, recap, snippet, prompts) == Run(cfg, chunks[..i], currentRecap, oracle)
    {
      ghost var before := ChapterState(output, recap, snippet, prompts);
      var section := if recapEnabled then Some(recap) else None;
      var reply := oracle(|prompts|);
      prompts := prompts + [Rewrite(chunks[i], snippet, section)];
      assert prompts == before.prompts + [RewritePrompt(cfg, before, chunks[i])];
      match reply {
        case Err =>
        case Ok(summary) =>
          output := output + summary + "\n\n";
          snippet := Tail(Strip(summary), SnippetLength);
          if recapEnabled {
            if recap == Sentinel {
              recap := summary;
            } else {
              recap := recap + "\n\n" + summary;
            }
            assert recap == Extend(before.recap, summary);
            if |recap| > cfg.maxRecapSize {
              var condensed := CondenseRecap(recap, oracle(|prompts|));
              prompts := prompts + [Condense(recap)];
              recap := condensed;
            }
          }
      }
      StepIs(cfg, before, chunks[i], oracle, ChapterState(output, recap, snippet, prompts));
      RunNext(cfg, chunks, i, currentRecap, oracle);
    }
    PrefixOfPrefix(chunks, |chunks|, |chunks|);
    RunLog(cfg, chunks, currentRecap, oracle);
    if !recapEnabled {
      RunRecapDisabled(cfg, chunks, currentRecap, oracle);
    }
  }

  /**
    The loop step as shipped: building the task section reads a template name
    that the configuration does not define, which raises before the oracle is
    called, and the handler skips the chunk.
   */
  function StepAsShipped(st: ChapterState, chunk: string): ChapterState
  {
    st
  }

  function RunAsShipped(chunks: seq<string>, recap: string): ChapterState
    decreases |chunks|
  {
    if chunks == [] then Initial(recap)
    else StepAsShipped(RunAsShipped(chunks[..|chunks| - 1], recap), chunks[|chunks| - 1])
  }

  /** As shipped, no chapter yields any text and the oracle is never called. */
  lemma {:induction false} AsShippedDropsEveryChunk(chunks: seq<string>, recap: string)
    ensures RunAsShipped(chunks, recap) == Initial(recap)
    ensures RunAsShipped(chunks, recap).output == [] && RunAsShipped(chunks, recap).prompts == []
    decreases |chunks|
  {
    if chunks != [] {
      AsShippedDropsEveryChunk(chunks[..|chunks| - 1], recap);
    }
  }

  /** One chunk and a reply "x": as shipped the chapter is empty, with the template in place it is not. */
  lemma AsShippedCounterexample(cfg: Config)
    ensures RunAsShipped(["c"], Sentinel).output == []
    ensures Run(cfg, ["c"], Sentinel, (k: nat) => Ok("x")).output == "x\n\n"
  {
    AsShippedDropsEveryChunk(["c"], Sentinel);
    var oracle: Oracle := (k: nat) => Ok("x");
    RunOne(cfg, "c", Sentinel, oracle);
    StepRules(cfg, Initial(Sentinel), "c", oracle);
  }
}
