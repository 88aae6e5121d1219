# BookReduceLLM chapter pipeline, modelled in Dafny

BookReduceLLM shortens an EPUB book by sending its text, chunk by chunk, to a
local language model and writing the rewritten chapters into a new EPUB. This
project models the part of `ebook_summarizer.py` that decides what is sent,
in which order, and what is kept:

- `chunk_text`: a chapter's text is cut into chunks of at most `CHUNK_SIZE`
  characters. The cut goes at the last paragraph break in the second half of
  the window, else at the last line break there, else hard at `CHUNK_SIZE`.
  (module `Chunker`, with the Python string primitives it needs in `Text`)
- `format_summary_as_html`: the rewritten text becomes a heading and one
  `<p>` per non-blank line. (module `Html`)
- `summarize_chapter_content` and `condense_recap`: the chunks are sent in
  order. Each rewrite call carries the last 150 characters of the stripped
  last successful reply (at a chapter's start, of the recap handed in) and,
  when `MAX_RECAP_SIZE > 0`, the rolling recap, which is condensed by a further
  call, carrying only the recap, once it exceeds the budget. A failed call skips its chunk; a failed
  condensation keeps the recap. (module `Chapter`)
- `load_progress`, `save_progress` and the chapter loop of `summarize_ebook`:
  chapters already in the progress file are reused without any call; each new
  chapter is recorded and the progress file rewritten at once. (module
  `Progress`)

The module `Optional` holds the `Option` type that the prompts and the
progress file share.

The language model is an oracle: `Chapter.Oracle` maps the number of a call
(0, 1, 2, ...) to its reply, `Ok(text)` or `Err`. The prompt wording is left
abstract. `Chapter.Prompt` records only what a call depends on: the chunk, the
snippet and the recap for a rewrite, or the recap for a condensation. Each
chapter's text is taken as already extracted from its HTML. Progress-file
writes appear as the list of snapshots saved, in order.

`chunk_text`, the chapter loop and the book loop are methods with loops
(`Chunker.ChunkText`, `Chapter.RewriteChunks`, `Progress.SummarizeEbook`). Each
is proved equal to a recursive function (`Chunks`, `Run`, `BookRun`), and the
lemmas state what those functions guarantee.

Three details of the code are easy to misread. The model follows the code
in the first two; in the third it does not:

- A paragraph break is used only if it ends inside the window:
  `rfind('\n\n', 0, size)` needs `p + 2 <= size`. A `"\n\n"` straddling the
  window edge is not found. When no paragraph break that ends inside the
  window starts in its second half, the cut then falls on the straddling
  break's first `"\n"` as a line break.
- With the recap disabled, a chapter's first chunk still quotes a snippet of
  the recap it is handed, and that recap never changes during the run. It is
  the sentinel, so the snippet is empty, when there is no progress file or
  the file holds the sentinel. A run resumed from a file saved with another
  recap quotes that recap's tail at the start of every new chapter.
- The chapter loop reads a template name that the configuration does not
  define, so as shipped every chunk fails before its call (see Findings).
  `Chapter.Step`, `Chapter.Run`, `Chapter.RewriteChunks`,
  `Chapter.SummarizeChapterContent` and `Progress.SummarizeEbook` model the
  loop as intended, with the template defined; only `Chapter.StepAsShipped`,
  `Chapter.RunAsShipped` and `Progress.BookStepAsShipped` model the shipped
  line.

## Model

| member | source | states |
|---|---|---|
| Text.LeadingSpace | ebook_summarizer.py:47 | the whitespace `lstrip` removes: every character before it is whitespace and the next one is not |
| Text.Strip | ebook_summarizer.py:26 | `strip()` is empty exactly for all-whitespace input; otherwise it starts and ends with non-whitespace and is the contiguous slice after the leading whitespace |
| Text.StripKeepsText | ebook_summarizer.py:26 | `strip` and `lstrip` remove whitespace only: the visible characters are unchanged |
| Text.Tail | ebook_summarizer.py:110 | `s[-n:]` is a suffix of `s`: exactly its last `n` characters when `s` is longer, and all of `s` otherwise |
| Text.RFindSpec | ebook_summarizer.py:34 | `rfind(pat, 0, end)` is -1 exactly when no occurrence fits before `end`; otherwise it is an occurrence and no later one fits |
| Text.Split | ebook_summarizer.py:54 | `split(sep)` returns at least one part and no part contains the separator |
| Text.JoinSplit | ebook_summarizer.py:54 | joining the parts of `split` gives the string back |
| Text.SplitJoin | ebook_summarizer.py:54 | splitting a join of separator-free parts gives the parts back |
| Chunker.BreakPos | ebook_summarizer.py:34-44 | the cut position is inside the window and in its second half, so every chunk is non-empty and progress is made |
| Chunker.Chunks | ebook_summarizer.py:25-49 | every chunk has 1 to `size` characters; no chunks exactly for an empty remainder; a remainder that fits is one chunk |
| Chunker.BreakPriority | ebook_summarizer.py:33-44 | the cut is the last paragraph break in the second half of the window if there is one, else the last line break there, else `size` |
| Chunker.Gaps | ebook_summarizer.py:47 | what is dropped between chunks is whitespace only |
| Chunker.Reassemble | ebook_summarizer.py:46-47 | chunks interleaved with the dropped whitespace rebuild the stripped text exactly |
| Chunker.ChunksKeepText | ebook_summarizer.py:19-49 | chunking loses, duplicates and reorders no visible character |
| Chunker.FindSplit | ebook_summarizer.py:33-44 | the loop's search for `split_pos` (paragraph break, then line break, then `size`) yields the cut `BreakPos` |
| Chunker.ChunkText | ebook_summarizer.py:19-49 | the loop returns `Chunks(strip(text))`: chunks of 1 to `size` characters, none for blank text, one for short text, reassembling the text |
| Html.NonBlankStripped | ebook_summarizer.py:55 | every paragraph kept is non-empty and stripped |
| Html.NonBlankAppend | ebook_summarizer.py:55 | lines are filtered one at a time and in order: the paragraphs of two blocks of lines are those of the first followed by those of the second |
| Html.NonBlankOne | ebook_summarizer.py:55 | a single line gives exactly one paragraph, its stripped text, unless it is blank, when it gives none |
| Html.RenderAppend | ebook_summarizer.py:55 | the `<p>` elements are joined with nothing between them: rendering two runs of paragraphs is rendering each, one after the other |
| Html.FormatSummaryAsHtml | ebook_summarizer.py:52-56 | the page is the heading followed by one `<p>` element per paragraph of the stripped summary, and is the heading alone exactly when the summary is blank |
| Html.ParagraphsEmpty | ebook_summarizer.py:54-55 | a summary has no paragraph exactly when it is blank |
| Html.ParagraphsKeepText | ebook_summarizer.py:54-55 | the paragraphs hold every visible character of the summary, in order, and none spans a line break |
| Html.SingleLine | ebook_summarizer.py:54-55 | a one-line, non-blank summary becomes exactly one paragraph, its stripped text |
| Chapter.SnippetRules | ebook_summarizer.py:138 | the snippet is a suffix of the stripped reply: exactly its last 150 characters when it is longer, all of it otherwise; it is empty only for a blank reply |
| Chapter.InitialSnippet | ebook_summarizer.py:108-110 | the first chunk's snippet comes from the recap handed in, and is empty exactly after the sentinel or a blank recap |
| Chapter.ContinuationInstruction | ebook_summarizer.py:115-117 | the continuation instruction is present exactly when the snippet is non-empty, and then quotes it |
| Chapter.ExtendRules | ebook_summarizer.py:142-145 | the new summary replaces the sentinel recap; any other recap is kept and followed by exactly a blank line and the summary |
| Chapter.StepRules | ebook_summarizer.py:112-153 | one chunk: a rewrite call with the snippet and, iff enabled, the recap. A failure changes nothing else. A success appends `reply + "\n\n"` and sets the snippet. An enabled recap grows and is condensed iff over budget; if condensing fails it is kept (`condense_recap`, lines 83-95). A disabled recap is untouched |
| Chapter.RunLog | ebook_summarizer.py:112-154 | each chunk is sent exactly once, in order; the output is the in-order concatenation of `reply + "\n\n"` over the successful rewrites; a chapter makes between one and two calls per chunk |
| Chapter.RunCalls | ebook_summarizer.py:126-148 | every rewrite call carries the recap iff it is enabled; a condensation follows only a successful rewrite that pushed an enabled recap over budget |
| Chapter.RunAllFail | ebook_summarizer.py:150-153 | when every call fails, the chapter's text is empty and recap and snippet are unchanged, with one call per chunk |
| Chapter.RunRecapDisabled | ebook_summarizer.py:105 | with `MAX_RECAP_SIZE <= 0` the chapter hands on the recap it was given and makes one call per chunk |
| Chapter.RunOutputGrows | ebook_summarizer.py:135 | the chapter text is only ever appended to |
| Chapter.RunFirstCall | ebook_summarizer.py:108-128 | the first call rewrites the first chunk with the snippet of the recap handed in, carrying that recap iff enabled |
| Chapter.RewriteChunks | ebook_summarizer.py:103-154 | the loop computes `Run`; the call log lists the chunks in order and the output is the concatenated successes |
| Chapter.SummarizeChapterContent | ebook_summarizer.py:98-154 | chunking followed by the loop: the chapter's calls rewrite exactly `chunk_text(text)`, in order |
| Chapter.AsShippedDropsEveryChunk | ebook_summarizer.py:119-123 | as written, every chunk raises before its call: no text, no call, recap unchanged |
| Chapter.AsShippedCounterexample | ebook_summarizer.py:119-123 | a one-chunk chapter whose reply is `x` gives no text as written, and `x` followed by a blank line as intended |
| Progress.LoadProgress | ebook_summarizer.py:177-184 | no progress file means the sentinel recap and no chapters; a file without a chapter table means no chapters |
| Progress.LoadSaved | ebook_summarizer.py:187-194 | loading what `save_progress` wrote gives back the same recap and chapter table |
| Progress.BookStepRules | ebook_summarizer.py:225-233 | a recorded chapter is reused verbatim with no call and no save. A new one is summarized from the current recap with the replies after the calls made so far; the HTML of its text is recorded under its name, becomes the page, and is saved with the chapter's recap, which becomes the running one; its calls are added to the count |
| Progress.BookRunChapter | ebook_summarizer.py:220-237 | for each item of the book, from the state the items before it left: a recorded name adds its recorded page and nothing else changes; a new one adds, as the next page, the HTML of its chapter summarized from the recap then current with the replies after the calls made so far, and that chapter's recap and calls carry on to the next item |
| Progress.PageCarried | ebook_summarizer.py:234-237 | a page keeps its place as later items add theirs; a reused page is the one recorded |
| Progress.BookRunPagesKept | ebook_summarizer.py:234-237 | pages are only appended: those made for the first items stay at the front of the book |
| Progress.BookRunLedger | ebook_summarizer.py:220-238 | the table ends up holding the loaded chapters plus every item; no recorded chapter is replaced; each item's page is the table's entry for it |
| Progress.BookRunSaves | ebook_summarizer.py:228-233 | saves are only appended, and the last save always equals the current recap and table |
| Progress.ResumeIsFree | ebook_summarizer.py:225-227 | items that are all recorded cost no call, change no state, save nothing and give the recorded pages |
| Progress.RerunIsFree | ebook_summarizer.py:207 | a finished run, resumed from the file it saved, rebuilds the same pages with no call and no save |
| Progress.AsShippedPageIsBare | ebook_summarizer.py:120 | as shipped, the HTML made for any chapter is the bare heading |
| Progress.AsShippedRecordsBarePage | ebook_summarizer.py:225-233 | as shipped, a new chapter is recorded and saved with the bare heading as its page, at no call and with the recap unchanged; a run that loads that progress file reuses the bare page with no call and no save |
| Progress.SummarizeEbook | ebook_summarizer.py:207-239 | the loop computes `BookRun` from the loaded progress: one page per item, the loaded page for every recorded item |

## Left out

- EPUB reading and writing, metadata copying and the rebuilt TOC and spine: file formats, not decisions of the pipeline.
- Non-document items: they are copied unchanged; only document items are modelled.
- HTML to text (`get_text_from_html`, BeautifulSoup): each chapter's extracted text is an input.
- The language model client: it is the call-indexed oracle. Prompt wording and templates are abstract.
- JSON reading and writing: a progress file is a value, and a write is a snapshot appended to the saves.
- Progress.LoadProgress: a file whose `recap` key is missing yields `None` in the source. That `None` fails at the first unprocessed chapter. The model's progress file always has a recap, as every file `save_progress` writes does.
- Progress output, printing and exception messages.
- Chapter.SummarizeChapterContent: requires `CHUNK_SIZE > 0`. With a size of 0 or below, the source's chunking loop never ends on non-blank text: the hard cut at a `split_pos` of 0 or below soon leaves a remainder that never shrinks (for size -1 and remainder `x`: an empty chunk, and `x` again).
- Chapter.SummarizeChapterContent: also returns the list of calls made, which the source does not return; it is what the lemmas speak about.
- Chapter.RunCalls: replies are looked up by call number, not by prompt content. The model therefore says which call a reply answers, not how the model's answer depends on the prompt.
- Chunker.Gaps: does not state that the gap after the last chunk is empty. It follows from the definition but is left unproved.
- Html.FormatSummaryAsHtml: the text is not HTML-escaped, as in the source; the model keeps the characters verbatim.
- Text: Python strings are code-point sequences and Dafny `char` is a Unicode scalar value; lone surrogates are not modelled.

## Findings

| source | as written | input that shows it | evidently intended | confidence | as-written member | corrected member |
|---|---|---|---|---|---|---|
| ebook_summarizer.py:120 | the chapter loop formats `config.TASK_SECTION_TEMPLATE`, but `config.py` defines `USER_PROMPT_TEMPLATE` and no `TASK_SECTION_TEMPLATE`. Every chunk raises `AttributeError` before its call, and the handler skips it, so every chapter comes out empty. Its page is saved as the bare heading, and a later run reuses that page instead of summarizing the chapter (`Progress.AsShippedPageIsBare`, `Progress.AsShippedRecordsBarePage`) | any non-blank chapter, e.g. a single chunk `c` whose reply would be `x` | each chunk is rewritten with the task template, and its reply is kept | not executed | Chapter.AsShippedDropsEveryChunk | Chapter.RunLog |
