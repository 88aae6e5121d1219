/**
  `load_progress`, `save_progress` and the chapter loop of `summarize_ebook`:
  chapters already in the progress file are reused verbatim, every other
  chapter is summarized with the running recap, rendered, recorded and saved
  at once, so an interrupted run can resume where it stopped.
 */
module Progress {
  import opened Text
  import Optional
  import Chapter
  import Html
  import Chunker

  /** What `save_progress` writes: the recap and the rendered chapters by item name. */
  datatype Snapshot = Snapshot(recap: string, processed: map<string, string>)

  /**
    A progress file as it is read back. The chapter table may be missing; the
    recap key is always present in the files `save_progress` writes.
   */
  datatype ProgressFile = ProgressFile(recap: string, processed: Optional.Option<map<string, string>>)

  /** A document item of the book: its name and its extracted text. */
  datatype Item = Item(name: string, text: string)

  /** `load_progress(path)`: `None` when there is no progress file. */
  function LoadProgress(file: Optional.Option<ProgressFile>): (r: Snapshot)
    ensures file.None? ==> r == Snapshot(Chapter.Sentinel, map[])
    ensures file.Some? ==> r.recap == file.value.recap
    ensures file.Some? && file.value.processed.None? ==> r.processed == map[]
  {
    match file
    case None => Snapshot(Chapter.Sentinel, map[])
    case Some(f) => Snapshot(f.recap, if f.processed.Some? then f.processed.value else map[])
  }

  /** `save_progress(path, recap, processed)`: the file it leaves. */
  function SaveProgress(snapshot: Snapshot): ProgressFile
  {
    ProgressFile(snapshot.recap, Optional.Some(snapshot.processed))
  }

  /** Loading what was saved gives back the recap and every chapter saved. */
  lemma LoadSaved(snapshot: Snapshot)
    ensures LoadProgress(Optional.Some(SaveProgress(snapshot))) == snapshot
  {
  }

  /**
    The driver's state: the running recap, the processed chapters, the pages
    of the summarized book so far, the oracle calls made, and every snapshot
    saved, in order.
   */
  datatype BookState = BookState(
    recap: string,
    processed: map<string, string>,
    pages: seq<string>,
    calls: nat,
    saves: seq<Snapshot>)

  /** The state a run starts in, from what was loaded. */
  function Start(loaded: Snapshot): BookState
  {
    BookState(loaded.recap, loaded.processed, [], 0, [])
  }

  /** One document item of the loop; the oracle's replies continue from call `st.calls`. */
  function BookStep(cfg: Chapter.Config, st: BookState, item: Item, oracle: Chapter.Oracle): BookState
    requires cfg.chunkSize > 0
  {
    if item.name in st.processed then
      st.(pages := st.pages + [st.processed[item.name]])
    else
      var chapter := Chapter.SummarizeChapter(cfg, item.text, st.recap, Chapter.Shift(oracle, st.calls));
      var html := Html.FormatSummaryAsHtml(chapter.output);
      var processed := st.processed[item.name := html];
      BookState(chapter.recap, processed, st.pages + [html], st.calls + |chapter.prompts|,
                st.saves + [Snapshot(chapter.recap, processed)])
  }

  /**
    The rules of one item, from `st` to `r`: a chapter already recorded is
    reused as it is, with no oracle call and no save; a new one is recorded
    under its name, becomes the next page, and is saved with the new recap.
   */
  predicate ItemRule(st: BookState, item: Item, r: BookState) {
    && (item.name in st.processed ==> r == st.(pages := st.pages + [st.processed[item.name]]))
    && (item.name !in st.processed ==>
          && |r.pages| == |st.pages| + 1
          && r.pages[..|st.pages|] == st.pages
          && r.processed == st.processed[item.name := r.pages[|st.pages|]]
          && r.saves == st.saves + [Snapshot(r.recap, r.processed)]
          && r.calls >= st.calls)
  }

  /**
    What a new chapter contributes: its page is the HTML of the chapter's text,
    summarized from the recap current at that point with the oracle's replies
    from call `st.calls` on; the chapter's recap becomes the running recap, and
    its calls are added to the count.
   */
  predicate ChapterRule(cfg: Chapter.Config, st: BookState, item: Item, oracle: Chapter.Oracle, r: BookState)
    requires cfg.chunkSize > 0
  {
    item.name !in st.processed ==>
      var chapter := Chapter.SummarizeChapter(cfg, item.text, st.recap, Chapter.Shift(oracle, st.calls));
      && |st.pages| < |r.pages|
      && r.pages[|st.pages|] == Html.FormatSummaryAsHtml(chapter.output)
      && r.recap == chapter.recap
      && r.calls == st.calls + |chapter.prompts|
  }

  lemma BookStepRules(cfg: Chapter.Config, st: BookState, item: Item, oracle: Chapter.Oracle)
    requires cfg.chunkSize > 0
    ensures ItemRule(st, item, BookStep(cfg, st, item, oracle))
    ensures ChapterRule(cfg, st, item, oracle, BookStep(cfg, st, item, oracle))
  {
    var r := BookStep(cfg, st, item, oracle);
    if item.name !in st.processed {
      assert r.pages[..|st.pages|] == st.pages;
    }
  }

  /** The state after the loop has handled `items`. */
  function BookRun(cfg: Chapter.Config, items: seq<Item>, st: BookState, oracle: Chapter.Oracle): BookState
    requires cfg.chunkSize > 0
    decreases |items|
  {
    if items == [] then st
    else BookStep(cfg, BookRun(cfg, items[..|items| - 1], st, oracle), items[|items| - 1], oracle)
  }

  lemma BookRunLast(cfg: Chapter.Config, items: seq<Item>, st: BookState, oracle: Chapter.Oracle)
    requires cfg.chunkSize > 0 && items != []
    ensures ItemRule(BookRun(cfg, items[..|items| - 1], st, oracle), items[|items| - 1], BookRun(cfg, items, st, oracle))
  {
    BookStepRules(cfg, BookRun(cfg, items[..|items| - 1], st, oracle), items[|items| - 1], oracle);
  }

  /** The names of `items`. */
  function Names(items: seq<Item>): set<string>
  {
    set i | 0 <= i < |items| :: items[i].name
  }

  lemma NamesLast(items: seq<Item>)
    requires items != []
    ensures Names(items) == Names(items[..|items| - 1]) + {items[|items| - 1].name}
  {
    var n := |items| - 1;
    forall x | x in Names(items)
      ensures x in Names(items[..n]) + {items[n].name}
    {
      var i :| 0 <= i < |items| && items[i].name == x;
      if i < n {
        assert items[..n][i] == items[i];
      }
    }
    forall x | x in Names(items[..n])
      ensures x in Names(items)
    {
      var i :| 0 <= i < n && items[..n][i].name == x;
      assert items[i] == items[..n][i];
    }
  }

  /**
    The bookkeeping after `items`, from `st` to `r`: the processed chapters
    are those recorded before plus every item; no chapter recorded earlier is
    replaced; the book gains one page per item, and each page is what the
    table holds for its item.
   */
  predicate Ledger(st: BookState, items: seq<Item>, r: BookState) {
    && r.processed.Keys == st.processed.Keys + Names(items)
    && (forall n :: n in st.processed ==> r.processed[n] == st.processed[n])
    && |r.pages| == |st.pages| + |items|
    && r.pages[..|st.pages|] == st.pages
    && (forall i :: 0 <= i < |items| ==> r.pages[|st.pages| + i] == r.processed[items[i].name])
  }

  /** What either branch of `ItemRule` does to the table and the pages. */
  predicate Grows(mid: BookState, item: Item, r: BookState) {
    && |r.pages| == |mid.pages| + 1
    && r.pages[..|mid.pages|] == mid.pages
    && r.processed.Keys == mid.processed.Keys + {item.name}
    && (forall name :: name in mid.processed ==> r.processed[name] == mid.processed[name])
    && r.pages[|mid.pages|] == r.processed[item.name]
  }

  lemma ItemGrows(mid: BookState, item: Item, r: BookState)
    requires ItemRule(mid, item, r)
    ensures Grows(mid, item, r)
  {
    if item.name !in mid.processed {
      assert r.pages[..|mid.pages|] == mid.pages;
    }
  }

  lemma LedgerStep(st: BookState, items: seq<Item>, mid: BookState, r: BookState)
    requires items != []
    requires Ledger(st, items[..|items| - 1], mid)
    requires Grows(mid, items[|items| - 1], r)
    ensures Ledger(st, items, r)
  {
    var n := |items| - 1;
    NamesLast(items);
    assert r.pages[..|st.pages|] == mid.pages[..|st.pages|];
    forall i | 0 <= i < n
      ensures r.pages[|st.pages| + i] == r.processed[items[i].name]
    {
      var name := items[..n][i].name;
      assert items[i] == items[..n][i];
      assert name in mid.processed && mid.pages[|st.pages| + i] == mid.processed[name];
      assert r.pages[|st.pages| + i] == mid.pages[|st.pages| + i];
    }
  }

  lemma {:induction false} BookRunLedger(cfg: Chapter.Config, items: seq<Item>, st: BookState, oracle: Chapter.Oracle)
    requires cfg.chunkSize > 0
    ensures Ledger(st, items, BookRun(cfg, items, st, oracle))
    decreases |items|
  {
    if items != [] {
      var n := |items| - 1;
      BookRunLedger(cfg, items[..n], st, oracle);
      BookRunLast(cfg, items, st, oracle);
      ItemGrows(BookRun(cfg, items[..n], st, oracle), items[n], BookRun(cfg, items, st, oracle));
      LedgerStep(st, items, BookRun(cfg, items[..n], st, oracle), BookRun(cfg, items, st, oracle));
    }
  }

  /**
    The progress file after a run from `st` to `r`: saves are only appended,
    and what was last saved is always the current state, since the recap and
    the chapter table change only together with a save.
   */
  predicate SavedState(st: BookState, r: BookState) {
    && |st.saves| <= |r.saves|
    && r.saves[..|st.saves|] == st.saves
    && (|r.saves| == |st.saves| ==> r.recap == st.recap && r.processed == st.processed && r.calls == st.calls)
    && (|r.saves| > |st.saves| ==> r.saves[|r.saves| - 1] == Snapshot(r.recap, r.processed))
  }

  lemma SavedStep(st: BookState, mid: BookState, item: Item, r: BookState)
    requires SavedState(st, mid) && ItemRule(mid, item, r)
    ensures SavedState(st, r)
  {
    assert r.saves[..|mid.saves|] == mid.saves;
    assert r.saves[..|st.saves|] == mid.saves[..|st.saves|];
  }

  lemma {:induction false} BookRunSaves(cfg: Chapter.Config, items: seq<Item>, st: BookState, oracle: Chapter.Oracle)
    requires cfg.chunkSize > 0
    ensures SavedState(st, BookRun(cfg, items, st, oracle))
    decreases |items|
  {
    if items != [] {
      var n := |items| - 1;
      BookRunSaves(cfg, items[..n], st, oracle);
      BookRunLast(cfg, items, st, oracle);
      SavedStep(st, BookRun(cfg, items[..n], st, oracle), items[n], BookRun(cfg, items, st, oracle));
    }
  }

  /**
    Items whose chapters are all recorded already cost no oracle call, change
    neither the recap nor the table nor the progress file, and yield the
    recorded pages.
   */
  lemma {:induction false} ResumeIsFree(cfg: Chapter.Config, items: seq<Item>, st: BookState, oracle: Chapter.Oracle)
    requires cfg.chunkSize > 0
    requires forall i :: 0 <= i < |items| ==> items[i].name in st.processed
    ensures var r := BookRun(cfg, items, st, oracle);
      && r.recap == st.recap && r.processed == st.processed && r.calls == st.calls && r.saves == st.saves
      && |r.pages| == |st.pages| + |items|
      && r.pages[..|st.pages|] == st.pages
      && (forall i :: 0 <= i < |items| ==> r.pages[|st.pages| + i] == st.processed[items[i].name])
    decreases |items|
  {
    if items != [] {
      var n := |items| - 1;
      ResumeIsFree(cfg, items[..n], st, oracle);
      BookRunLedger(cfg, items, st, oracle);
      var mid := BookRun(cfg, items[..n], st, oracle);
      assert items[n].name in mid.processed;
      BookRunLast(cfg, items, st, oracle);
    }
  }

  /**
    A finished run, resumed from the progress file it left, rebuilds the same
    book without a single oracle call and without saving again.
   */
  lemma RerunIsFree(cfg: Chapter.Config, items: seq<Item>, loaded: Snapshot, oracle: Chapter.Oracle, later: Chapter.Oracle)
    requires cfg.chunkSize > 0
    ensures var first := BookRun(cfg, items, Start(loaded), oracle);
      var file := SaveProgress(Snapshot(first.recap, first.processed));
      var again := BookRun(cfg, items, Start(LoadProgress(Optional.Some(file))), later);
      again.pages == first.pages && again.calls == 0 && again.saves == []
  {
    var first := BookRun(cfg, items, Start(loaded), oracle);
    BookRunLedger(cfg, items, Start(loaded), oracle);
    var resumed := Snapshot(first.recap, first.processed);
    LoadSaved(resumed);
    LedgerCovers(Start(loaded), items, first);
    ResumeIsFree(cfg, items, Start(resumed), later);
    Replay(Start(loaded), items, first, BookRun(cfg, items, Start(resumed), later));
  }

  lemma LedgerCovers(st: BookState, items: seq<Item>, r: BookState)
    requires Ledger(st, items, r)
    ensures forall i :: 0 <= i < |items| ==> items[i].name in r.processed
  {
    forall i | 0 <= i < |items|
      ensures items[i].name in r.processed
    {
      assert items[i].name in Names(items);
    }
  }

  lemma Replay(st: BookState, items: seq<Item>, first: BookState, again: BookState)
    requires st.pages == [] && Ledger(st, items, first)
    requires |again.pages| == |items|
    requires forall i :: 0 <= i < |items| ==> again.pages[i] == first.processed[items[i].name]
    ensures again.pages == first.pages
  {
    forall i | 0 <= i < |items|
      ensures again.pages[i] == first.pages[i]
    {
      assert first.pages[|st.pages| + i] == first.processed[items[i].name];
    }
  }

  lemma LedgerKeepsLoaded(loaded: Snapshot, items: seq<Item>, r: BookState)
    requires Ledger(Start(loaded), items, r)
    ensures |r.pages| == |items|
    ensures forall i :: 0 <= i < |items| && items[i].name in loaded.processed ==> r.pages[i] == loaded.processed[items[i].name]
  {
    forall i | 0 <= i < |items| && items[i].name in loaded.processed
      ensures r.pages[i] == loaded.processed[items[i].name]
    {
      assert r.pages[|Start(loaded).pages| + i] == r.processed[items[i].name];
    }
  }

  lemma BookRunNext(cfg: Chapter.Config, items: seq<Item>, i: nat, st: BookState, oracle: Chapter.Oracle)
    requires cfg.chunkSize > 0 && i < |items|
    ensures BookRun(cfg, items[..i + 1], st, oracle) == BookStep(cfg, BookRun(cfg, items[..i], st, oracle), items[i], oracle)
  {
    PrefixNext(items, i);
  }

  lemma PrefixNext<T>(s: seq<T>, i: nat)
    requires i <= |s|
    ensures i < |s| ==> s[..i + 1][..i] == s[..i]
    ensures s[..|s|] == s
  {
  }

  lemma LoadedPages(cfg: Chapter.Config, items: seq<Item>, loaded: Snapshot, oracle: Chapter.Oracle)
    requires cfg.chunkSize > 0
    ensures var pages := BookRun(cfg, items, Start(loaded), oracle).pages;
      && |pages| == |items|
      && forall i :: 0 <= i < |items| && items[i].name in loaded.processed ==> pages[i] == loaded.processed[items[i].name]
  {
    BookRunLedger(cfg, items, Start(loaded), oracle);
    LedgerKeepsLoaded(loaded, items, BookRun(cfg, items, Start(loaded), oracle));
  }

  /** BookStep's result, pinned down field by field. */
  lemma BookStepIs(cfg: Chapter.Config, st: BookState, item: Item, oracle: Chapter.Oracle, r: BookState)
    requires cfg.chunkSize > 0
    requires item.name in st.processed ==> r == st.(pages := st.pages + [st.processed[item.name]])
    requires item.name !in st.processed ==>
      var chapter := Chapter.SummarizeChapter(cfg, item.text, st.recap, Chapter.Shift(oracle, st.calls));
      var html := Html.FormatSummaryAsHtml(chapter.output);
      && r.recap == chapter.recap
      && r.processed == st.processed[item.name := html]
      && r.pages == st.pages + [html]
      && r.calls == st.calls + |chapter.prompts|
      && r.saves == st.saves + [Snapshot(r.recap, r.processed)]
    ensures r == BookStep(cfg, st, item, oracle)
  {
  }

  lemma ItemPages(st: BookState, item: Item, r: BookState)
    requires ItemRule(st, item, r)
    ensures |st.pages| < |r.pages| && r.pages[..|st.pages|] == st.pages
  {
    if item.name in st.processed {
      assert r.pages == st.pages + [st.processed[item.name]];
    }
  }

  /** Pages are only ever appended: the pages made for the first `i` items stay at the front of the book. */
  lemma {:induction false} BookRunPagesKept(cfg: Chapter.Config, items: seq<Item>, i: nat, st: BookState, oracle: Chapter.Oracle)
    requires cfg.chunkSize > 0 && i <= |items|
    ensures var before := BookRun(cfg, items[..i], st, oracle).pages;
      var after := BookRun(cfg, items, st, oracle).pages;
      |before| <= |after| && after[..|before|] == before
    decreases |items|
  {
    if i < |items| {
      var n := |items| - 1;
      var mid := BookRun(cfg, items[..n], st, oracle);
      var last := BookRun(cfg, items, st, oracle);
      BookRunLast(cfg, items, st, oracle);
      ItemPages(mid, items[n], last);
      if i < n {
        BookRunPagesKept(cfg, items[..n], i, st, oracle);
        Chapter.PrefixOfPrefix(items, n, i);
        Chapter.PrefixExtends(BookRun(cfg, items[..i], st, oracle).pages, mid.pages, last.pages);
      }
    } else {
      Chapter.PrefixOfPrefix(items, |items|, |items|);
    }
  }

  /**
    Item `i` of the book, from the state the items before it left: a name
    already in the table reuses its recorded page; otherwise the item's page is
    the HTML of its chapter summarized from the recap current at that point,
    with the oracle's replies from the calls made so far on, and that
    chapter's recap and calls carry on to the next item.
   */
  lemma BookRunChapter(cfg: Chapter.Config, items: seq<Item>, i: nat, st: BookState, oracle: Chapter.Oracle)
    requires cfg.chunkSize > 0 && i < |items|
    ensures ItemRule(BookRun(cfg, items[..i], st, oracle), items[i], BookRun(cfg, items[..i + 1], st, oracle))
    ensures ChapterRule(cfg, BookRun(cfg, items[..i], st, oracle), items[i], oracle, BookRun(cfg, items[..i + 1], st, oracle))
  {
    BookRunNext(cfg, items, i, st, oracle);
    BookStepRules(cfg, BookRun(cfg, items[..i], st, oracle), items[i], oracle);
  }

  /** The page an item adds stays in place as later items add theirs. */
  lemma PageCarried(at: nat, before: BookState, item: Item, after: BookState, last: BookState)
    requires |before.pages| == at && ItemRule(before, item, after)
    requires |after.pages| <= |last.pages| && last.pages[..|after.pages|] == after.pages
    ensures at < |after.pages| && last.pages[at] == after.pages[at]
    ensures item.name in before.processed ==> last.pages[at] == before.processed[item.name]
  {
    ItemPages(before, item, after);
    assert last.pages[at] == last.pages[..|after.pages|][at];
    if item.name in before.processed {
      assert after.pages == before.pages + [before.processed[item.name]];
    }
  }

  /** As shipped, every chapter's text comes back empty, so the HTML made for it is the bare heading. */
  lemma AsShippedPageIsBare(cfg: Chapter.Config, item: Item, recap: string)
    requires cfg.chunkSize > 0
    ensures Html.FormatSummaryAsHtml(Chapter.RunAsShipped(Chunker.Chunks(Strip(item.text), cfg.chunkSize), recap).output) == Html.Heading
  {
    Chapter.AsShippedDropsEveryChunk(Chunker.Chunks(Strip(item.text), cfg.chunkSize), recap);
  }

  /** One item of the loop as shipped: `BookStep` with the shipped chapter loop in place of the intended one. */
  function BookStepAsShipped(cfg: Chapter.Config, st: BookState, item: Item): BookState
    requires cfg.chunkSize > 0
  {
    if item.name in st.processed then
      st.(pages := st.pages + [st.processed[item.name]])
    else
      var chapter := Chapter.RunAsShipped(Chunker.Chunks(Strip(item.text), cfg.chunkSize), st.recap);
      var html := Html.FormatSummaryAsHtml(chapter.output);
      var processed := st.processed[item.name := html];
      BookState(chapter.recap, processed, st.pages + [html], st.calls + |chapter.prompts|,
                st.saves + [Snapshot(chapter.recap, processed)])
  }

  /**
    As shipped, a chapter not yet recorded is recorded and saved with the bare
    heading as its page, at no oracle call and with the recap unchanged. A later
    run that loads that progress file finds the name in the table and reuses
    the bare page instead of summarizing the chapter: no call and no save.
   */
  lemma AsShippedRecordsBarePage(cfg: Chapter.Config, st: BookState, item: Item, later: Chapter.Oracle)
    requires cfg.chunkSize > 0
    ensures ItemRule(st, item, BookStepAsShipped(cfg, st, item))
    ensures item.name !in st.processed ==>
      var r := BookStepAsShipped(cfg, st, item);
      && r.pages[|st.pages|] == Html.Heading
      && r.processed[item.name] == Html.Heading
      && r.saves[|r.saves| - 1].processed[item.name] == Html.Heading
      && r.recap == st.recap && r.calls == st.calls
    ensures item.name !in st.processed ==>
      var r := BookStepAsShipped(cfg, st, item);
      var again := BookRun(cfg, [item], Start(LoadProgress(Optional.Some(SaveProgress(r.saves[|r.saves| - 1])))), later);
      again.pages == [Html.Heading] && again.calls == 0 && again.saves == []
  {
    var r := BookStepAsShipped(cfg, st, item);
    if item.name !in st.processed {
      AsShippedPageIsBare(cfg, item, st.recap);
      Chapter.AsShippedDropsEveryChunk(Chunker.Chunks(Strip(item.text), cfg.chunkSize), st.recap);
      assert r.pages[..|st.pages|] == st.pages;
      var saved := r.saves[|r.saves| - 1];
      LoadSaved(saved);
      ResumeIsFree(cfg, [item], Start(saved), later);
    }
  }

  /**
    The chapter loop of `summarize_ebook`, from the progress it loaded. The
    progress file writes are the returned `saves`, in order.
   */
  method SummarizeEbook(cfg: Chapter.Config, file: Optional.Option<ProgressFile>, items: seq<Item>, oracle: Chapter.Oracle)
    returns (pages: seq<string>, calls: nat, ghost saves: seq<Snapshot>)
    requires cfg.chunkSize > 0
    ensures var r := BookRun(cfg, items, Start(LoadProgress(file)), oracle);
      pages == r.pages && calls == r.calls && saves == r.saves
    ensures |pages| == |items|
    ensures forall i :: 0 <= i < |items| && items[i].name in LoadProgress(file).processed ==>
      pages[i] == LoadProgress(file).processed[items[i].name]
  {
    var loaded := LoadProgress(file);
    var recap := loaded.recap;
    var processed := loaded.processed;
    pages, calls, saves := [], 0, [];
    for i := 0 to |items|
      invariant BookState(recap, processed, pages, calls, saves) == BookRun(cfg, items[..i], Start(loaded), oracle)
    {
      ghost var before := BookState(recap, processed, pages, calls, saves);
      var item := items[i];
      var html;
      if item.name in processed {
        html := processed[item.name];
      } else {
        var text, newRecap, prompts := Chapter.SummarizeChapterContent(cfg, item.text, recap, Chapter.Shift(oracle, calls));
        recap := newRecap;
        html := Html.FormatSummaryAsHtml(text);
        processed := processed[item.name := html];
        saves := saves + [Snapshot(recap, processed)];
        calls := calls + |prompts|;
      }
      pages := pages + [html];
      BookStepIs(cfg, before, item, oracle, BookState(recap, processed, pages, calls, saves));
      BookRunNext(cfg, items, i, Start(loaded), oracle);
    }
    PrefixNext(items, |items|);
    LoadedPages(cfg, items, loaded, oracle);
  }
}
