/**
 * The rolling window of recent blocks, filled from a paged newest-first block list
 * (internal/dashboard/klever/monitor.go).
 */
module BlockWindow {
  import opened Prelude
  import opened KleverTypes

  type Window = map<nat, BlockRec>

  /** The answer to the request for a page; None when the request fails. */
  type Pages = nat -> Option<seq<IndexerBlock>>

  function WindowStart(head: nat, window: nat): nat {
    if head >= window then head - window + 1 else 0
  }

  // ---------------------------------------------------------------- merging and pruning

  function Merge(have: Window, blocks: seq<IndexerBlock>, start: nat, head: nat): Window {
    if blocks == [] then have else
    var n := |blocks| - 1;
    var merged := Merge(have, blocks[..n], start, head);
    if start <= blocks[n].nonce <= head then merged[blocks[n].nonce := ToRec(blocks[n])] else merged
  }

  method MergeBlocks(have: Window, blocks: seq<IndexerBlock>, start: nat, head: nat) returns (merged: Window)
    ensures merged == Merge(have, blocks, start, head)
  {
    merged := have;
    for i := 0 to |blocks|
      invariant merged == Merge(have, blocks[..i], start, head)
    {
      assert blocks[..i + 1][..i] == blocks[..i];
      var b := blocks[i];
      if b.nonce < start || b.nonce > head {
        continue;
      }
      merged := merged[b.nonce := ToRec(b)];
    }
    assert blocks[..|blocks|] == blocks;
  }

  function Pruned(have: Window, start: nat, head: nat): Window {
    map n | n in have && start <= n <= head :: have[n]
  }

  method Prune(have: Window, start: nat, head: nat) returns (kept: Window)
    ensures kept == Pruned(have, start, head)
  {
    kept := have;
    var keys := have.Keys;
    while keys != {}
      invariant keys <= kept.Keys <= have.Keys
      invariant forall n :: n in kept ==> kept[n] == have[n] && (n in keys || start <= n <= head)
      invariant forall n :: n in have && start <= n <= head ==> n in kept
    {
      var n :| n in keys;
      keys := keys - {n};
      if n < start || n > head {
        kept := kept - {n};
      }
    }
  }

  /** The nonces of [start, head] that are absent. */
  ghost function Missing(have: Window, start: nat, head: nat): set<nat> {
    set n: nat | start <= n <= head && n !in have
  }

  method CountMissing(have: Window, start: nat, head: nat) returns (missing: nat)
    requires head < MAX_UINT64
    ensures missing == |Missing(have, start, head)|
  {
    missing := 0;
    var n := start;
    ghost var found: set<nat> := {};
    while n <= head
      invariant start <= n && (n <= head + 1 || n == start)
      invariant found == (set m: nat | start <= m < n && m <= head && m !in have) && missing == |found|
    {
      if n !in have {
        missing := missing + 1;
        found := found + {n};
      }
      n := n + 1;
    }
    assert found == Missing(have, start, head);
  }

  // ---------------------------------------------------------------- backfill

  /** Pages of 100 blocks that span the window. */
  function NeededPages(window: nat): nat {
    (window + 100 - 1) / 100
  }

  /** The blocks of pages `page` onwards, as far as they are requested. */
  function BackfillFrom(pages: Pages, page: nat, last: nat, start: nat): seq<IndexerBlock>
    decreases last + 1 - page
  {
    if page > last then [] else
    match pages(page)
    case None => []
    case Some(older) =>
      if older == [] then [] else
      if older[|older| - 1].nonce <= start then older else older + BackfillFrom(pages, page + 1, last, start)
  }

  function LastPage(window: nat, maxPerTick: nat): nat {
    if NeededPages(window) <= 1 + maxPerTick then NeededPages(window) else 1 + maxPerTick
  }

  method Backfill(pages: Pages, window: nat, maxPerTick: nat, start: nat) returns (backfill: seq<IndexerBlock>)
    ensures backfill == BackfillFrom(pages, 2, LastPage(window, maxPerTick), start)
  {
    backfill := [];
    var neededPages := NeededPages(window);
    hide NeededPages, BackfillFrom;
    var page := 2;
    ghost var all := BackfillFrom(pages, 2, LastPage(window, maxPerTick), start);
    while page <= neededPages && page <= 1 + maxPerTick
      invariant page >= 2
      invariant backfill + BackfillFrom(pages, page, LastPage(window, maxPerTick), start) == all
      decreases neededPages - page
    {
      BackfillUnfold(pages, page, LastPage(window, maxPerTick), start);
      var answer := pages(page);
      if answer.None? || answer.value == [] {
        break;
      }
      var older := answer.value;
      backfill := backfill + older;
      if older[|older| - 1].nonce <= start {
        break;
      }
      page := page + 1;
    }
    BackfillUnfold(pages, page, LastPage(window, maxPerTick), start);
  }

  lemma BackfillUnfold(pages: Pages, page: nat, last: nat, start: nat)
    ensures page > last ==> BackfillFrom(pages, page, last, start) == []
    ensures pages(page).None? || pages(page).value == [] ==> BackfillFrom(pages, page, last, start) == []
    ensures page <= last && pages(page).Some? && pages(page).value != [] ==>
              var older := pages(page).value;
              BackfillFrom(pages, page, last, start) ==
              if older[|older| - 1].nonce <= start then older else older + BackfillFrom(pages, page + 1, last, start)
  {
  }

  /** The window after one tick whose newest page is `newest`. */
  function Refill(have: Window, newest: seq<IndexerBlock>, pages: Pages, window: nat, maxPerTick: nat): Window
    requires newest != []
  {
    var head := newest[0].nonce;
    var start := WindowStart(head, window);
    var first := Pruned(Merge(have, newest, start, head), start, head);
    Pruned(Merge(first, BackfillOf(first, pages, window, maxPerTick, head), start, head), start, head)
  }

  /** What is fetched beyond the newest page: nothing while the window has no gaps. */
  function BackfillOf(have: Window, pages: Pages, window: nat, maxPerTick: nat, head: nat): seq<IndexerBlock> {
    var start := WindowStart(head, window);
    if forall n :: start <= n <= head ==> n in have then []
    else BackfillFrom(pages, 2, LastPage(window, maxPerTick), start)
  }

  // ---------------------------------------------------------------- bounds, whatever the API answers

  lemma {:induction false} IntervalSize(s: set<nat>, start: nat, n: nat)
    requires forall x :: x in s ==> start <= x < start + n
    ensures |s| <= n
  {
    if n > 0 {
      var top := start + n - 1;
      IntervalSize(s - {top}, start, n - 1);
      assert s <= (s - {top}) + {top};
    } else {
      assert s == {};
    }
  }

  /** The window lies within [start, head] and holds at most `window` blocks. */
  lemma WindowBounded(have: Window, newest: seq<IndexerBlock>, pages: Pages, window: nat, maxPerTick: nat)
    requires newest != [] && window >= 1
    ensures var after, head := Refill(have, newest, pages, window, maxPerTick), newest[0].nonce;
            && (forall n :: n in after ==> WindowStart(head, window) <= n <= head)
            && |after| <= window
  {
    var after, head := Refill(have, newest, pages, window, maxPerTick), newest[0].nonce;
    var start := WindowStart(head, window);
    IntervalSize(after.Keys, start, head - start + 1);
    assert |after| == |after.Keys|;
  }

  // ---------------------------------------------------------------- an honest API

  /** Newest first, one block per nonce. */
  ghost predicate IsChain(chain: seq<IndexerBlock>) {
    forall i, j :: 0 <= i < j < |chain| ==> chain[i].nonce > chain[j].nonce
  }

  function Page(chain: seq<IndexerBlock>, page: nat): seq<IndexerBlock>
    requires page >= 1
  {
    var from, to := (page - 1) * 100, page * 100;
    if from >= |chain| then [] else if to >= |chain| then chain[from..] else chain[from..to]
  }

  ghost predicate Honest(pages: Pages, chain: seq<IndexerBlock>) {
    forall p: nat :: p >= 1 ==> pages(p) == Some(Page(chain, p))
  }

  ghost predicate OnChain(chain: seq<IndexerBlock>, n: nat) {
    exists i :: 0 <= i < |chain| && chain[i].nonce == n
  }

  /** Every block of the window is a block of the chain. */
  ghost predicate Faithful(have: Window, chain: seq<IndexerBlock>) {
    forall n :: n in have ==> exists i :: 0 <= i < |chain| && chain[i].nonce == n && have[n] == ToRec(chain[i])
  }

  /** A chain that only grew at its head keeps a window faithful. */
  lemma FaithfulToGrownChain(have: Window, chain: seq<IndexerBlock>, newer: seq<IndexerBlock>)
    requires Faithful(have, chain)
    ensures Faithful(have, newer + chain)
  {
    forall n | n in have
      ensures exists i :: 0 <= i < |newer + chain| &&
                          (newer + chain)[i].nonce == n && have[n] == ToRec((newer + chain)[i])
    {
      var i :| 0 <= i < |chain| && chain[i].nonce == n && have[n] == ToRec(chain[i]);
      assert (newer + chain)[|newer| + i] == chain[i];
    }
  }

  lemma {:induction false} MergeFaithful(have: Window, blocks: seq<IndexerBlock>, start: nat, head: nat,
                                         chain: seq<IndexerBlock>)
    requires Faithful(have, chain) && forall b :: b in blocks ==> b in chain
    ensures Faithful(Merge(have, blocks, start, head), chain)
  {
    if blocks != [] {
      var n := |blocks| - 1;
      MergeFaithful(have, blocks[..n], start, head, chain);
      assert blocks[n] in chain;
    }
  }

  lemma {:induction false} MergeHas(have: Window, blocks: seq<IndexerBlock>, start: nat, head: nat, n: nat)
    ensures n in Merge(have, blocks, start, head) <==>
            n in have || (start <= n <= head && exists b :: b in blocks && b.nonce == n)
  {
    if blocks != [] {
      var m := |blocks| - 1;
      MergeHas(have, blocks[..m], start, head, n);
      assert blocks == blocks[..m] + [blocks[m]];
    }
  }

  /** Pigeonhole: the block at position j is at least j below the head. */
  lemma {:induction false} PositionBound(chain: seq<IndexerBlock>, j: nat)
    requires IsChain(chain) && j < |chain|
    ensures chain[j].nonce + j <= chain[0].nonce
  {
    if j > 0 {
      PositionBound(chain, j - 1);
    }
  }

  /** A page that starts at or before position j has that block, or is full and ends before it. */
  lemma PageContents(chain: seq<IndexerBlock>, page: nat, j: nat)
    requires page >= 1 && (page - 1) * 100 <= j < |chain|
    ensures var p := Page(chain, page);
            && p != [] && (forall b :: b in p ==> b in chain)
            && if j < page * 100 then chain[j] in p else p[|p| - 1] == chain[page * 100 - 1]
  {
    var from := (page - 1) * 100;
    if j < page * 100 {
      assert Page(chain, page)[j - from] == chain[j];
    }
  }

  lemma ChainNotEmpty(chain: seq<IndexerBlock>)
    ensures Page(chain, 1) != [] <==> chain != []
    ensures chain != [] ==> Page(chain, 1)[0] == chain[0]
  {
  }

  lemma PageOnChain(chain: seq<IndexerBlock>, page: nat)
    requires page >= 1
    ensures forall b :: b in Page(chain, page) ==> b in chain
  {
  }

  /** Requesting pages in order reaches every block above the window start, the early stop included. */
  lemma BackfillCovers(chain: seq<IndexerBlock>, pages: Pages, page: nat, last: nat, start: nat, j: nat)
    requires IsChain(chain) && Honest(pages, chain) && j < |chain| && start <= chain[j].nonce
    requires 1 <= page && (page - 1) * 100 <= j < last * 100
    ensures chain[j] in BackfillFrom(pages, page, last, start)
  {
    HonestAnswers(pages, chain, page, PageOf(j));
    hide *;
    BackfillReachesIff(chain, pages, page, last, start, j);
  }

  lemma HonestAnswers(pages: Pages, chain: seq<IndexerBlock>, from: nat, to: nat)
    requires Honest(pages, chain) && from >= 1
    ensures HonestOrFailing(pages, chain) && Answered(pages, from, to)
  {
    hide Page;
  }

  ghost predicate HonestOrFailing(pages: Pages, chain: seq<IndexerBlock>) {
    forall p: nat :: p >= 1 ==> pages(p) == None || pages(p) == Some(Page(chain, p))
  }

  lemma AppendOnChain(a: seq<IndexerBlock>, b: seq<IndexerBlock>, chain: seq<IndexerBlock>)
    requires (forall x :: x in a ==> x in chain) && (forall x :: x in b ==> x in chain)
    ensures forall x :: x in a + b ==> x in chain
  {
  }

  lemma {:induction false} BackfillOnChain(chain: seq<IndexerBlock>, pages: Pages, page: nat, last: nat, start: nat)
    requires HonestOrFailing(pages, chain) && page >= 1
    ensures forall b :: b in BackfillFrom(pages, page, last, start) ==> b in chain
    decreases last + 1 - page
  {
    hide *;
    PageOnChain(chain, page);
    HonestAt(pages, chain, page);
    if pages(page) == None {
      BackfillStops(pages, page, last, start);
    } else if page > last || pages(page).value == [] {
      NothingFetched(pages, page, last, start);
    } else {
      BackfillOnChain(chain, pages, page + 1, last, start);
      AtMostBoth(pages, page, last, start);
      AppendOnChain(pages(page).value, BackfillFrom(pages, page + 1, last, start), chain);
    }
  }

  lemma NothingFetched(pages: Pages, page: nat, last: nat, start: nat)
    requires page > last || (pages(page).Some? && pages(page).value == [])
    ensures BackfillFrom(pages, page, last, start) == []
  {
  }

  lemma AtMostBoth(pages: Pages, page: nat, last: nat, start: nat)
    requires page <= last && pages(page).Some? && pages(page).value != []
    ensures var both := pages(page).value + BackfillFrom(pages, page + 1, last, start);
            forall b :: b in BackfillFrom(pages, page, last, start) ==> b in both
  {
  }

  /** A tick whose newest page was answered, whatever else fails, leaves only blocks of the chain in the window. */
  lemma RefillFaithful(have: Window, chain: seq<IndexerBlock>, pages: Pages, window: nat, maxPerTick: nat)
    requires chain != [] && HonestOrFailing(pages, chain) && pages(1) == Some(Page(chain, 1))
    requires Faithful(have, chain)
    ensures Page(chain, 1) != [] && Faithful(Refill(have, Page(chain, 1), pages, window, maxPerTick), chain)
  {
    var newest, head := Page(chain, 1), chain[0].nonce;
    var start := WindowStart(head, window);
    MergeFaithful(have, newest, start, head, chain);
    var first := Pruned(Merge(have, newest, start, head), start, head);
    BackfillOnChain(chain, pages, 2, LastPage(window, maxPerTick), start);
    MergeFaithful(first, BackfillOf(first, pages, window, maxPerTick, head), start, head, chain);
  }

  predicate CanMarkSkipped(window: nat, maxPerTick: nat): (r: bool)
    ensures r <==> window <= 100 * (1 + maxPerTick)
  {
    NeededPages(window) <= 1 + maxPerTick
  }

  /** After a tick in which no page failed, the window has every block of the chain within its range. */
  lemma RefillComplete(have: Window, chain: seq<IndexerBlock>, pages: Pages, window: nat, maxPerTick: nat, j: nat)
    requires IsChain(chain) && chain != [] && Honest(pages, chain) && window >= 1 && CanMarkSkipped(window, maxPerTick)
    requires j < |chain| && WindowStart(chain[0].nonce, window) <= chain[j].nonce
    ensures Page(chain, 1) != [] && chain[j].nonce in Refill(have, Page(chain, 1), pages, window, maxPerTick)
  {
    var newest, head := Page(chain, 1), chain[0].nonce;
    var start := WindowStart(head, window);
    var first := Pruned(Merge(have, newest, start, head), start, head);
    var backfill := BackfillOf(first, pages, window, maxPerTick, head);
    PositionBound(chain, j);
    MergeHas(have, newest, start, head, chain[j].nonce);
    MergeHas(first, backfill, start, head, chain[j].nonce);
    if j < 100 {
      assert newest[j] == chain[j];
    } else {
      BackfillCovers(chain, pages, 2, LastPage(window, maxPerTick), start, j);
    }
  }

  // ---------------------------------------------------------------- the timeline

  datatype Status = Idle | Skipped | Produced | Missed

  /** How nonce `n` is shown for the validator `bls`, `epoch` being the current one. */
  function CellStatus(have: Window, n: nat, bls: string, elected: bool, epoch: nat, canMarkSkipped: bool): Status {
    if n !in have then (if canMarkSkipped then Skipped else Idle)
    else if have[n].producerBLS == bls then Produced
    else if elected && have[n].hasSigners && have[n].epoch == epoch && bls !in have[n].signers then Missed
    else Idle
  }

  /** Nonce 0 is never shown. */
  function FirstShown(start: nat): nat {
    if start == 0 then 1 else start
  }

  /** One cell per nonce of the window, oldest first. */
  method Timeline(have: Window, windowStart: nat, head: nat, window: nat, maxPerTick: nat, bls: string, elected: bool,
                  epoch: nat)
    returns (cells: seq<(nat, Status)>)
    requires head < MAX_UINT64
    ensures |cells| == if FirstShown(windowStart) <= head then head - FirstShown(windowStart) + 1 else 0
    ensures forall i :: 0 <= i < |cells| ==>
              cells[i] == (FirstShown(windowStart) + i,
                           CellStatus(have, FirstShown(windowStart) + i, bls, elected, epoch,
                                      CanMarkSkipped(window, maxPerTick)))
  {
    var start := FirstShown(windowStart);
    var canMarkSkipped := NeededPages(window) <= 1 + maxPerTick;
    cells := [];
    var n := start;
    while n <= head
      invariant start <= n && (n <= head + 1 || n == start) && |cells| == n - start
      invariant forall i :: 0 <= i < |cells| ==>
                  cells[i] == (start + i, CellStatus(have, start + i, bls, elected, epoch, canMarkSkipped))
    {
      var status := Idle;
      if n !in have {
        if canMarkSkipped {
          status := Skipped;
        }
      } else if have[n].producerBLS == bls {
        status := Produced;
      } else if elected && have[n].hasSigners && have[n].epoch == epoch {
        if bls !in have[n].signers {
          status := Missed;
        }
      }
      cells := cells + [(n, status)];
      n := n + 1;
    }
  }

  /**
   * On a chain fixed during the tick, with an honest API, no page failing and a window that backfill
   * can cover, a nonce of the window is shown as skipped exactly if the chain has no such block.
   */
  lemma SkippedIff(have: Window, chain: seq<IndexerBlock>, pages: Pages, window: nat, maxPerTick: nat,
                   n: nat, bls: string, elected: bool, epoch: nat)
    requires IsChain(chain) && chain != [] && Honest(pages, chain) && Faithful(have, chain)
    requires window >= 1 && CanMarkSkipped(window, maxPerTick)
    requires WindowStart(chain[0].nonce, window) <= n <= chain[0].nonce
    ensures Page(chain, 1) != []
    ensures CellStatus(Refill(have, Page(chain, 1), pages, window, maxPerTick), n, bls, elected, epoch, true) == Skipped
            <==> !OnChain(chain, n)
  {
    RefillFaithful(have, chain, pages, window, maxPerTick);
    if OnChain(chain, n) {
      var j :| 0 <= j < |chain| && chain[j].nonce == n;
      RefillComplete(have, chain, pages, window, maxPerTick, j);
    }
  }

  // ---------------------------------------------------------------- pages that fail

  ghost predicate Answered(pages: Pages, from: nat, to: nat) {
    forall p :: from <= p <= to ==> pages(p).Some?
  }

  /** The page with position `j`. */
  function PageOf(j: nat): (page: nat)
    ensures (page - 1) * 100 <= j < page * 100
  {
    j / 100 + 1
  }

  /** The block at position `j` is not in the window yet, and a page on the way to it failed. */
  ghost predicate NotFetched(have: Window, chain: seq<IndexerBlock>, pages: Pages, j: nat)
    requires j < |chain|
  {
    chain[j].nonce !in have && j >= 100 && !Answered(pages, 2, PageOf(j))
  }

  lemma ChainDistinct(chain: seq<IndexerBlock>, i: nat, j: nat)
    requires IsChain(chain) && i < |chain| && j < |chain| && chain[i].nonce == chain[j].nonce
    ensures i == j
  {
  }

  /** A page that ends before position `j` lacks that block, and ends above its nonce. */
  lemma PageBefore(chain: seq<IndexerBlock>, page: nat, j: nat)
    requires IsChain(chain) && page >= 1 && page * 100 <= j < |chain|
    ensures chain[j] !in Page(chain, page)
    ensures Page(chain, page) != [] && Page(chain, page)[|Page(chain, page)| - 1].nonce > chain[j].nonce
  {
    forall i | 0 <= i < |Page(chain, page)|
      ensures Page(chain, page)[i].nonce > chain[j].nonce
    {
      assert Page(chain, page)[i] == chain[(page - 1) * 100 + i];
    }
  }

  lemma HonestAt(pages: Pages, chain: seq<IndexerBlock>, page: nat)
    requires HonestOrFailing(pages, chain) && page >= 1
    ensures pages(page) == None || pages(page) == Some(Page(chain, page))
  {
    hide Page;
  }

  lemma PagesInOrder(page: nat, last: nat, j: nat)
    requires (page - 1) * 100 <= j < last * 100
    ensures page <= PageOf(j) && page <= last
  {
  }

  lemma NoPageNoBlock(chain: seq<IndexerBlock>, pages: Pages, page: nat, last: nat, start: nat, j: nat)
    requires j < |chain| && page <= PageOf(j) && pages(page) == None
    ensures chain[j] !in BackfillFrom(pages, page, last, start) && !Answered(pages, page, PageOf(j))
  {
    hide PageOf;
    BackfillStops(pages, page, last, start);
  }

  lemma OnThisPage(chain: seq<IndexerBlock>, pages: Pages, page: nat, last: nat, start: nat, j: nat)
    requires IsChain(chain) && page >= 1 && (page - 1) * 100 <= j < page * 100 && j < |chain| && page <= last
    requires pages(page) == Some(Page(chain, page))
    ensures chain[j] in BackfillFrom(pages, page, last, start) && Answered(pages, page, PageOf(j))
  {
    PageTells(chain, page, j);
    assert PageOf(j) == page;
    hide IsChain, PageOf, Page;
    BackfillStarts(pages, page, last, start);
  }

  lemma BeyondThisPage(chain: seq<IndexerBlock>, pages: Pages, page: nat, last: nat, start: nat, j: nat)
    requires IsChain(chain) && page >= 1 && page * 100 <= j < |chain| && page <= last && start <= chain[j].nonce
    requires pages(page) == Some(Page(chain, page))
    ensures chain[j] in BackfillFrom(pages, page, last, start)
            <==> chain[j] in BackfillFrom(pages, page + 1, last, start)
    ensures Answered(pages, page, PageOf(j)) <==> Answered(pages, page + 1, PageOf(j))
  {
    PageTells(chain, page, j);
    assert page < PageOf(j);
    hide IsChain, PageOf, Page, Answered, BackfillFrom;
    AnsweredFirst(pages, page, PageOf(j));
    BackfillContinues(pages, page, last, start, chain[j]);
  }

  /** Backfill reaches a block exactly if no page up to it fails. */
  lemma {:induction false} BackfillReachesIff(chain: seq<IndexerBlock>, pages: Pages, page: nat, last: nat,
                                              start: nat, j: nat)
    requires IsChain(chain) && HonestOrFailing(pages, chain) && j < |chain| && start <= chain[j].nonce
    requires 1 <= page && (page - 1) * 100 <= j < last * 100
    ensures chain[j] in BackfillFrom(pages, page, last, start) <==> Answered(pages, page, PageOf(j))
    decreases last - page
  {
    hide *;
    HonestAt(pages, chain, page);
    PagesInOrder(page, last, j);
    if pages(page) == None {
      NoPageNoBlock(chain, pages, page, last, start, j);
    } else if j < page * 100 {
      OnThisPage(chain, pages, page, last, start, j);
    } else {
      BeyondThisPage(chain, pages, page, last, start, j);
      BackfillReachesIff(chain, pages, page + 1, last, start, j);
    }
  }

  lemma BackfillStops(pages: Pages, page: nat, last: nat, start: nat)
    requires pages(page) == None
    ensures BackfillFrom(pages, page, last, start) == []
  {
  }

  lemma BackfillContinues(pages: Pages, page: nat, last: nat, start: nat, b: IndexerBlock)
    requires page <= last && pages(page).Some? && pages(page).value != [] && b !in pages(page).value
    requires pages(page).value[|pages(page).value| - 1].nonce > start
    ensures b in BackfillFrom(pages, page, last, start) <==> b in BackfillFrom(pages, page + 1, last, start)
  {
  }

  /** What an answered page says about the block at a position not before it. */
  lemma PageTells(chain: seq<IndexerBlock>, page: nat, j: nat)
    requires IsChain(chain) && page >= 1 && (page - 1) * 100 <= j < |chain|
    ensures var p := Page(chain, page);
            && p != [] && (chain[j] in p <==> j < page * 100)
            && (j >= page * 100 ==> p[|p| - 1].nonce > chain[j].nonce)
  {
    PageContents(chain, page, j);
    if j >= page * 100 {
      PageBefore(chain, page, j);
    }
  }

  lemma BackfillStarts(pages: Pages, page: nat, last: nat, start: nat)
    requires page <= last && pages(page).Some? && pages(page).value != []
    ensures pages(page).value <= BackfillFrom(pages, page, last, start)
    ensures forall b :: b in pages(page).value ==> b in BackfillFrom(pages, page, last, start)
  {
  }

  lemma AnsweredFirst(pages: Pages, from: nat, to: nat)
    requires from <= to
    ensures Answered(pages, from, to) <==> pages(from).Some? && Answered(pages, from + 1, to)
    ensures from == to ==> Answered(pages, from + 1, to)
  {
  }

  /** In a window that holds it, a block is within the first `window` positions of the chain. */
  lemma PositionInWindow(chain: seq<IndexerBlock>, window: nat, j: nat)
    requires IsChain(chain) && j < |chain| && window >= 1 && WindowStart(chain[0].nonce, window) <= chain[j].nonce
    ensures j < window && chain[j].nonce <= chain[0].nonce && j < NeededPages(window) * 100
  {
    PositionBound(chain, j);
  }

  /** Among blocks of the chain, the one at position `j` is told by its nonce. */
  lemma ByNonce(chain: seq<IndexerBlock>, blocks: seq<IndexerBlock>, j: nat)
    requires IsChain(chain) && j < |chain| && forall b :: b in blocks ==> b in chain
    ensures (exists b :: b in blocks && b.nonce == chain[j].nonce) <==> chain[j] in blocks
  {
    if b :| b in blocks && b.nonce == chain[j].nonce {
      var i :| 0 <= i < |chain| && chain[i] == b;
      ChainDistinct(chain, i, j);
    }
  }

  /**
   * After a tick whose newest page was answered, while others may fail, a block of the chain is
   * shown as skipped exactly if the window did not have it, it is not on the newest page, and a page
   * on the way to it failed.
   */
  lemma SkippedThoughOnChainIff(have: Window, chain: seq<IndexerBlock>, pages: Pages, window: nat, maxPerTick: nat,
                                j: nat, bls: string, elected: bool, epoch: nat)
    requires IsChain(chain) && HonestOrFailing(pages, chain) && pages(1) == Some(Page(chain, 1))
    requires window >= 1 && CanMarkSkipped(window, maxPerTick)
    requires j < |chain| && WindowStart(chain[0].nonce, window) <= chain[j].nonce
    ensures Page(chain, 1) != []
    ensures CellStatus(Refill(have, Page(chain, 1), pages, window, maxPerTick), chain[j].nonce, bls, elected, epoch,
                       true) == Skipped
            <==> NotFetched(have, chain, pages, j)
  {
    var newest, head, n := Page(chain, 1), chain[0].nonce, chain[j].nonce;
    var start, last := WindowStart(head, window), LastPage(window, maxPerTick);
    PositionInWindow(chain, window, j);
    PageOnChain(chain, 1);
    ByNonce(chain, newest, j);
    assert chain[j] in newest <==> j < 100 by {
      if j < 100 { assert newest[j] == chain[j]; } else { PageBefore(chain, 1, j); }
    }
    ChainNotEmpty(chain);
    BackfillOnChain(chain, pages, 2, last, start);
    var fetched := BackfillFrom(pages, 2, last, start);
    ByNonce(chain, fetched, j);
    if j >= 100 {
      BackfillReachesIff(chain, pages, 2, last, start, j);
    }
    hide Page, LastPage, BackfillFrom, NeededPages, IsChain, HonestOrFailing, Answered, PageOf;
    RefillHas(have, newest, pages, window, maxPerTick, n);
  }

  /** What a tick leaves in the window: the nonces there were, those of the newest page, and those fetched. */
  lemma RefillHas(have: Window, newest: seq<IndexerBlock>, pages: Pages, window: nat, maxPerTick: nat, n: nat)
    requires newest != [] && WindowStart(newest[0].nonce, window) <= n <= newest[0].nonce
    ensures n in Refill(have, newest, pages, window, maxPerTick) <==>
            || n in have || (exists b :: b in newest && b.nonce == n)
            || (var start := WindowStart(newest[0].nonce, window);
                exists b :: b in BackfillFrom(pages, 2, LastPage(window, maxPerTick), start) && b.nonce == n)
  {
    hide BackfillFrom, LastPage, WindowStart;
    var head := newest[0].nonce;
    var start := WindowStart(head, window);
    var first := Pruned(Merge(have, newest, start, head), start, head);
    MergeHas(have, newest, start, head, n);
    MergeHas(first, BackfillOf(first, pages, window, maxPerTick, head), start, head, n);
    hide Merge;
  }

  /** With a window of at most one page, blocks of the chain are never shown as skipped, whatever other pages answer. */
  lemma OnePageNeverSkips(have: Window, chain: seq<IndexerBlock>, pages: Pages, window: nat, maxPerTick: nat,
                          j: nat, bls: string, elected: bool, epoch: nat)
    requires IsChain(chain) && pages(1) == Some(Page(chain, 1)) && 1 <= window <= 100
    requires j < |chain| && WindowStart(chain[0].nonce, window) <= chain[j].nonce
    ensures CanMarkSkipped(window, maxPerTick) && Page(chain, 1) != []
    ensures CellStatus(Refill(have, Page(chain, 1), pages, window, maxPerTick), chain[j].nonce, bls, elected, epoch,
                       true) != Skipped
  {
    PositionInWindow(chain, window, j);
    ChainNotEmpty(chain);
    assert Page(chain, 1)[j] == chain[j];
    RefillHas(have, Page(chain, 1), pages, window, maxPerTick, chain[j].nonce);
  }

  /**
   * With any larger window, a second page that fails on the first tick leaves a block of the chain
   * shown as skipped.
   */
  lemma FailedPageShowsSkipped(window: nat, maxPerTick: nat, bls: string, elected: bool, epoch: nat)
    returns (chain: seq<IndexerBlock>, pages: Pages)
    requires window > 100 && CanMarkSkipped(window, maxPerTick)
    ensures IsChain(chain) && chain != [] && HonestOrFailing(pages, chain) && pages(1) == Some(Page(chain, 1))
    ensures OnChain(chain, 1) && Page(chain, 1) != []
    ensures CellStatus(Refill(map[], Page(chain, 1), pages, window, maxPerTick), 1, bls, elected, epoch, true)
            == Skipped
  {
    var blocks := seq(101, i requires 0 <= i < 101 => IndexerBlock(101 - i, 0, "", []));
    chain := blocks;
    pages := p => if p == 1 then Some(Page(blocks, 1)) else None;
    assert chain[100].nonce == 1;
    assert pages(2) == None && PageOf(100) == 2;
    hide Page, CellStatus, Refill;
    SkippedThoughOnChainIff(map[], chain, pages, window, maxPerTick, 100, bls, elected, epoch);
  }

  // ---------------------------------------------------------------- whole runs

  /** One tick: the blocks the chain gained since the last one, newest first, and the API's answers. */
  datatype Poll = Poll(newer: seq<IndexerBlock>, pages: Pages)

  function ChainAfter(polls: seq<Poll>): seq<IndexerBlock> {
    if polls == [] then [] else polls[|polls| - 1].newer + ChainAfter(polls[..|polls| - 1])
  }

  /** The window of a monitor that started empty; a tick without a usable newest page changes nothing. */
  function WindowAfter(polls: seq<Poll>, window: nat, maxPerTick: nat): Window {
    if polls == [] then map[] else
    var before := WindowAfter(polls[..|polls| - 1], window, maxPerTick);
    var pages := polls[|polls| - 1].pages;
    if pages(1).None? || pages(1).value == [] || pages(1).value[0].nonce == 0 then before
    else Refill(before, pages(1).value, pages, window, maxPerTick)
  }

  /** Every page that was answered is one of the chain at that tick; any may fail. */
  ghost predicate AnsweredHonestly(polls: seq<Poll>) {
    forall i :: 0 <= i < |polls| ==> HonestOrFailing(polls[i].pages, ChainAfter(polls[..i + 1]))
  }

  lemma HonestPrefix(polls: seq<Poll>)
    requires polls != [] && AnsweredHonestly(polls)
    ensures AnsweredHonestly(polls[..|polls| - 1])
    ensures HonestOrFailing(polls[|polls| - 1].pages, ChainAfter(polls))
  {
    hide HonestOrFailing, ChainAfter;
    var before := polls[..|polls| - 1];
    forall i | 0 <= i < |before|
      ensures HonestOrFailing(before[i].pages, ChainAfter(before[..i + 1]))
    {
      assert before[..i + 1] == polls[..i + 1];
    }
    assert polls[..|polls| - 1 + 1] == polls;
  }

  lemma {:induction false} WindowFaithful(polls: seq<Poll>, window: nat, maxPerTick: nat)
    requires AnsweredHonestly(polls)
    ensures Faithful(WindowAfter(polls, window, maxPerTick), ChainAfter(polls))
  {
    if polls != [] {
      var n := |polls| - 1;
      var p, before := polls[n], polls[..n];
      HonestPrefix(polls);
      WindowFaithful(before, window, maxPerTick);
      hide Page, Refill;
      FaithfulToGrownChain(WindowAfter(before, window, maxPerTick), ChainAfter(before), p.newer);
      if p.pages(1).Some? && p.pages(1).value != [] {
        ChainNotEmpty(ChainAfter(polls));
        RefillFaithful(WindowAfter(before, window, maxPerTick), ChainAfter(polls), p.pages, window, maxPerTick);
      }
    }
  }

  /**
   * Over every run of ticks on a growing chain, pages failing anywhere before: after a tick in which
   * none failed, a nonce of the timeline is shown as skipped exactly if the chain has no such block,
   * and otherwise as produced or missed exactly as that block says.
   */
  lemma {:induction false} TimelineTellsChain(polls: seq<Poll>, window: nat, maxPerTick: nat, n: nat, bls: string,
                                              elected: bool, epoch: nat)
    requires polls != [] && AnsweredHonestly(polls)
    requires var chain := ChainAfter(polls);
             && IsChain(chain) && chain != [] && Honest(polls[|polls| - 1].pages, chain)
             && FirstShown(WindowStart(chain[0].nonce, window)) <= n <= chain[0].nonce
    requires window >= 1 && CanMarkSkipped(window, maxPerTick)
    ensures var chain := ChainAfter(polls);
            var status := CellStatus(WindowAfter(polls, window, maxPerTick), n, bls, elected, epoch,
                                     CanMarkSkipped(window, maxPerTick));
            && (status == Skipped <==> !OnChain(chain, n))
            && forall j :: 0 <= j < |chain| && chain[j].nonce == n ==>
                 && (status == Produced <==> NormalizeBLS(chain[j].producerBLS) == bls)
                 && (status == Missed <==>
                     NormalizeBLS(chain[j].producerBLS) != bls && MissedIn(chain[j], bls, elected, epoch))
  {
    var m := |polls| - 1;
    var p, before, chain := polls[m], polls[..m], ChainAfter(polls);
    HonestPrefix(polls);
    WindowFaithful(before, window, maxPerTick);
    FaithfulToGrownChain(WindowAfter(before, window, maxPerTick), ChainAfter(before), p.newer);
    ChainNotEmpty(chain);
    assert p.pages(1) == Some(Page(chain, 1));
    SkippedIff(WindowAfter(before, window, maxPerTick), chain, p.pages, window, maxPerTick, n, bls, elected, epoch);
    WindowFaithful(polls, window, maxPerTick);
    hide WindowAfter, ChainAfter, Page, Honest, AnsweredHonestly, NormalizeBLS;
    forall j | 0 <= j < |chain| && chain[j].nonce == n
      ensures n in WindowAfter(polls, window, maxPerTick)
              && WindowAfter(polls, window, maxPerTick)[n] == ToRec(chain[j])
    {
      TheBlock(WindowAfter(polls, window, maxPerTick), chain, j);
    }
  }

  /** The validator was due to sign this block of the current epoch and did not. */
  predicate MissedIn(b: IndexerBlock, bls: string, elected: bool, epoch: nat) {
    && elected && b.validators != [] && b.epoch == epoch
    && forall i :: 0 <= i < |b.validators| ==> NormalizeBLS(b.validators[i]) != bls
  }

  lemma TheBlock(have: Window, chain: seq<IndexerBlock>, j: nat)
    requires IsChain(chain) && Faithful(have, chain) && j < |chain| && chain[j].nonce in have
    ensures have[chain[j].nonce] == ToRec(chain[j])
  {
    var i :| 0 <= i < |chain| && chain[i].nonce == chain[j].nonce && have[chain[j].nonce] == ToRec(chain[i]);
    assert i == j;
  }

  /**
   * Over every run of ticks on a growing chain, after a tick whose newest page was answered while
   * any other page of it or of earlier ticks may have failed, a nonce of the timeline is shown as
   * skipped exactly if every block of the chain with this nonce was out of reach: not in the window
   * before, not on the newest page, and behind a page that failed.
   */
  lemma {:induction false} SkippedOverRunIff(polls: seq<Poll>, window: nat, maxPerTick: nat, n: nat,
                                             bls: string, elected: bool, epoch: nat)
    requires polls != [] && AnsweredHonestly(polls) && polls[|polls| - 1].pages(1).Some?
    requires var chain := ChainAfter(polls);
             IsChain(chain) && chain != [] && FirstShown(WindowStart(chain[0].nonce, window)) <= n <= chain[0].nonce
    requires window >= 1 && CanMarkSkipped(window, maxPerTick)
    ensures var chain, before := ChainAfter(polls), WindowAfter(polls[..|polls| - 1], window, maxPerTick);
            CellStatus(WindowAfter(polls, window, maxPerTick), n, bls, elected, epoch,
                       CanMarkSkipped(window, maxPerTick)) == Skipped
            <==> forall j :: 0 <= j < |chain| && chain[j].nonce == n ==>
                   NotFetched(before, chain, polls[|polls| - 1].pages, j)
  {
    var m := |polls| - 1;
    var p, chain, before := polls[m], ChainAfter(polls), WindowAfter(polls[..m], window, maxPerTick);
    HonestPrefix(polls);
    WindowFaithful(polls, window, maxPerTick);
    ChainNotEmpty(chain);
    assert p.pages(1) == Some(Page(chain, 1));
    hide Page, CellStatus, NotFetched, Refill, ChainAfter, AnsweredHonestly, HonestOrFailing;
    forall j | 0 <= j < |chain| && chain[j].nonce == n
      ensures CellStatus(WindowAfter(polls, window, maxPerTick), n, bls, elected, epoch, true) == Skipped
              <==> NotFetched(before, chain, p.pages, j)
    {
      SkippedThoughOnChainIff(before, chain, p.pages, window, maxPerTick, j, bls, elected, epoch);
    }
    if !OnChain(chain, n) {
      NotThere(WindowAfter(polls, window, maxPerTick), chain, n, bls, elected, epoch);
    }
  }

  lemma NotThere(have: Window, chain: seq<IndexerBlock>, n: nat, bls: string, elected: bool, epoch: nat)
    requires Faithful(have, chain) && !OnChain(chain, n)
    ensures CellStatus(have, n, bls, elected, epoch, true) == Skipped
  {
  }
}
