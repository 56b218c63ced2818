// scripts/label-open-issues.ts: pages of open items regrouped into work batches.
module LabelBatches {
  import opened Wrappers

  const WORK_BATCH_SIZE: nat := 500

  datatype Item = Item(number: int, labels: set<string>)

  /** What the server answers to one request. */
  datatype Reply =
    | Page(nodes: seq<Item>, hasNextPage: bool, endCursor: Option<string>)
    | Failure

  datatype Batch = Batch(batchIndex: nat, items: seq<Item>, fetchedCount: nat)

  // ---------- What is asked for ----------

  /** The items the replies offer, up to the last page or the first failure. */
  function Available(replies: seq<Reply>): seq<Item> {
    if replies == [] || replies[0].Failure? then []
    else replies[0].nodes + (if replies[0].hasNextPage then Available(replies[1..]) else [])
  }

  /** The pages come to an end before any failure. */
  predicate ReachesLastPage(replies: seq<Reply>) {
    replies != [] && replies[0].Page? && (replies[0].hasNextPage ==> ReachesLastPage(replies[1..]))
  }

  predicate Within(n: nat, limit: Option<nat>) {
    limit.Some? ==> n < limit.value
  }

  function Wanted(replies: seq<Reply>, limit: Option<nat>): seq<Item> {
    var all := Available(replies);
    if Within(|all|, limit) then all else all[..limit.value]
  }

  predicate Succeeds(replies: seq<Reply>, limit: Option<nat>) {
    !Within(|Available(replies)|, limit) || ReachesLastPage(replies)
  }

  function Nodes(pages: seq<Reply>): seq<Item>
    requires forall p <- pages :: p.Page?
  {
    if pages == [] then [] else Nodes(pages[..|pages| - 1]) + pages[|pages| - 1].nodes
  }

  lemma {:induction false} NodesFirst(pages: seq<Reply>)
    requires pages != [] && forall p <- pages :: p.Page?
    ensures Nodes(pages) == pages[0].nodes + Nodes(pages[1..])
  {
    if |pages| > 1 {
      var n := |pages| - 1;
      var init, rest := pages[..n], pages[1..];
      NodesFirst(init);
      assert rest[..n - 1] == init[1..] && rest[n - 1] == pages[n] && init[0] == pages[0];
      assert Nodes(rest) == Nodes(init[1..]) + pages[n].nodes;
      var first, more, last := pages[0].nodes, Nodes(init[1..]), pages[n].nodes;
      assert (first + more) + last == first + (more + last);
    } else {
      assert pages[..0] == [] == pages[1..];
    }
  }

  /** Pages are read on while they say there is more; the page that says there is none, or a failure, ends it. */
  lemma {:induction false} ReadToTheEnd(pages: seq<Reply>, last: Reply, more: seq<Reply>)
    requires forall p <- pages :: p.Page? && p.hasNextPage
    requires last.Page? ==> !last.hasNextPage
    ensures Available(pages + [last] + more) == Nodes(pages) + if last.Page? then last.nodes else []
    ensures ReachesLastPage(pages + [last] + more) <==> last.Page?
    ensures Available(pages) == Nodes(pages) && !ReachesLastPage(pages)
  {
    var all := pages + [last] + more;
    if pages != [] {
      assert all[1..] == pages[1..] + [last] + more;
      NodesFirst(pages);
      ReadToTheEnd(pages[1..], last, more);
    }
  }

  /** A limit takes the first items; to reach it is to succeed, whatever the rest would have been. */
  lemma {:induction false} LimitTakesFirst(replies: seq<Reply>, n: nat)
    ensures Wanted(replies, None) == Available(replies) && (Succeeds(replies, None) <==> ReachesLastPage(replies))
    ensures n <= |Available(replies)| ==>
      Wanted(replies, Some(n)) == Available(replies)[..n] && Succeeds(replies, Some(n))
    ensures n > |Available(replies)| ==>
      Wanted(replies, Some(n)) == Available(replies) && (Succeeds(replies, Some(n)) <==> ReachesLastPage(replies))
  {
    hide Available, ReachesLastPage;
  }

  // ---------- The batches ----------

  function Chunk(items: seq<Item>, i: nat): (b: Batch)
    requires i * WORK_BATCH_SIZE <= |items|
  {
    var to := if (i + 1) * WORK_BATCH_SIZE <= |items| then (i + 1) * WORK_BATCH_SIZE else |items|;
    Batch(i + 1, items[i * WORK_BATCH_SIZE..to], to)
  }

  function FullChunks(items: seq<Item>): (r: seq<Batch>)
    ensures |r| == |items| / WORK_BATCH_SIZE
  {
    seq(|items| / WORK_BATCH_SIZE, i requires 0 <= i < |items| / WORK_BATCH_SIZE => Chunk(items, i))
  }

  function Remainder(items: seq<Item>): seq<Item> {
    items[|items| / WORK_BATCH_SIZE * WORK_BATCH_SIZE..]
  }

  /** Full batches, and a last short one only if the fetching came to its end. */
  function Batches(items: seq<Item>, finished: bool): seq<Batch> {
    FullChunks(items)
    + if finished && Remainder(items) != [] then [Chunk(items, |items| / WORK_BATCH_SIZE)] else []
  }

  lemma ChunkKept(items: seq<Item>, x: Item, i: nat)
    requires (i + 1) * WORK_BATCH_SIZE <= |items|
    ensures Chunk(items + [x], i) == Chunk(items, i)
  {
    assert (items + [x])[i * WORK_BATCH_SIZE..(i + 1) * WORK_BATCH_SIZE]
        == items[i * WORK_BATCH_SIZE..(i + 1) * WORK_BATCH_SIZE];
  }

  lemma OneMore(items: seq<Item>, x: Item)
    ensures
      var held := Remainder(items) + [x];
      if |held| < WORK_BATCH_SIZE
      then FullChunks(items + [x]) == FullChunks(items) && Remainder(items + [x]) == held
      else && FullChunks(items + [x])
              == FullChunks(items) + [Batch(|FullChunks(items)| + 1, held, |items| + 1)]
           && Remainder(items + [x]) == []
  {
    var n := |items| / WORK_BATCH_SIZE;
    var more := items + [x];
    assert more[n * WORK_BATCH_SIZE..] == Remainder(items) + [x];
    forall i | 0 <= i < n ensures Chunk(more, i) == Chunk(items, i) {
      ChunkKept(items, x, i);
    }
    if |more| == (n + 1) * WORK_BATCH_SIZE {
      assert more[n * WORK_BATCH_SIZE..(n + 1) * WORK_BATCH_SIZE] == more[n * WORK_BATCH_SIZE..];
      assert Chunk(more, n) == Batch(n + 1, Remainder(items) + [x], |more|);
    }
  }

  // ---------- The generator ----------

  /** Where request number `k` starts: the first at the beginning, the others where the page before ended. */
  function CursorAt(replies: seq<Reply>, k: nat): Option<string> {
    if 0 < k <= |replies| && replies[k - 1].Page? then replies[k - 1].endCursor else None
  }

  ghost predicate CursorsFollow(replies: seq<Reply>, cursors: seq<Option<string>>) {
    forall k :: 0 <= k < |cursors| ==> cursors[k] == CursorAt(replies, k)
  }

  lemma NextCursor(replies: seq<Reply>, cursors: seq<Option<string>>, after: Option<string>)
    requires CursorsFollow(replies, cursors) && after == CursorAt(replies, |cursors|)
    ensures CursorsFollow(replies, cursors + [after])
    ensures |cursors| < |replies| && replies[|cursors|].Page? ==>
      replies[|cursors|].endCursor == CursorAt(replies, |cursors| + 1)
  {
  }

  ghost predicate Holds(taken: seq<Item>, batches: seq<Batch>, results: seq<Item>, fetchedCount: nat, batchIndex: nat) {
    && batches == FullChunks(taken) && results == Remainder(taken)
    && fetchedCount == |taken| && batchIndex == |batches| + 1
  }

  /** `taken` is all the first `page` replies offer. */
  ghost predicate Offers(replies: seq<Reply>, page: nat, taken: seq<Item>) {
    && page <= |replies|
    && Available(replies) == taken + Available(replies[page..])
    && (ReachesLastPage(replies) <==> ReachesLastPage(replies[page..]))
  }

  ghost predicate Full(replies: seq<Reply>, limit: Option<nat>, taken: seq<Item>) {
    limit == Some(|taken|) && taken <= Available(replies)
  }

  ghost predicate Complete(replies: seq<Reply>, limit: Option<nat>, taken: seq<Item>, finished: bool) {
    taken == Wanted(replies, limit) && finished == Succeeds(replies, limit)
  }

  /** Before request `page`: everything read so far is taken, unless the limit is met. */
  ghost predicate Fetching(replies: seq<Reply>, limit: Option<nat>, page: nat, taken: seq<Item>) {
    && page <= |replies|
    && (Offers(replies, page, taken) || Full(replies, limit, taken))
    && (limit.Some? ==> |taken| <= limit.value)
  }

  lemma StartFetching(replies: seq<Reply>, limit: Option<nat>)
    ensures Fetching(replies, limit, 0, []) && Holds([], [], [], 0, 1) && CursorsFollow(replies, [])
    ensures CursorAt(replies, 0) == None
  {
    assert replies[0..] == replies;
    assert Offers(replies, 0, []);
  }

  lemma BelowLimit(replies: seq<Reply>, limit: Option<nat>, page: nat, taken: seq<Item>,
                   batches: seq<Batch>, results: seq<Item>, fetchedCount: nat, batchIndex: nat)
    requires Fetching(replies, limit, page, taken)
    requires Holds(taken, batches, results, fetchedCount, batchIndex) && Within(fetchedCount, limit)
    ensures Offers(replies, page, taken) && Within(|taken|, limit) && page <= |replies|
  {
  }

  lemma AtLimit(replies: seq<Reply>, limit: Option<nat>, page: nat, taken: seq<Item>,
                batches: seq<Batch>, results: seq<Item>, fetchedCount: nat, batchIndex: nat)
    requires Fetching(replies, limit, page, taken)
    requires Holds(taken, batches, results, fetchedCount, batchIndex) && !Within(fetchedCount, limit)
    ensures Complete(replies, limit, taken, true)
  {
  }

  lemma HoldsCount(taken: seq<Item>, batches: seq<Batch>, results: seq<Item>, fetchedCount: nat, batchIndex: nat)
    requires Holds(taken, batches, results, fetchedCount, batchIndex)
    ensures fetchedCount == |taken|
  {
  }

  lemma HoldsNext(
    taken: seq<Item>, batches: seq<Batch>, results: seq<Item>, fetchedCount: nat, batchIndex: nat, x: Item)
    requires Holds(taken, batches, results, fetchedCount, batchIndex)
    ensures |results| + 1 < WORK_BATCH_SIZE ==>
      Holds(taken + [x], batches, results + [x], fetchedCount + 1, batchIndex)
    ensures |results| + 1 >= WORK_BATCH_SIZE ==>
      Holds(taken + [x], batches + [Batch(batchIndex, results + [x], fetchedCount + 1)], [],
            fetchedCount + 1, batchIndex + 1)
    ensures fetchedCount == |taken|
  {
    OneMore(taken, x);
    hide FullChunks, Remainder;
  }

  lemma LastBatch(replies: seq<Reply>, limit: Option<nat>, taken: seq<Item>, finished: bool,
                  batches: seq<Batch>, results: seq<Item>, fetchedCount: nat, batchIndex: nat)
    requires Holds(taken, batches, results, fetchedCount, batchIndex)
    requires Complete(replies, limit, taken, finished)
    ensures Batches(Wanted(replies, limit), finished)
         == batches + (if finished && |results| > 0 then [Batch(batchIndex, results, fetchedCount)] else [])
    ensures finished == Succeeds(replies, limit)
  {
    var n := |taken| / WORK_BATCH_SIZE;
    assert taken[n * WORK_BATCH_SIZE..|taken|] == Remainder(taken);
    assert Chunk(taken, n) == Batch(batchIndex, results, fetchedCount);
  }

  lemma StopsAtFailure(replies: seq<Reply>, limit: Option<nat>, page: nat, taken: seq<Item>)
    requires Offers(replies, page, taken) && Within(|taken|, limit)
    requires page == |replies| || replies[page].Failure?
    ensures Complete(replies, limit, taken, false)
  {
  }

  lemma PageTaken(replies: seq<Reply>, limit: Option<nat>, page: nat, before: seq<Item>, n: nat, taken: seq<Item>)
    requires Offers(replies, page, before) && page < |replies| && replies[page].Page?
    requires n <= |replies[page].nodes| && taken == before + replies[page].nodes[..n]
    requires limit.Some? ==> |taken| <= limit.value
    requires n < |replies[page].nodes| ==> limit == Some(|taken|)
    ensures if replies[page].hasNextPage then Fetching(replies, limit, page + 1, taken)
            else Complete(replies, limit, taken, true)
  {
    var rest := replies[page..];
    assert rest[0] == replies[page] && rest[1..] == replies[page + 1..];
    var nodes := replies[page].nodes;
    assert nodes == nodes[..n] + nodes[n..];
  }

  lemma WithinIff(n: nat, limit: Option<nat>)
    requires limit.Some? ==> n <= limit.value
    ensures Within(n, limit) ==> (limit.Some? ==> n + 1 <= limit.value)
    ensures !Within(n, limit) ==> limit == Some(n)
  {
  }

  /** The generator run to its end; `cursors` are the positions it asked for. A missing reply is a failure. */
  method FetchOpenLabelItemBatches(replies: seq<Reply>, limit: Option<nat>)
    returns (batches: seq<Batch>, finished: bool, cursors: seq<Option<string>>)
    ensures finished == Succeeds(replies, limit)
    ensures batches == Batches(Wanted(replies, limit), finished)
    ensures |cursors| <= |replies| + 1
    ensures CursorsFollow(replies, cursors)
  {
    var results: seq<Item> := [];
    var page := 0;
    var after: Option<string> := None;
    var fetchedCount: nat := 0;
    var batchIndex: nat := 1;
    batches, cursors, finished := [], [], true;
    ghost var taken: seq<Item> := [];
    StartFetching(replies, limit);
    hide Fetching, Offers, Full, Holds, Complete, Available, ReachesLastPage, CursorAt, CursorsFollow, Batches;
    hide FullChunks, Remainder, Wanted, Succeeds, Within;
    while Within(fetchedCount, limit)
      invariant page <= |replies| && Fetching(replies, limit, page, taken)
      invariant Holds(taken, batches, results, fetchedCount, batchIndex)
      invariant |cursors| == page && CursorsFollow(replies, cursors)
      invariant after == CursorAt(replies, page) && finished
      decreases |replies| - page
    {
      BelowLimit(replies, limit, page, taken, batches, results, fetchedCount, batchIndex);
      NextCursor(replies, cursors, after);
      cursors := cursors + [after];
      if page == |replies| || replies[page].Failure? {
        finished := false;
        StopsAtFailure(replies, limit, page, taken);
        break;
      }
      var data := replies[page];
      ghost var before := taken;
      ghost var n: nat := 0;
      for i := 0 to |data.nodes|
        invariant n == i && taken == before + data.nodes[..n]
        invariant limit.Some? ==> |taken| <= limit.value
        invariant Holds(taken, batches, results, fetchedCount, batchIndex)
      {
        HoldsCount(taken, batches, results, fetchedCount, batchIndex);
        WithinIff(|taken|, limit);
        if !Within(fetchedCount, limit) {
          break;
        }
        HoldsNext(taken, batches, results, fetchedCount, batchIndex, data.nodes[i]);
        results := results + [data.nodes[i]];
        fetchedCount := fetchedCount + 1;
        taken := taken + [data.nodes[i]];
        n := n + 1;
        if |results| >= WORK_BATCH_SIZE {
          batches := batches + [Batch(batchIndex, results, fetchedCount)];
          results := [];
          batchIndex := batchIndex + 1;
        }
      }
      PageTaken(replies, limit, page, before, n, taken);
      if !data.hasNextPage {
        break;
      }
      after := data.endCursor;
      page := page + 1;
    }
    if !Complete(replies, limit, taken, finished) {
      AtLimit(replies, limit, page, taken, batches, results, fetchedCount, batchIndex);
    }
    LastBatch(replies, limit, taken, finished, batches, results, fetchedCount, batchIndex);
    if finished && |results| > 0 {
      batches := batches + [Batch(batchIndex, results, fetchedCount)];
    }
  }

  // ---------- What the batches are ----------

  function Items(batches: seq<Batch>): seq<Item> {
    if batches == [] then [] else batches[0].items + Items(batches[1..])
  }

  lemma {:induction false} ItemsSnoc(batches: seq<Batch>, last: Batch)
    ensures Items(batches + [last]) == Items(batches) + last.items
  {
    if batches == [] {
      assert [last][1..] == [];
    } else {
      assert (batches + [last])[1..] == batches[1..] + [last];
      ItemsSnoc(batches[1..], last);
    }
  }

  lemma {:induction false} FirstChunks(items: seq<Item>, n: nat)
    requires n <= |items| / WORK_BATCH_SIZE
    ensures Items(FullChunks(items)[..n]) == items[..n * WORK_BATCH_SIZE]
  {
    var chunks := FullChunks(items);
    if n == 0 {
      assert chunks[..0] == [];
    } else {
      FirstChunks(items, n - 1);
      assert chunks[..n] == chunks[..n - 1] + [chunks[n - 1]];
      ItemsSnoc(chunks[..n - 1], chunks[n - 1]);
      assert items[..n * WORK_BATCH_SIZE]
          == items[..(n - 1) * WORK_BATCH_SIZE] + items[(n - 1) * WORK_BATCH_SIZE..n * WORK_BATCH_SIZE];
    }
  }

  /**
   * In order and without loss: after a complete run the batches are the wanted items; after a failure
   * they are the largest full number of batches of what had arrived.
   */
  lemma BatchesAreTheItems(items: seq<Item>, finished: bool)
    ensures Items(Batches(items, finished))
         == if finished then items else items[..|items| / 500 * 500]
  {
    var n := |items| / WORK_BATCH_SIZE;
    var full := FullChunks(items);
    FirstChunks(items, n);
    assert full[..n] == full;
    var rest := Remainder(items);
    assert items == items[..n * WORK_BATCH_SIZE] + rest;
    assert full + [] == full;
    if finished && rest != [] {
      ItemsSnoc(full, Chunk(items, n));
      assert items[n * WORK_BATCH_SIZE..|items|] == rest;
    }
  }

  /** Numbered from one, all but the last full, none empty, and each told how many items came so far. */
  lemma BatchesCount(items: seq<Item>, finished: bool, i: nat)
    requires i < |Batches(items, finished)|
    ensures
      var batches := Batches(items, finished);
      && batches[i].batchIndex == i + 1
      && 0 < |batches[i].items| <= 500
      && (i + 1 < |batches| ==> |batches[i].items| == 500)
      && batches[i].fetchedCount == i * 500 + |batches[i].items|
  {
  }

  lemma {:induction false} MoreAvailable(replies: seq<Reply>, more: seq<Reply>)
    ensures Available(replies) <= Available(replies + more)
  {
    if replies != [] && replies[0].Page? {
      MoreAvailable(replies[1..], more);
      assert (replies + more)[1..] == replies[1..] + more;
    }
  }

  /** No reply decides anything once the limit is met: what comes after the pages read does not matter. */
  lemma {:induction false} OnlyReadPagesMatter(replies: seq<Reply>, more: seq<Reply>, limit: nat)
    requires limit <= |Available(replies)|
    ensures Wanted(replies + more, Some(limit)) == Wanted(replies, Some(limit))
    ensures Succeeds(replies + more, Some(limit))
  {
    MoreAvailable(replies, more);
  }
}
