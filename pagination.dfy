// The pagination and eligibility loop of `get_threads_to_follow_up`
// (app/email_service.py). The provider is a sequence of list responses and a
// map from thread id to the thread's messages; the clock is `now` in epoch seconds.

module Pagination {
  import opened Wrappers
  import opened Text
  import opened Messages
  import opened Followups
  import opened Calendar
  import opened Settings

  /** One `messages().list` response: the `threadId` of each listed message (an absent `messages` reads as none) and `nextPageToken`. */
  datatype Page = Page(threadIds: seq<string>, nextPageToken: Option<string>)

  /** The record appended to `threads_to_follow_up`. */
  datatype Candidate = Candidate(
    id: string, threadId: string, subject: string, to: string, date: string,
    snippet: string, followupCount: nat, daysSinceLast: int)

  /** `page_token` after this response is truthy: the loop asks for another page. */
  predicate HasNext(p: Page) {
    p.nextPageToken.Some? && p.nextPageToken.value != ""
  }

  /** The loop ends at this response: it lists nothing, or has no next-page token. */
  predicate Stops(p: Page) {
    p.threadIds == [] || !HasNext(p)
  }

  /** Index of the first response that ends the loop (`|pages|` when none does). */
  function FirstStop(pages: seq<Page>): (k: nat)
    ensures k <= |pages|
    decreases |pages|
  {
    if pages == [] then 0
    else if Stops(pages[0]) then 0
    else 1 + FirstStop(pages[1..])
  }

  /** No response before the first stop ends the loop, and the first stop does, if there is one. */
  lemma {:induction false} FirstStopSpec(pages: seq<Page>)
    ensures forall j :: 0 <= j < FirstStop(pages) ==> !Stops(pages[j])
    ensures FirstStop(pages) < |pages| ==> Stops(pages[FirstStop(pages)])
    decreases |pages|
  {
    if pages != [] && !Stops(pages[0]) {
      FirstStopSpec(pages[1..]);
      forall j | 1 <= j < FirstStop(pages)
        ensures !Stops(pages[j])
      {
        assert pages[j] == pages[1..][j - 1];
      }
    }
  }

  /** Number of responses whose threads are fetched: the stopping one only if it listed something. */
  function Processed(pages: seq<Page>): (n: nat)
    requires FirstStop(pages) < |pages|
    ensures n <= |pages|
  {
    FirstStop(pages) + (if pages[FirstStop(pages)].threadIds == [] then 0 else 1)
  }

  /** `threads().get` returns the thread and its last message exists: anything else raises. */
  predicate Fetchable(threads: map<string, seq<Message>>, id: string) {
    id in threads && threads[id] != []
  }

  predicate PageFetchable(threads: map<string, seq<Message>>, p: Page) {
    forall id :: id in p.threadIds ==> Fetchable(threads, id)
  }

  predicate AllFromUser(msgs: seq<Message>, user: string) {
    forall i :: 0 <= i < |msgs| ==> IsFromUser(msgs[i], user)
  }

  /** The campaign filter: the stripped, lower-cased subject starts with `interest in`. */
  predicate IsCampaignSubject(subject: string) {
    StartsWith(Lower(Strip(subject)), "interest in")
  }

  /** `days_since_last`: whole days from the last message's second to `now`, floored. */
  function DaysSince(m: Message, now: int): int {
    (now - m.internalDate / 1000) / SecondsPerDay
  }

  /** The four conditions under which a non-empty thread becomes a candidate. */
  ghost predicate Eligible(msgs: seq<Message>, user: string, now: int, cfg: Config)
    requires msgs != []
  {
    && AllFromUser(msgs, user)
    && IsCampaignSubject(GetHeader(msgs[0], "subject"))
    && DaysSince(msgs[|msgs| - 1], now) >= cfg.minDays
    && FollowupCount(msgs) < cfg.maxFollowUps
  }

  /** The candidate record built from a thread's last message. */
  function CandidateOf(tid: string, msgs: seq<Message>, now: int): Candidate
    requires msgs != []
  {
    var last := msgs[|msgs| - 1];
    Candidate(
      last.id, tid, GetHeader(last, "subject"), GetHeader(last, "to"),
      FormatTimestamp(last.internalDate / 1000), last.snippet,
      FollowupCount(msgs), DaysSince(last, now))
  }

  /** `c` is the candidate built from its own thread, which is eligible. */
  ghost predicate Judged(c: Candidate, threads: map<string, seq<Message>>, user: string, now: int, cfg: Config) {
    && Fetchable(threads, c.threadId)
    && Eligible(threads[c.threadId], user, now, cfg)
    && c == CandidateOf(c.threadId, threads[c.threadId], now)
  }

  /** What processing one page yields: each eligible listed thread once, and nothing else. */
  ghost predicate PageResult(found: seq<Candidate>, p: Page, threads: map<string, seq<Message>>, user: string, now: int, cfg: Config)
    requires PageFetchable(threads, p)
  {
    && DistinctThreads(found)
    && (forall c :: c in found ==> c.threadId in p.threadIds && Judged(c, threads, user, now, cfg))
    && (forall id :: id in p.threadIds && Eligible(threads[id], user, now, cfg) ==> CandidateOf(id, threads[id], now) in found)
  }

  /** The outcome of judging one fetched thread. */
  datatype Verdict = Crash | Skip | Keep(candidate: Candidate)

  /**
   * Lines 40-65 for one fetched thread: the sender filter, the campaign filter,
   * the age threshold and the follow-up ceiling, in the source's order.
   */
  method JudgeThread(tid: string, msgs: seq<Message>, user: string, now: int, cfg: Config) returns (v: Verdict)
    ensures v.Crash? <==> msgs == []
    ensures v.Keep? <==> msgs != [] && Eligible(msgs, user, now, cfg)
    ensures v.Keep? ==> v.candidate == CandidateOf(tid, msgs, now)
  {
    if !AllFromUser(msgs, user) {
      return Skip;
    }
    if msgs != [] {
      var first := Lower(Strip(GetHeader(msgs[0], "subject")));
      if !StartsWith(first, "interest in") {
        return Skip;
      }
    }
    if msgs == [] {
      // `thread_messages[-1]` raises IndexError on an empty thread
      return Crash;
    }
    var last := msgs[|msgs| - 1];
    var lastSeconds := last.internalDate / 1000;
    var days := (now - lastSeconds) / SecondsPerDay;
    if days < cfg.minDays {
      return Skip;
    }
    var n := CountFollowups(msgs);
    if n >= cfg.maxFollowUps {
      return Skip;
    }
    v := Keep(Candidate(
      last.id, tid, GetHeader(last, "subject"), GetHeader(last, "to"),
      FormatTimestamp(lastSeconds), last.snippet, n, days));
    assert v.candidate == CandidateOf(tid, msgs, now);
  }

  /** The candidates that judging the threads `order` in turn yields, in that order. */
  ghost function Select(order: seq<string>, threads: map<string, seq<Message>>, user: string, now: int, cfg: Config): seq<Candidate>
    decreases |order|
  {
    if order == [] then []
    else
      var id := order[|order| - 1];
      Select(order[..|order| - 1], threads, user, now, cfg)
        + (if Fetchable(threads, id) && Eligible(threads[id], user, now, cfg) then [CandidateOf(id, threads[id], now)] else [])
  }

  lemma SelectSnoc(order: seq<string>, id: string, threads: map<string, seq<Message>>, user: string, now: int, cfg: Config)
    ensures Select(order + [id], threads, user, now, cfg) == Select(order, threads, user, now, cfg)
      + (if Fetchable(threads, id) && Eligible(threads[id], user, now, cfg) then [CandidateOf(id, threads[id], now)] else [])
  {
    assert (order + [id])[..|order|] == order;
  }

  /** `order` lists each element of `ids` exactly once. */
  ghost predicate Enumerates(order: seq<string>, ids: seq<string>) {
    && (forall id :: id in order <==> id in ids)
    && (forall i, j :: 0 <= i < j < |order| ==> order[i] != order[j])
  }

  lemma EnumeratesMember(order: seq<string>, ids: seq<string>, id: string)
    requires Enumerates(order, ids) && id in ids
    ensures id in order
  {
  }

  /**
   * One iteration of the outer loop: the distinct thread ids of the page, in the
   * unspecified order of a Python set, each fetched and judged once. `order` is
   * the order the set happened to yield.
   */
  method ProcessPage(p: Page, threads: map<string, seq<Message>>, user: string, now: int, cfg: Config)
    returns (ok: bool, found: seq<Candidate>, ghost order: seq<string>)
    ensures ok <==> PageFetchable(threads, p)
    ensures ok ==> Enumerates(order, p.threadIds) && found == Select(order, threads, user, now, cfg)
  {
    var ids := set id | id in p.threadIds;
    var pending := ids;
    found, order := [], [];
    while pending != {}
      invariant forall id :: id in order <==> id in ids && id !in pending
      invariant pending <= ids
      invariant forall i, j :: 0 <= i < j < |order| ==> order[i] != order[j]
      invariant forall id :: id in order ==> Fetchable(threads, id)
      invariant found == Select(order, threads, user, now, cfg)
      decreases pending
    {
      var id :| id in pending;
      if id !in threads {
        // `threads().get` raises; nothing catches it
        return false, [], order;
      }
      var v := JudgeThread(id, threads[id], user, now, cfg);
      if v.Crash? {
        return false, [], order;
      }
      pending := pending - {id};
      SelectSnoc(order, id, threads, user, now, cfg);
      order := order + [id];
      assert Select(order, threads, user, now, cfg) == found + (if v.Keep? then [v.candidate] else []);
      if v.Keep? {
        found := found + [v.candidate];
      }
    }
    ok := true;
  }

  /** Every selected candidate comes from a thread of `order`. */
  lemma {:induction false} SelectFromOrder(order: seq<string>, threads: map<string, seq<Message>>, user: string, now: int, cfg: Config)
    ensures forall c :: c in Select(order, threads, user, now, cfg) ==> c.threadId in order
    decreases |order|
  {
    if order != [] {
      var prev := order[..|order| - 1];
      SelectFromOrder(prev, threads, user, now, cfg);
      assert forall id :: id in prev ==> id in order;
    }
  }

  /** Every selected candidate is built from its own thread, which is eligible. */
  lemma {:induction false} SelectJudged(order: seq<string>, threads: map<string, seq<Message>>, user: string, now: int, cfg: Config)
    ensures forall c :: c in Select(order, threads, user, now, cfg) ==> Judged(c, threads, user, now, cfg)
    decreases |order|
  {
    if order != [] {
      SelectJudged(order[..|order| - 1], threads, user, now, cfg);
    }
  }

  /** Every eligible thread of `order` yields its candidate. */
  lemma {:induction false} SelectComplete(order: seq<string>, threads: map<string, seq<Message>>, user: string, now: int, cfg: Config)
    ensures forall id :: id in order && Fetchable(threads, id) && Eligible(threads[id], user, now, cfg) ==>
      CandidateOf(id, threads[id], now) in Select(order, threads, user, now, cfg)
    decreases |order|
  {
    if order != [] {
      var prev := order[..|order| - 1];
      SelectComplete(prev, threads, user, now, cfg);
      assert forall id :: id in order ==> id in prev || id == order[|order| - 1];
    }
  }

  /** No two candidates share a thread. */
  predicate DistinctThreads(found: seq<Candidate>) {
    forall i, j :: 0 <= i < j < |found| ==> found[i].threadId != found[j].threadId
  }

  lemma DistinctThreadsSnoc(found: seq<Candidate>, c: Candidate)
    requires DistinctThreads(found)
    requires forall d :: d in found ==> d.threadId != c.threadId
    ensures DistinctThreads(found + [c])
  {
    var all := found + [c];
    forall i, j | 0 <= i < j < |all|
      ensures all[i].threadId != all[j].threadId
    {
      assert all[i] == found[i] && found[i] in found;
    }
  }

  /** Judging each thread once yields each thread at most once. */
  lemma {:induction false} SelectDistinct(order: seq<string>, threads: map<string, seq<Message>>, user: string, now: int, cfg: Config)
    requires forall i, j :: 0 <= i < j < |order| ==> order[i] != order[j]
    ensures DistinctThreads(Select(order, threads, user, now, cfg))
    decreases |order|
  {
    if order != [] {
      var prev := order[..|order| - 1];
      var id := order[|order| - 1];
      SelectDistinct(prev, threads, user, now, cfg);
      SelectFromOrder(prev, threads, user, now, cfg);
      assert id !in prev;
      if Fetchable(threads, id) && Eligible(threads[id], user, now, cfg) {
        DistinctThreadsSnoc(Select(prev, threads, user, now, cfg), CandidateOf(id, threads[id], now));
      }
    }
  }

  /** A page processed in any enumeration order yields exactly its eligible threads, once each. */
  lemma PageResultOfSelect(order: seq<string>, p: Page, threads: map<string, seq<Message>>, user: string, now: int, cfg: Config)
    requires PageFetchable(threads, p) && Enumerates(order, p.threadIds)
    ensures PageResult(Select(order, threads, user, now, cfg), p, threads, user, now, cfg)
  {
    SelectFromOrder(order, threads, user, now, cfg);
    SelectJudged(order, threads, user, now, cfg);
    SelectComplete(order, threads, user, now, cfg);
    SelectDistinct(order, threads, user, now, cfg);
  }

  /** The candidates of consecutive pages, each page judged in its own order, concatenated in page order. */
  ghost function Gather(orders: seq<seq<string>>, threads: map<string, seq<Message>>, user: string, now: int, cfg: Config): seq<Candidate>
    decreases |orders|
  {
    if orders == [] then []
    else Gather(orders[..|orders| - 1], threads, user, now, cfg) + Select(orders[|orders| - 1], threads, user, now, cfg)
  }

  /** Each of `orders` enumerates the thread ids of the page at the same index. */
  ghost predicate EnumeratePages(orders: seq<seq<string>>, pages: seq<Page>)
    requires |orders| <= |pages|
    decreases |orders|
  {
    orders == [] || (EnumeratePages(orders[..|orders| - 1], pages) && Enumerates(orders[|orders| - 1], pages[|orders| - 1].threadIds))
  }

  lemma {:induction false} EnumeratePagesAt(orders: seq<seq<string>>, pages: seq<Page>, k: int)
    requires |orders| <= |pages| && EnumeratePages(orders, pages) && 0 <= k < |orders|
    ensures Enumerates(orders[k], pages[k].threadIds)
    decreases |orders|
  {
    if k < |orders| - 1 {
      EnumeratePagesAt(orders[..|orders| - 1], pages, k);
    }
  }

  /** Every gathered candidate is built from its own thread, which is eligible. */
  lemma {:induction false} GatherJudged(orders: seq<seq<string>>, threads: map<string, seq<Message>>, user: string, now: int, cfg: Config)
    ensures forall c :: c in Gather(orders, threads, user, now, cfg) ==> Judged(c, threads, user, now, cfg)
    decreases |orders|
  {
    if orders != [] {
      GatherJudged(orders[..|orders| - 1], threads, user, now, cfg);
      SelectJudged(orders[|orders| - 1], threads, user, now, cfg);
    }
  }

  /** Every gathered candidate's thread is listed on one of the processed pages. */
  lemma {:induction false} GatherListed(orders: seq<seq<string>>, pages: seq<Page>, threads: map<string, seq<Message>>, user: string, now: int, cfg: Config)
    requires |orders| <= |pages| && EnumeratePages(orders, pages)
    ensures forall c :: c in Gather(orders, threads, user, now, cfg) ==>
      exists k :: 0 <= k < |orders| && c.threadId in pages[k].threadIds
    decreases |orders|
  {
    if orders != [] {
      var n := |orders| - 1;
      GatherListed(orders[..n], pages, threads, user, now, cfg);
      SelectFromOrder(orders[n], threads, user, now, cfg);
      forall c | c in Gather(orders, threads, user, now, cfg)
        ensures exists k :: 0 <= k < |orders| && c.threadId in pages[k].threadIds
      {
        if c !in Gather(orders[..n], threads, user, now, cfg) {
          assert c.threadId in pages[n].threadIds;
        }
      }
    }
  }

  /** Every eligible thread listed on a processed page yields its candidate. */
  lemma GatherComplete(orders: seq<seq<string>>, pages: seq<Page>, threads: map<string, seq<Message>>, user: string, now: int, cfg: Config)
    requires |orders| <= |pages| && EnumeratePages(orders, pages)
    ensures forall k, id :: 0 <= k < |orders| && id in pages[k].threadIds && Keeps(threads, id, user, now, cfg) ==>
      CandidateOf(id, threads[id], now) in Gather(orders, threads, user, now, cfg)
  {
    forall k, id | 0 <= k < |orders| && id in pages[k].threadIds && Keeps(threads, id, user, now, cfg) {
      GatherHas(orders, pages, threads, user, now, cfg, k, id);
    }
  }

  lemma {:induction false} GatherHas(orders: seq<seq<string>>, pages: seq<Page>, threads: map<string, seq<Message>>, user: string, now: int, cfg: Config,
                                     k: nat, id: string)
    requires |orders| <= |pages| && EnumeratePages(orders, pages)
    requires k < |orders| && id in pages[k].threadIds && Keeps(threads, id, user, now, cfg)
    ensures CandidateOf(id, threads[id], now) in Gather(orders, threads, user, now, cfg)
    decreases |orders|
  {
    var n := |orders| - 1;
    if k < n {
      GatherHas(orders[..n], pages, threads, user, now, cfg, k, id);
    } else {
      LastPageHas(orders, pages, threads, user, now, cfg, id);
    }
  }

  lemma LastPageHas(orders: seq<seq<string>>, pages: seq<Page>, threads: map<string, seq<Message>>, user: string, now: int, cfg: Config, id: string)
    requires 0 < |orders| <= |pages| && EnumeratePages(orders, pages)
    requires id in pages[|orders| - 1].threadIds && Keeps(threads, id, user, now, cfg)
    ensures CandidateOf(id, threads[id], now) in Select(orders[|orders| - 1], threads, user, now, cfg)
  {
    var n := |orders| - 1;
    EnumeratePagesAt(orders, pages, n);
    EnumeratesMember(orders[n], pages[n].threadIds, id);
    SelectComplete(orders[n], threads, user, now, cfg);
  }

  /** Number of pages among `ps` that list thread `id`. */
  function ListedCount(pages: seq<Page>, n: nat, id: string): nat
    requires n <= |pages|
    decreases n
  {
    if n == 0 then 0 else ListedCount(pages, n - 1, id) + (if id in pages[n - 1].threadIds then 1 else 0)
  }

  function ThreadCount(cs: seq<Candidate>, id: string): nat
    decreases |cs|
  {
    if cs == [] then 0 else ThreadCount(cs[..|cs| - 1], id) + (if cs[|cs| - 1].threadId == id then 1 else 0)
  }

  lemma {:induction false} ThreadCountAppend(a: seq<Candidate>, b: seq<Candidate>, id: string)
    ensures ThreadCount(a + b, id) == ThreadCount(a, id) + ThreadCount(b, id)
    decreases |b|
  {
    if b == [] {
      assert a + b == a;
    } else {
      assert (a + b)[..|a + b| - 1] == a + b[..|b| - 1];
      ThreadCountAppend(a, b[..|b| - 1], id);
    }
  }

  /** The eligibility of thread `id`, false when it cannot be fetched. */
  ghost predicate Keeps(threads: map<string, seq<Message>>, id: string, user: string, now: int, cfg: Config) {
    Fetchable(threads, id) && Eligible(threads[id], user, now, cfg)
  }

  /** Within one page a thread yields a candidate once if it is listed and eligible, else never. */
  lemma {:induction false} SelectCount(order: seq<string>, threads: map<string, seq<Message>>, user: string, now: int, cfg: Config, id: string)
    requires forall i, j :: 0 <= i < j < |order| ==> order[i] != order[j]
    ensures ThreadCount(Select(order, threads, user, now, cfg), id) == if id in order && Keeps(threads, id, user, now, cfg) then 1 else 0
    decreases |order|
  {
    if order != [] {
      var prev := order[..|order| - 1];
      var x := order[|order| - 1];
      SelectCount(prev, threads, user, now, cfg, id);
      assert x !in prev;
      assert id in order <==> id in prev || id == x;
      var before := Select(prev, threads, user, now, cfg);
      if Keeps(threads, x, user, now, cfg) {
        ThreadCountAppend(before, [CandidateOf(x, threads[x], now)], id);
        assert ThreadCount([CandidateOf(x, threads[x], now)], id) == if x == id then 1 else 0 by {
          assert [CandidateOf(x, threads[x], now)][..0] == [];
        }
      } else {
        assert Select(order, threads, user, now, cfg) == before;
      }
    }
  }

  /**
   * Threads are not de-duplicated across pages: an eligible thread listed on
   * `n` processed pages is a candidate `n` times, an ineligible one never.
   */
  lemma GatherCount(orders: seq<seq<string>>, pages: seq<Page>, threads: map<string, seq<Message>>, user: string, now: int, cfg: Config, id: string)
    requires |orders| <= |pages| && EnumeratePages(orders, pages)
    ensures ThreadCount(Gather(orders, threads, user, now, cfg), id) ==
      if Keeps(threads, id, user, now, cfg) then ListedCount(pages, |orders|, id) else 0
  {
    if Keeps(threads, id, user, now, cfg) {
      GatherCountKept(orders, pages, threads, user, now, cfg, id);
    } else {
      GatherCountDropped(orders, pages, threads, user, now, cfg, id);
    }
  }

  lemma {:induction false} GatherCountKept(orders: seq<seq<string>>, pages: seq<Page>, threads: map<string, seq<Message>>, user: string, now: int, cfg: Config, id: string)
    requires |orders| <= |pages| && EnumeratePages(orders, pages) && Keeps(threads, id, user, now, cfg)
    ensures ThreadCount(Gather(orders, threads, user, now, cfg), id) == ListedCount(pages, |orders|, id)
    decreases |orders|
  {
    if orders != [] {
      var n := |orders| - 1;
      var before := Gather(orders[..n], threads, user, now, cfg);
      var last := Select(orders[n], threads, user, now, cfg);
      assert EnumeratePages(orders[..n], pages) && Enumerates(orders[n], pages[n].threadIds);
      GatherCountKept(orders[..n], pages, threads, user, now, cfg, id);
      SelectCount(orders[n], threads, user, now, cfg, id);
      assert Gather(orders, threads, user, now, cfg) == before + last;
      ThreadCountAppend(before, last, id);
      assert id in orders[n] <==> id in pages[n].threadIds;
    }
  }

  lemma {:induction false} GatherCountDropped(orders: seq<seq<string>>, pages: seq<Page>, threads: map<string, seq<Message>>, user: string, now: int, cfg: Config, id: string)
    requires |orders| <= |pages| && EnumeratePages(orders, pages) && !Keeps(threads, id, user, now, cfg)
    ensures ThreadCount(Gather(orders, threads, user, now, cfg), id) == 0
    decreases |orders|
  {
    if orders != [] {
      var n := |orders| - 1;
      var before := Gather(orders[..n], threads, user, now, cfg);
      var last := Select(orders[n], threads, user, now, cfg);
      assert EnumeratePages(orders[..n], pages) && Enumerates(orders[n], pages[n].threadIds);
      GatherCountDropped(orders[..n], pages, threads, user, now, cfg, id);
      SelectCount(orders[n], threads, user, now, cfg, id);
      assert Gather(orders, threads, user, now, cfg) == before + last;
      ThreadCountAppend(before, last, id);
    }
  }




  /**
   * The `while True` loop over `page_token`. `requests` are the `pageToken`
   * arguments of the list calls, one per call; `orders` are the orders in which
   * each processed page's thread ids were visited.
   */
  method CollectCandidates(pages: seq<Page>, threads: map<string, seq<Message>>, user: string, now: int, cfg: Config)
    returns (ok: bool, found: seq<Candidate>, requests: seq<Option<string>>, ghost orders: seq<seq<string>>)
    requires FirstStop(pages) < |pages|
    ensures 1 <= |requests| <= FirstStop(pages) + 1
    ensures requests == Requests(pages, |requests|)
    ensures ok <==> FetchableUpTo(threads, pages, Processed(pages))
    ensures ok ==> |requests| == FirstStop(pages) + 1
    ensures !ok ==> found == [] && !PageFetchable(threads, pages[|requests| - 1])
    ensures !ok ==> FetchableUpTo(threads, pages, |requests| - 1)
    ensures ok ==> && |orders| == Processed(pages)
                   && EnumeratePages(orders, pages)
                   && found == Gather(orders, threads, user, now, cfg)
  {
    found, requests, orders := [], [], [];
    var token: Option<string> := None;
    var k := 0;
    while true
      invariant 0 <= k <= FirstStop(pages)
      invariant |orders| == k && requests == Requests(pages, k)
      invariant token == if k == 0 then None else pages[k - 1].nextPageToken
      invariant FetchableUpTo(threads, pages, k)
      invariant EnumeratePages(orders, pages)
      invariant found == Gather(orders, threads, user, now, cfg)
      decreases FirstStop(pages) - k
    {
      requests := requests + [token];
      if pages[k].threadIds == [] {
        ok := true;
        break;
      }
      var pageOk;
      pageOk, found, orders := TakePage(pages, k, threads, user, now, cfg, found, orders);
      if !pageOk {
        ok, found := false, [];
        break;
      }
      token := pages[k].nextPageToken;
      if token.None? || token.value == "" {
        ok := true;
        break;
      }
      GoesOn(pages, k);
      k := k + 1;
    }
    Concluded(pages, threads, user, now, cfg, k, ok, found, requests, orders);
  }

  /** How the loop ends at response `k`, stated in terms of the first stop and the processed pages. */
  lemma Concluded(pages: seq<Page>, threads: map<string, seq<Message>>, user: string, now: int, cfg: Config,
                  k: nat, ok: bool, found: seq<Candidate>, requests: seq<Option<string>>, orders: seq<seq<string>>)
    requires FirstStop(pages) < |pages| && k <= FirstStop(pages)
    requires requests == Requests(pages, k + 1) && FetchableUpTo(threads, pages, k)
    requires ok ==> && Stops(pages[k])
                    && |orders| == k + (if pages[k].threadIds == [] then 0 else 1)
                    && FetchableUpTo(threads, pages, |orders|)
                    && EnumeratePages(orders, pages)
                    && found == Gather(orders, threads, user, now, cfg)
    requires !ok ==> found == [] && pages[k].threadIds != [] && !PageFetchable(threads, pages[k])
    ensures 1 <= |requests| <= FirstStop(pages) + 1
    ensures requests == Requests(pages, |requests|)
    ensures ok <==> FetchableUpTo(threads, pages, Processed(pages))
    ensures ok ==> |requests| == FirstStop(pages) + 1
    ensures !ok ==> found == [] && !PageFetchable(threads, pages[|requests| - 1])
    ensures !ok ==> FetchableUpTo(threads, pages, |requests| - 1)
    ensures ok ==> && |orders| == Processed(pages)
                   && EnumeratePages(orders, pages)
                   && found == Gather(orders, threads, user, now, cfg)
  {
    if ok {
      StopsAt(pages, k);
    } else {
      FetchableUpToStops(threads, pages, k, Processed(pages));
    }
  }

  /** The threads of the `k`-th response are fetched and judged, and its candidates appended. */
  method TakePage(pages: seq<Page>, k: nat, threads: map<string, seq<Message>>, user: string, now: int, cfg: Config,
                  found: seq<Candidate>, ghost orders: seq<seq<string>>)
    returns (ok: bool, found': seq<Candidate>, ghost orders': seq<seq<string>>)
    requires k == |orders| < |pages| && EnumeratePages(orders, pages) && found == Gather(orders, threads, user, now, cfg)
    ensures ok <==> PageFetchable(threads, pages[k])
    ensures ok ==> && |orders'| == k + 1 && EnumeratePages(orders', pages)
                   && found' == Gather(orders', threads, user, now, cfg)
  {
    var pageFound;
    ghost var pageOrder;
    ok, pageFound, pageOrder := ProcessPage(pages[k], threads, user, now, cfg);
    found', orders' := found, orders;
    if ok {
      GatherStep(orders, pageOrder, pages, threads, user, now, cfg);
      orders' := orders + [pageOrder];
      found' := found + pageFound;
    }
  }

  /** A stopping response no later than the first stop is the first stop, and fixes how many responses are processed. */
  lemma StopsAt(pages: seq<Page>, k: nat)
    requires k <= FirstStop(pages) && k < |pages| && Stops(pages[k])
    ensures FirstStop(pages) == k
    ensures Processed(pages) == k + (if pages[k].threadIds == [] then 0 else 1)
  {
    FirstStopSpec(pages);
  }

  /** A response no later than the first stop that does not end the loop comes before it. */
  lemma GoesOn(pages: seq<Page>, k: nat)
    requires k <= FirstStop(pages) && k < |pages| && !Stops(pages[k])
    ensures k < FirstStop(pages)
  {
    FirstStopSpec(pages);
  }

  /** The first `n` pages can all be fetched. */
  predicate FetchableUpTo(threads: map<string, seq<Message>>, pages: seq<Page>, n: nat)
    requires n <= |pages|
    decreases n
  {
    n == 0 || (FetchableUpTo(threads, pages, n - 1) && PageFetchable(threads, pages[n - 1]))
  }

  lemma {:induction false} FetchableUpToSpec(threads: map<string, seq<Message>>, pages: seq<Page>, n: nat)
    requires n <= |pages|
    ensures FetchableUpTo(threads, pages, n) <==> forall k :: 0 <= k < n ==> PageFetchable(threads, pages[k])
    decreases n
  {
    if n > 0 {
      FetchableUpToSpec(threads, pages, n - 1);
    }
  }

  /** One page that cannot be fetched spoils every longer prefix. */
  lemma {:induction false} FetchableUpToStops(threads: map<string, seq<Message>>, pages: seq<Page>, k: nat, n: nat)
    requires k < n <= |pages| && !PageFetchable(threads, pages[k])
    ensures !FetchableUpTo(threads, pages, n)
    decreases n
  {
    if n - 1 > k {
      FetchableUpToStops(threads, pages, k, n - 1);
    }
  }

  /** The `pageToken` of each of the first `n` list calls: none first, then the previous response's `nextPageToken`. */
  function Requests(pages: seq<Page>, n: nat): (r: seq<Option<string>>)
    requires n <= |pages| + 1
    ensures |r| == n
  {
    if n == 0 then [] else Requests(pages, n - 1) + [if n == 1 then None else pages[n - 2].nextPageToken]
  }

  /** The first call carries no token; every later one carries the previous response's `nextPageToken`. */
  lemma {:induction false} RequestsAt(pages: seq<Page>, n: nat)
    requires n <= |pages| + 1
    ensures forall k :: 0 <= k < n ==> Requests(pages, n)[k] == if k == 0 then None else pages[k - 1].nextPageToken
  {
    if n > 0 {
      RequestsAt(pages, n - 1);
    }
  }

  lemma GatherStep(orders: seq<seq<string>>, order: seq<string>, pages: seq<Page>,
                   threads: map<string, seq<Message>>, user: string, now: int, cfg: Config)
    requires |orders| < |pages| && EnumeratePages(orders, pages) && Enumerates(order, pages[|orders|].threadIds)
    ensures EnumeratePages(orders + [order], pages)
    ensures Gather(orders + [order], threads, user, now, cfg) == Gather(orders, threads, user, now, cfg) + Select(order, threads, user, now, cfg)
  {
    assert (orders + [order])[..|orders|] == orders;
  }

  /** Blanks ahead of a subject that does not start with one are skipped. */
  lemma {:induction false} TrimLeftBlanks(pad: string, core: string)
    requires forall k :: 0 <= k < |pad| ==> IsSpace(pad[k])
    requires core == [] || !IsSpace(core[0])
    ensures TrimLeft(pad + core) == core
    decreases |pad|
  {
    if pad == [] {
      assert pad + core == core;
    } else {
      assert (pad + core)[1..] == pad[1..] + core;
      TrimLeftBlanks(pad[1..], core);
    }
  }

  /** Leading blanks and letter case do not hide a campaign subject. */
  lemma CampaignSubjectPadded(pad: string, core: string)
    requires forall k :: 0 <= k < |pad| ==> IsSpace(pad[k])
    requires |core| >= 11 && !IsSpace(core[0]) && !IsSpace(core[|core| - 1])
    requires forall k :: 0 <= k < 11 ==> LowerChar(core[k]) == "interest in"[k]
    ensures IsCampaignSubject(pad + core)
  {
    TrimLeftBlanks(pad, core);
    assert Strip(pad + core) == core;
    assert Lower(core)[..11] == "interest in";
  }

  /** A newsletter subject is not a campaign subject. */
  lemma NewsletterNotCampaign(b: string)
    requires b == "Quarterly Newsletter"
    ensures !IsCampaignSubject(b)
  {
    assert TrimLeft(b) == b;
    assert TrimRight(b) == b by { assert b[|b| - 1] == 'r'; }
    assert Lower(b)[0] == 'q';
  }

  /** Tokens `token1`, `token2` and then none: three list calls, three pages processed. */
  lemma ThreePageExample(pages: seq<Page>)
    requires |pages| == 3
    requires pages[0].nextPageToken == Some("token1") && pages[1].nextPageToken == Some("token2")
    requires pages[2].nextPageToken == None
    requires forall k :: 0 <= k < 3 ==> pages[k].threadIds != []
    ensures FirstStop(pages) == 2 && Processed(pages) == 3
  {
    assert !Stops(pages[0]) && !Stops(pages[1]) && Stops(pages[2]);
    FirstStopSpec(pages);
  }
}
