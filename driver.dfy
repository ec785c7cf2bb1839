// `run_followup_and_report` (app/followup_service.py) and the report written at
// the end of `get_threads_to_follow_up` (app/email_service.py): candidates are
// collected and reported, then each is sent (or recorded as a dry run), and the
// outcomes are reported again.

module Driver {
  import opened Wrappers
  import opened Text
  import opened Messages
  import opened Settings
  import opened Pagination
  import opened Report
  import opened Compose

  /** The record of a candidate handed to the report by `get_threads_to_follow_up`: no `status` key. */
  function CandidateItem(c: Candidate): ReportItem {
    ReportItem(Some(c.to), Some(c.subject), Some(c.date), Some(c.followupCount), None)
  }

  function CandidateItems(found: seq<Candidate>): (items: seq<ReportItem>)
    ensures |items| == |found| && AllDated(items)
    ensures forall i :: 0 <= i < |found| ==> items[i] == CandidateItem(found[i])
  {
    seq(|found|, i requires 0 <= i < |found| => CandidateItem(found[i]))
  }

  /**
   * `get_threads_to_follow_up`: the pagination loop, then the report of the candidates
   * under the date `today`. A fetch that raises ends the run before any report.
   */
  method GetThreadsToFollowUp(store: ReportFiles, pages: seq<Page>, threads: map<string, seq<Message>>,
                              user: string, now: int, cfg: Config, today: string)
    returns (ok: bool, found: seq<Candidate>, ghost orders: seq<seq<string>>)
    requires FirstStop(pages) < |pages|
    modifies store
    ensures ok <==> FetchableUpTo(threads, pages, Processed(pages))
    ensures !ok ==> store.files == old(store.files)
    ensures ok ==> && |orders| == Processed(pages)
                   && EnumeratePages(orders, pages)
                   && found == Gather(orders, threads, user, now, cfg)
                   && store.files == Appended(old(store.files), ReportPath(today), CandidateItems(found), cfg.templates)
  {
    var requests;
    ok, found, requests, orders := CollectCandidates(pages, threads, user, now, cfg);
    if !ok {
      return;
    }
    var reported := store.GenerateFollowupReport(CandidateItems(found), today, cfg.templates);
  }

  /** The record `run_followup_and_report` keeps for each candidate. */
  datatype Outcome = Outcome(to: string, subject: string, threadId: string, date: string, followupCount: nat, status: string)

  /** The reply `send_followup_email` composes for a candidate whose thread can be fetched. */
  function ReplyFor(c: Candidate, threads: map<string, seq<Message>>, templates: Templates, sender: string): Outgoing
    requires c.threadId in threads
  {
    ComposeReply(c.to, c.subject, c.threadId, threads[c.threadId], templates, sender)
  }

  /** `send_followup_email` returns True: the thread is fetched and the transport accepts the reply. */
  predicate Delivered(c: Candidate, threads: map<string, seq<Message>>, templates: Templates, sender: string,
                      transport: Outgoing -> bool)
  {
    c.threadId in threads && transport(ReplyFor(c, threads, templates, sender))
  }

  /** `dry_run` when sending is disabled, otherwise `sent` or `failed`. */
  function StatusOf(disabled: bool, delivered: bool): (s: string)
    ensures s in ["dry_run", "sent", "failed"]
    ensures s == "sent" <==> !disabled && delivered
    ensures s == "dry_run" <==> disabled
  {
    if disabled then "dry_run" else if delivered then "sent" else "failed"
  }

  /** The outcomes of a run over `found`, one per candidate, in order. */
  function Outcomes(found: seq<Candidate>, disabled: bool, threads: map<string, seq<Message>>, templates: Templates,
                    sender: string, transport: Outgoing -> bool): seq<Outcome>
    decreases |found|
  {
    if found == [] then []
    else
      var c := found[|found| - 1];
      Outcomes(found[..|found| - 1], disabled, threads, templates, sender, transport)
        + [Outcome(c.to, c.subject, c.threadId, c.date, c.followupCount,
                   StatusOf(disabled, Delivered(c, threads, templates, sender, transport)))]
  }

  /** The replies handed to the transport, in order: one per candidate whose thread can be fetched. */
  function Replies(found: seq<Candidate>, threads: map<string, seq<Message>>, templates: Templates, sender: string): seq<Outgoing>
    decreases |found|
  {
    if found == [] then []
    else
      var c := found[|found| - 1];
      Replies(found[..|found| - 1], threads, templates, sender)
        + (if c.threadId in threads then [ReplyFor(c, threads, templates, sender)] else [])
  }

  /**
   * The `for thread in threads` loop of `run_followup_and_report`: a dry run sends
   * nothing; otherwise each candidate is sent and its outcome recorded.
   */
  method Dispatch(found: seq<Candidate>, disabled: bool, senderEnv: Option<string>, email: string,
                  threads: map<string, seq<Message>>, templates: Templates, transport: Outgoing -> bool)
    returns (results: seq<Outcome>, outbox: seq<Outgoing>)
    ensures results == Outcomes(found, disabled, threads, templates, SenderName(senderEnv, email), transport)
    ensures outbox == if disabled then [] else Replies(found, threads, templates, SenderName(senderEnv, email))
  {
    ghost var sender := SenderName(senderEnv, email);
    results, outbox := [], [];
    for i := 0 to |found|
      invariant results == Outcomes(found[..i], disabled, threads, templates, sender, transport)
      invariant outbox == if disabled then [] else Replies(found[..i], threads, templates, sender)
    {
      var c := found[i];
      assert found[..i + 1][..i] == found[..i] && found[..i + 1][i] == c;
      var outcome, sent := DispatchOne(c, disabled, senderEnv, email, threads, templates, transport);
      outbox := outbox + sent;
      results := results + [outcome];
    }
    assert found[..|found|] == found;
  }

  /** One pass of the loop: the candidate's result record, and the replies handed to the transport for it. */
  method DispatchOne(c: Candidate, disabled: bool, senderEnv: Option<string>, email: string,
                     threads: map<string, seq<Message>>, templates: Templates, transport: Outgoing -> bool)
    returns (outcome: Outcome, sent: seq<Outgoing>)
    ensures outcome == Outcome(c.to, c.subject, c.threadId, c.date, c.followupCount,
                               StatusOf(disabled, Delivered(c, threads, templates, SenderName(senderEnv, email), transport)))
    ensures sent == if disabled || c.threadId !in threads then [] else [ReplyFor(c, threads, templates, SenderName(senderEnv, email))]
  {
    var status;
    sent := [];
    if disabled {
      status := "dry_run";
    } else {
      var success, reply := SendFollowupEmail(senderEnv, email, threads, c.to, c.subject, c.threadId, templates, transport);
      if reply.Some? {
        sent := [reply.value];
      }
      status := if success then "sent" else "failed";
    }
    outcome := Outcome(c.to, c.subject, c.threadId, c.date, c.followupCount, status);
  }

  /** One outcome per candidate, carrying the candidate's fields. */
  lemma {:induction false} OutcomesShape(found: seq<Candidate>, disabled: bool, threads: map<string, seq<Message>>,
                                         templates: Templates, sender: string, transport: Outgoing -> bool)
    ensures |Outcomes(found, disabled, threads, templates, sender, transport)| == |found|
    ensures forall i :: 0 <= i < |found| ==>
      var o := Outcomes(found, disabled, threads, templates, sender, transport)[i];
      && o.to == found[i].to && o.subject == found[i].subject && o.threadId == found[i].threadId
      && o.date == found[i].date && o.followupCount == found[i].followupCount
      && o.status == StatusOf(disabled, Delivered(found[i], threads, templates, sender, transport))
    decreases |found|
  {
    if found != [] {
      var prev := found[..|found| - 1];
      OutcomesShape(prev, disabled, threads, templates, sender, transport);
      assert forall i :: 0 <= i < |prev| ==> prev[i] == found[i];
    }
  }

  /** Number of outcomes with status `sent`. */
  function SentCount(results: seq<Outcome>): nat
    decreases |results|
  {
    if results == [] then 0
    else SentCount(results[..|results| - 1]) + (if results[|results| - 1].status == "sent" then 1 else 0)
  }

  /** Number of replies the transport accepts. */
  function AcceptedCount(replies: seq<Outgoing>, transport: Outgoing -> bool): nat
    decreases |replies|
  {
    if replies == [] then 0
    else AcceptedCount(replies[..|replies| - 1], transport) + (if transport(replies[|replies| - 1]) then 1 else 0)
  }

  lemma AcceptedCountSnoc(replies: seq<Outgoing>, extra: seq<Outgoing>, transport: Outgoing -> bool)
    requires |extra| <= 1
    ensures AcceptedCount(replies + extra, transport)
         == AcceptedCount(replies, transport) + (if extra != [] && transport(extra[0]) then 1 else 0)
  {
    if extra != [] {
      assert (replies + extra)[..|replies + extra| - 1] == replies;
    } else {
      assert replies + extra == replies;
    }
  }

  /** A run that sends reports exactly as many `sent` outcomes as replies the transport accepted; a dry run none. */
  lemma {:induction false} SentMatchesAccepted(found: seq<Candidate>, disabled: bool, threads: map<string, seq<Message>>,
                                               templates: Templates, sender: string, transport: Outgoing -> bool)
    ensures SentCount(Outcomes(found, disabled, threads, templates, sender, transport))
         == if disabled then 0 else AcceptedCount(Replies(found, threads, templates, sender), transport)
    decreases |found|
  {
    if found != [] {
      var prev := found[..|found| - 1];
      var c := found[|found| - 1];
      SentMatchesAccepted(prev, disabled, threads, templates, sender, transport);
      var rs := Outcomes(found, disabled, threads, templates, sender, transport);
      assert rs[..|rs| - 1] == Outcomes(prev, disabled, threads, templates, sender, transport);
      AcceptedCountSnoc(Replies(prev, threads, templates, sender),
                        if c.threadId in threads then [ReplyFor(c, threads, templates, sender)] else [], transport);
    }
  }

  /** The record of an outcome handed to the second report. */
  function OutcomeItem(o: Outcome): ReportItem {
    ReportItem(Some(o.to), Some(o.subject), Some(o.date), Some(o.followupCount), Some(o.status))
  }

  function OutcomeItems(results: seq<Outcome>): (items: seq<ReportItem>)
    ensures |items| == |results| && AllDated(items)
    ensures forall i :: 0 <= i < |results| ==> items[i] == OutcomeItem(results[i])
  {
    seq(|results|, i requires 0 <= i < |results| => OutcomeItem(results[i]))
  }

  /**
   * `run_followup_and_report`: app/config.py is imported (with the flag read as the service
   * reads it), the flag and the sender name are read from `env`, candidates are collected and
   * reported under `today1`, each is dispatched, and the outcomes are reported under `today2`.
   * The user's address serves both the sender check and the sender name.
   */
  method RunFollowupAndReport(store: ReportFiles, env: Env,
                              pages: seq<Page>, threads: map<string, seq<Message>>, user: string, now: int,
                              transport: Outgoing -> bool, today1: string, today2: string)
    returns (ok: bool, found: seq<Candidate>, results: seq<Outcome>, outbox: seq<Outgoing>, ghost orders: seq<seq<string>>)
    requires FirstStop(pages) < |pages|
    modifies store
    ensures ok <==> LoadConfig(env).Some? && FetchableUpTo(threads, pages, Processed(pages))
    ensures !ok ==> store.files == old(store.files) && results == [] && outbox == []
    ensures ok ==> var cfg := LoadConfig(env).value;
                   var disabled := DisableSend(Getenv(env, "DISABLE_SEND_FOLLOWUP"));
                   var sender := SenderName(Getenv(env, "SENDER_NAME"), user);
                   && |orders| == Processed(pages)
                   && EnumeratePages(orders, pages)
                   && found == Gather(orders, threads, user, now, cfg)
                   && results == Outcomes(found, disabled, threads, cfg.templates, sender, transport)
                   && outbox == (if disabled then [] else Replies(found, threads, cfg.templates, sender))
                   && store.files == Appended(Appended(old(store.files), ReportPath(today1), CandidateItems(found), cfg.templates),
                                              ReportPath(today2), OutcomeItems(results), cfg.templates)
  {
    results, outbox, found, orders := [], [], [], [];
    var loaded := LoadConfig(env);
    if loaded.None? {
      return false, found, results, outbox, orders;
    }
    var cfg := loaded.value;
    var disabled := DisableSend(Getenv(env, "DISABLE_SEND_FOLLOWUP"));
    ok, found, orders := GetThreadsToFollowUp(store, pages, threads, user, now, cfg, today1);
    if !ok {
      return;
    }
    results, outbox := Dispatch(found, disabled, Getenv(env, "SENDER_NAME"), user, threads, cfg.templates, transport);
    var reported := store.GenerateFollowupReport(OutcomeItems(results), today2, cfg.templates);
  }

  /** The report's `min` clamp and the composition's modulo pick the same template only below 3 or at 2 modulo 3. */
  lemma ClampAgreesWithModulo(n: nat)
    ensures TemplateIndex(n) == ComposeIndex(n) <==> n < 3 || n % 3 == 2
  {
  }

  lemma JudgedCount(c: Candidate, threads: map<string, seq<Message>>, user: string, now: int, cfg: Config)
    requires Judged(c, threads, user, now, cfg)
    ensures c.followupCount < cfg.maxFollowUps
  {
  }

  /** In the first report every row has an empty status and a number no larger than the follow-up limit. */
  lemma CandidateRows(orders: seq<seq<string>>, threads: map<string, seq<Message>>, user: string, now: int, cfg: Config)
    ensures forall r :: r in ReportRows(CandidateItems(Gather(orders, threads, user, now, cfg)), cfg.templates) ==>
      r.Row? && r.status == "" && 1 <= r.number <= cfg.maxFollowUps
  {
    var found := Gather(orders, threads, user, now, cfg);
    var items := CandidateItems(found);
    CandidateCounts(orders, threads, user, now, cfg);
    ReportRowsFrom(items, cfg.templates);
    forall r | r in ReportRows(items, cfg.templates)
      ensures r.Row? && r.status == "" && 1 <= r.number <= cfg.maxFollowUps
    {
      var i :| 0 <= i < |items| && r == RowOf(items[i], Day(items[i]), cfg.templates);
      assert items[i] == CandidateItem(found[i]);
    }
  }

  /** Every candidate has fewer follow-ups than the limit. */
  lemma CandidateCounts(orders: seq<seq<string>>, threads: map<string, seq<Message>>, user: string, now: int, cfg: Config)
    ensures forall i :: 0 <= i < |Gather(orders, threads, user, now, cfg)| ==>
      Gather(orders, threads, user, now, cfg)[i].followupCount < cfg.maxFollowUps
  {
    var found := Gather(orders, threads, user, now, cfg);
    GatherJudged(orders, threads, user, now, cfg);
    forall i | 0 <= i < |found|
      ensures found[i].followupCount < cfg.maxFollowUps
    {
      assert found[i] in found;
      JudgedCount(found[i], threads, user, now, cfg);
    }
  }

  /** In the second report every status reads `fail` or `success`; after a dry run, every one reads `fail`. */
  lemma OutcomeRows(found: seq<Candidate>, disabled: bool, threads: map<string, seq<Message>>, templates: Templates,
                    sender: string, transport: Outgoing -> bool)
    ensures forall r :: r in ReportRows(OutcomeItems(Outcomes(found, disabled, threads, templates, sender, transport)), templates) ==>
      r.Row? && (r.status == "fail" || r.status == "success") && (disabled ==> r.status == "fail")
  {
    var results := Outcomes(found, disabled, threads, templates, sender, transport);
    var items := OutcomeItems(results);
    OutcomesShape(found, disabled, threads, templates, sender, transport);
    ReportRowsFrom(items, templates);
    forall r | r in ReportRows(items, templates)
      ensures r.Row? && (r.status == "fail" || r.status == "success") && (disabled ==> r.status == "fail")
    {
      var i :| 0 <= i < |items| && r == RowOf(items[i], Day(items[i]), templates);
      assert items[i].status == Some(results[i].status);
    }
  }

  /** Two reports on the same date share one file: one header at most, then the rows of both. */
  lemma SameDayReports(files: map<string, seq<Line>>, today: string, first: seq<ReportItem>, second: seq<ReportItem>,
                       templates: Templates)
    requires AllDated(first) && AllDated(second)
    ensures var path := ReportPath(today);
      var after := Appended(Appended(files, path, first, templates), path, second, templates);
      && after[path] == Existing(files, path) + (if path in files then [] else [Line.Header])
                        + ReportRows(first, templates) + ReportRows(second, templates)
      && |after[path]| == |Existing(files, path)| + (if path in files then 0 else 1) + |first| + |second|
  {
    ReportRowsCount(first, templates);
    ReportRowsCount(second, templates);
  }
}
