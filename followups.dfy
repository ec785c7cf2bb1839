// The follow-up counter of app/email_service.py (`count_followups`): a subject
// heuristic, counted by a loop over the thread's messages.

module Followups {
  import opened Wrappers
  import opened Text
  import opened Messages

  /** A subject marks a follow-up when, lower-cased but not trimmed, it starts with `re:` or mentions `follow up`. */
  predicate IsFollowupSubject(subject: string) {
    var s := Lower(subject);
    StartsWith(s, "re:") || Contains(s, "follow up")
  }

  predicate IsFollowup(m: Message) {
    IsFollowupSubject(GetHeader(m, "subject"))
  }

  /** Number of messages of `msgs` that the heuristic classifies as follow-ups. */
  function FollowupCount(msgs: seq<Message>): nat
    decreases |msgs|
  {
    if msgs == [] then 0
    else FollowupCount(msgs[..|msgs| - 1]) + (if IsFollowup(msgs[|msgs| - 1]) then 1 else 0)
  }

  /** `count_followups`: the loop over the messages, incrementing `count`. */
  method CountFollowups(msgs: seq<Message>) returns (count: nat)
    ensures count == FollowupCount(msgs)
  {
    count := 0;
    var i := 0;
    while i < |msgs|
      invariant 0 <= i <= |msgs|
      invariant count == FollowupCount(msgs[..i])
    {
      var subject := Lower(GetHeader(msgs[i], "subject"));
      FollowupCountStep(msgs, i);
      assert IsFollowup(msgs[i]) <==> StartsWith(subject, "re:") || Contains(subject, "follow up");
      if StartsWith(subject, "re:") || Contains(subject, "follow up") {
        count := count + 1;
      }
      i := i + 1;
    }
    assert msgs[..i] == msgs;
  }

  lemma FollowupCountStep(msgs: seq<Message>, i: nat)
    requires i < |msgs|
    ensures FollowupCount(msgs[..i + 1]) == FollowupCount(msgs[..i]) + (if IsFollowup(msgs[i]) then 1 else 0)
  {
    assert msgs[..i + 1][..i] == msgs[..i];
  }

  /** The count is between zero and the number of messages, and is zero for an empty thread. */
  lemma {:induction false} FollowupCountBounds(msgs: seq<Message>)
    ensures FollowupCount(msgs) <= |msgs|
    ensures msgs == [] ==> FollowupCount(msgs) == 0
    decreases |msgs|
  {
    if msgs != [] { FollowupCountBounds(msgs[..|msgs| - 1]); }
  }

  /** Counting is additive over a thread split in two. */
  lemma {:induction false} FollowupCountAppend(a: seq<Message>, b: seq<Message>)
    ensures FollowupCount(a + b) == FollowupCount(a) + FollowupCount(b)
    decreases |b|
  {
    if b != [] {
      assert (a + b)[..|a + b| - 1] == a + b[..|b| - 1];
      assert (a + b)[|a + b| - 1] == b[|b| - 1];
      FollowupCountAppend(a, b[..|b| - 1]);
    } else {
      assert a + b == a;
    }
  }

  /** A message carrying only a `Subject` header. */
  function WithSubject(subject: string): Message {
    Message("", Some(Payload(Some([Header(Some("Subject"), Some(subject))]), [], None)), 0, "")
  }

  lemma WithSubjectHeader(subject: string)
    ensures GetHeader(WithSubject(subject), "subject") == subject
  {
    assert Lower("Subject") == "subject";
    assert FirstMatchAt(Headers(WithSubject(subject)), "subject", 0);
  }

  /** A subject whose first three characters lower-case to `re:` is a follow-up. */
  lemma ReSubject(s: string)
    requires |s| >= 3 && LowerChar(s[0]) == 'r' && LowerChar(s[1]) == 'e' && s[2] == ':'
    ensures IsFollowupSubject(s)
  {
    assert Lower(s)[..3] == "re:";
  }

  /** A subject mentioning `follow up` (in any case) at index `i` is a follow-up. */
  lemma FollowUpSubject(s: string, i: nat)
    requires i + 9 <= |s|
    requires forall k :: 0 <= k < 9 ==> LowerChar(s[i + k]) == "follow up"[k]
    ensures IsFollowupSubject(s)
  {
    assert Lower(s)[i..i + 9] == "follow up";
    ContainsAt(Lower(s), "follow up", i);
  }

  /** A subject with neither an `r` first nor any `f` is not a follow-up. */
  lemma PlainSubject(s: string)
    requires |s| > 0 && LowerChar(s[0]) != 'r'
    requires forall i :: 0 <= i < |s| ==> LowerChar(s[i]) != 'f'
    ensures !IsFollowupSubject(s)
  {
    assert Lower(s)[0] != 'r';
    NotContainsWithoutFirst(Lower(s), "follow up");
  }

  /** Four follow-ups out of five messages, whatever the messages are. */
  lemma CountFourOfFive(m0: Message, m1: Message, m2: Message, m3: Message, m4: Message)
    requires !IsFollowup(m0) && IsFollowup(m1) && IsFollowup(m2) && IsFollowup(m3) && IsFollowup(m4)
    ensures FollowupCount([m0, m1, m2, m3, m4]) == 4
  {
    assert [m0][..0] == [];
    assert FollowupCount([m0]) == 0;
    assert [m0, m1][..1] == [m0];
    assert FollowupCount([m0, m1]) == 1;
    assert [m0, m1, m2][..2] == [m0, m1];
    assert FollowupCount([m0, m1, m2]) == 2;
    assert [m0, m1, m2, m3][..3] == [m0, m1, m2];
    assert FollowupCount([m0, m1, m2, m3]) == 3;
    assert [m0, m1, m2, m3, m4][..4] == [m0, m1, m2, m3];
  }

  lemma FirstExampleSubject(s: string)
    requires s == "Interest in Product"
    ensures !IsFollowup(WithSubject(s))
  {
    WithSubjectHeader(s);
    PlainSubject(s);
  }

  lemma ReExampleSubject(s: string)
    requires s == "Re: Interest in Product" || s == "Re: Follow up on Product"
    ensures IsFollowup(WithSubject(s))
  {
    WithSubjectHeader(s);
    ReSubject(s);
  }

  lemma FollowUpExampleSubject(s: string, i: nat)
    requires (s == "Follow up on Product" && i == 0) || (s == "Quick follow up" && i == 6)
    ensures IsFollowup(WithSubject(s))
  {
    WithSubjectHeader(s);
    FollowUpSubject(s, i);
  }

  /** The five-subject thread of the project's tests counts four follow-ups. */
  lemma FiveSubjectExample(s0: string, s1: string, s2: string, s3: string, s4: string)
    requires s0 == "Interest in Product" && s1 == "Re: Interest in Product"
    requires s2 == "Follow up on Product" && s3 == "Re: Follow up on Product"
    requires s4 == "Quick follow up"
    ensures FollowupCount([WithSubject(s0), WithSubject(s1), WithSubject(s2), WithSubject(s3), WithSubject(s4)]) == 4
  {
    FirstExampleSubject(s0);
    ReExampleSubject(s1);
    FollowUpExampleSubject(s2, 0);
    ReExampleSubject(s3);
    FollowUpExampleSubject(s4, 6);
    CountFourOfFive(WithSubject(s0), WithSubject(s1), WithSubject(s2), WithSubject(s3), WithSubject(s4));
  }

  /** The subject is not trimmed: a blank before `Re:` hides the prefix. */
  lemma SubjectNotTrimmed(rest: string)
    requires forall i :: 0 <= i < |rest| ==> LowerChar(rest[i]) != 'f'
    ensures IsFollowupSubject("Re:" + rest)
    ensures !IsFollowupSubject(" Re:" + rest)
  {
    ReSubject("Re:" + rest);
    var t := " Re:" + rest;
    assert forall i :: 4 <= i < |t| ==> t[i] == rest[i - 4];
    PlainSubject(t);
  }
}
