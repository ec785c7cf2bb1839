// The composition part of `send_followup_email` (app/email_service.py): the
// sender name, the salutation found in the first message's body, the template
// chosen by the follow-up snippets, and the outgoing reply. The transport is a
// parameter.

module Compose {
  import opened Wrappers
  import opened Text
  import opened Messages
  import opened Settings

  /** `str.title` from a position whose previous character is cased iff `prevCased`. */
  function TitleFrom(s: string, prevCased: bool): (r: string)
    ensures |r| == |s|
    decreases |s|
  {
    if s == [] then []
    else
      var c := s[0];
      [if !IsLetter(c) then c else if prevCased then LowerChar(c) else UpperChar(c)]
        + TitleFrom(s[1..], IsLetter(c))
  }

  /** `s.title()`: each run of letters capitalised, the rest of the run lower-cased. */
  function Title(s: string): (r: string)
    ensures |r| == |s|
  {
    TitleFrom(s, false)
  }

  /** Every character is kept when it is not a letter, and letters stay letters. */
  lemma {:induction false} TitleFromShape(s: string, p: bool)
    ensures forall i :: 0 <= i < |s| ==> (IsLetter(TitleFrom(s, p)[i]) <==> IsLetter(s[i]))
    ensures forall i :: 0 <= i < |s| && !IsLetter(s[i]) ==> TitleFrom(s, p)[i] == s[i]
    decreases |s|
  {
    if s != [] {
      TitleFromShape(s[1..], IsLetter(s[0]));
      var r := TitleFrom(s, p);
      assert forall i :: 1 <= i < |s| ==> r[i] == TitleFrom(s[1..], IsLetter(s[0]))[i - 1] && s[i] == s[1..][i - 1];
    }
  }

  /** A letter is lower-cased after a letter and upper-cased otherwise, the flag standing for the character before the start. */
  lemma {:induction false} TitleFromCase(s: string, p: bool)
    ensures forall i :: 0 <= i < |s| && IsLetter(s[i]) ==>
      TitleFrom(s, p)[i] == (if (if i == 0 then p else IsLetter(s[i - 1])) then LowerChar(s[i]) else UpperChar(s[i]))
    decreases |s|
  {
    if s != [] {
      var t := s[1..];
      TitleFromCase(t, IsLetter(s[0]));
      var r := TitleFrom(s, p);
      assert forall i :: 1 <= i < |s| ==> r[i] == TitleFrom(t, IsLetter(s[0]))[i - 1] && s[i] == t[i - 1];
    }
  }

  /** `s.title()` capitalises the first letter of each run of letters and lower-cases the others. */
  lemma TitleCase(s: string)
    ensures forall i :: 0 <= i < |s| && IsLetter(s[i]) ==>
      Title(s)[i] == (if i > 0 && IsLetter(s[i - 1]) then LowerChar(s[i]) else UpperChar(s[i]))
    ensures forall i :: 0 <= i < |s| && !IsLetter(s[i]) ==> Title(s)[i] == s[i]
  {
    TitleFromCase(s, false);
    TitleFromShape(s, false);
    var r := Title(s);
    assert r == TitleFrom(s, false);
    forall i | 0 <= i < |s| && IsLetter(s[i])
      ensures r[i] == (if i > 0 && IsLetter(s[i - 1]) then LowerChar(s[i]) else UpperChar(s[i]))
    {
      if i == 0 {
        assert r[0] == UpperChar(s[0]);
      } else {
        assert r[i] == (if IsLetter(s[i - 1]) then LowerChar(s[i]) else UpperChar(s[i]));
      }
    }
  }

  /** `'john doe'.title()` is `'John Doe'`. */
  lemma TitleJohnDoe(s: string)
    requires s == "john doe"
    ensures Title(s) == "John Doe"
  {
    TitleCase(s);
    var r := Title(s);
    assert r[0] == 'J' && r[1] == 'o' && r[2] == 'h' && r[3] == 'n' && r[4] == ' ';
    assert r[5] == 'D' && r[6] == 'o' && r[7] == 'e';
  }

  /** Title-casing text already title-cased changes nothing. */
  lemma {:induction false} TitleFromIdempotent(s: string, p: bool)
    ensures TitleFrom(TitleFrom(s, p), p) == TitleFrom(s, p)
    decreases |s|
  {
    if s != [] {
      var c := s[0];
      var t := TitleFrom(s, p);
      assert t[1..] == TitleFrom(s[1..], IsLetter(c));
      assert IsLetter(t[0]) == IsLetter(c);
      TitleFromIdempotent(s[1..], IsLetter(c));
    }
  }

  lemma TitleIdempotent(s: string)
    ensures Title(Title(s)) == Title(s)
  {
    TitleFromIdempotent(s, false);
  }

  /** A separator that is not a letter restarts the capitalisation. */
  lemma {:induction false} TitleFromAppend(a: string, c: char, b: string, p: bool)
    requires !IsLetter(c)
    ensures TitleFrom(a + [c] + b, p) == TitleFrom(a, p) + [c] + TitleFrom(b, false)
    decreases |a|
  {
    if a == [] {
      assert a + [c] + b == [c] + b;
      assert ([c] + b)[1..] == b;
    } else {
      assert (a + [c] + b)[1..] == a[1..] + [c] + b;
      TitleFromAppend(a[1..], c, b, IsLetter(a[0]));
    }
  }

  /** `s` with every `from` replaced by `to`. */
  function Replace(s: string, from: char, to: char): (r: string)
    ensures |r| == |s|
    ensures forall i :: 0 <= i < |s| ==> r[i] == if s[i] == from then to else s[i]
  {
    seq(|s|, i requires 0 <= i < |s| => if s[i] == from then to else s[i])
  }

  /** `' '.join(part.title() for part in parts)`. */
  function JoinTitled(parts: seq<string>): string {
    if parts == [] then []
    else if |parts| == 1 then Title(parts[0])
    else Title(parts[0]) + " " + JoinTitled(parts[1..])
  }

  /**
   * The sender name: `SENDER_NAME` when set and non-empty, otherwise the local part
   * of the user's address split at dots, each part title-cased, joined by spaces.
   */
  function SenderName(senderEnv: Option<string>, email: string): string {
    if senderEnv.Some? && senderEnv.value != "" then senderEnv.value
    else JoinTitled(Split(Before(email, '@'), '.'))
  }

  /** Splitting at dots, title-casing and joining with spaces is title-casing with dots made spaces. */
  lemma {:induction false} JoinTitledSplit(s: string)
    ensures JoinTitled(Split(s, '.')) == Title(Replace(s, '.', ' '))
    decreases |s|
  {
    var k := IndexOf(s, '.');
    if k < |s| {
      var head := s[..k];
      var rest := s[k + 1..];
      var parts := Split(rest, '.');
      var all := [head] + parts;
      assert Split(s, '.') == all;
      assert JoinTitled(all) == Title(head) + " " + JoinTitled(parts) by {
        assert |parts| > 0 && all[0] == head && all[1..] == parts;
      }
      JoinTitledSplit(rest);
      assert Replace(s, '.', ' ') == head + [' '] + Replace(rest, '.', ' ') by {
        assert forall i :: 0 <= i < |head| ==> head[i] != '.';
      }
      TitleFromAppend(head, ' ', Replace(rest, '.', ' '), false);
    } else {
      assert Replace(s, '.', ' ') == s by {
        assert forall i :: 0 <= i < |s| ==> s[i] != '.';
      }
    }
  }

  /** Without `SENDER_NAME`, the sender name is the title-cased local part with dots made spaces. */
  lemma SenderNameFromEmail(senderEnv: Option<string>, email: string)
    requires senderEnv.None? || senderEnv.value == ""
    ensures SenderName(senderEnv, email) == Title(Replace(Before(email, '@'), '.', ' '))
    ensures '.' !in SenderName(senderEnv, email) && '@' !in SenderName(senderEnv, email)
  {
    var local := Before(email, '@');
    JoinTitledSplit(local);
    var spaced := Replace(local, '.', ' ');
    TitleFromShape(spaced, false);
    assert forall i :: 0 <= i < |spaced| ==> spaced[i] != '.' && spaced[i] != '@';
    assert forall i :: 0 <= i < |spaced| ==> Title(spaced)[i] != '.' && Title(spaced)[i] != '@';
  }

  /** The first `text/plain` part that carries data. */
  function FirstPlainData(parts: seq<Part>): (r: Option<string>)
    ensures r.Some? ==> exists i :: 0 <= i < |parts| && parts[i].mimeType == Some("text/plain") && parts[i].data == r
    decreases |parts|
  {
    if parts == [] then None
    else if parts[0].mimeType == Some("text/plain") && parts[0].data.Some? then parts[0].data
    else FirstPlainData(parts[1..])
  }

  predicate PlainWithData(p: Part) {
    p.mimeType == Some("text/plain") && p.data.Some?
  }

  /** The search returns the data of the first `text/plain` part with data, and `None` only when there is none. */
  lemma {:induction false} FirstPlainDataSpec(parts: seq<Part>)
    ensures FirstPlainData(parts).Some? ==>
      exists i :: 0 <= i < |parts| && PlainWithData(parts[i]) && parts[i].data == FirstPlainData(parts)
        && forall j :: 0 <= j < i ==> !PlainWithData(parts[j])
    ensures FirstPlainData(parts).None? <==> forall i :: 0 <= i < |parts| ==> !PlainWithData(parts[i])
    decreases |parts|
  {
    if parts != [] && !PlainWithData(parts[0]) {
      var rest := parts[1..];
      FirstPlainDataSpec(rest);
      assert forall i :: 1 <= i < |parts| ==> parts[i] == rest[i - 1];
      if FirstPlainData(rest).Some? {
        var i :| 0 <= i < |rest| && PlainWithData(rest[i]) && rest[i].data == FirstPlainData(rest)
          && forall j :: 0 <= j < i ==> !PlainWithData(rest[j]);
        assert parts[i + 1] == rest[i];
      }
    }
  }

  /** `body_data` of a message: from its first plain-text part, or from the payload body when it has no parts. */
  function BodyData(m: Message): Option<string> {
    if m.payload.None? then None
    else if m.payload.value.parts != [] then FirstPlainData(m.payload.value.parts)
    else m.payload.value.bodyData
  }

  /** The `for part in parts` loop of the source, ending at the first plain-text part with data. */
  method FindBodyData(m: Message) returns (bodyData: Option<string>)
    ensures bodyData == BodyData(m)
  {
    if m.payload.None? {
      return None;
    }
    var parts := m.payload.value.parts;
    if parts == [] {
      return m.payload.value.bodyData;
    }
    bodyData := None;
    var i := 0;
    while i < |parts|
      invariant 0 <= i <= |parts|
      invariant FirstPlainData(parts) == FirstPlainData(parts[i..])
    {
      if parts[i].mimeType == Some("text/plain") && parts[i].data.Some? {
        bodyData := parts[i].data;
        return;
      }
      assert parts[i..][1..] == parts[i + 1..];
      i := i + 1;
    }
  }

  /** `text[p..]` starts with `w`. */
  predicate At(text: string, p: nat, w: string) {
    p + |w| <= |text| && text[p..p + |w|] == w
  }

  /** Length of the run of characters satisfying `IsSpace` from `p`. */
  function SpaceRun(text: string, p: nat): (n: nat)
    requires p <= |text|
    ensures p + n <= |text|
    ensures forall i :: p <= i < p + n ==> IsSpace(text[i])
    ensures p + n < |text| ==> !IsSpace(text[p + n])
    decreases |text| - p
  {
    if p < |text| && IsSpace(text[p]) then 1 + SpaceRun(text, p + 1) else 0
  }

  /** Length of the run of word characters from `p`. */
  function WordRun(text: string, p: nat): (n: nat)
    requires p <= |text|
    ensures p + n <= |text|
    ensures forall i :: p <= i < p + n ==> IsWordChar(text[i])
    ensures p + n < |text| ==> !IsWordChar(text[p + n])
    decreases |text| - p
  {
    if p < |text| && IsWordChar(text[p]) then 1 + WordRun(text, p + 1) else 0
  }

  /** `^` under `re.MULTILINE`: the start of the text or just after a newline. */
  predicate LineStart(text: string, p: nat) {
    p <= |text| && (p == 0 || text[p - 1] == '\n')
  }

  /**
   * `(Hi|Hello)\s+(\w+)` anchored at `p`: the greeting (case-sensitive), at least one
   * blank, then the whole following word, which is group 2.
   */
  function GreetingAt(text: string, p: nat): (r: Option<string>)
    requires p <= |text|
    ensures r.Some? ==> r.value != [] && forall i :: 0 <= i < |r.value| ==> IsWordChar(r.value[i])
  {
    var k := if At(text, p, "Hi") then p + 2 else if At(text, p, "Hello") then p + 5 else -1;
    if k < 0 then None
    else
      var w := k + SpaceRun(text, k);
      var n := WordRun(text, w);
      if w == k || n == 0 then None else Some(text[w..w + n])
  }

  /** `re.search(r'^(Hi|Hello)\s+(\w+)', text, re.MULTILINE)` from position `p` on: group 2 of the first match. */
  function GreetingFrom(text: string, p: nat): (r: Option<string>)
    requires p <= |text|
    ensures r.Some? ==> r.value != [] && forall i :: 0 <= i < |r.value| ==> IsWordChar(r.value[i])
    decreases |text| - p
  {
    if LineStart(text, p) && GreetingAt(text, p).Some? then GreetingAt(text, p)
    else if p == |text| then None
    else GreetingFrom(text, p + 1)
  }

  function GreetingName(text: string): (r: Option<string>)
    ensures r.Some? ==> r.value != [] && forall i :: 0 <= i < |r.value| ==> IsWordChar(r.value[i])
  {
    GreetingFrom(text, 0)
  }

  /** The search returns the match at the first line start where the pattern matches. */
  lemma {:induction false} GreetingFromFirst(text: string, p: nat, q: nat)
    requires p <= q <= |text|
    requires LineStart(text, q) && GreetingAt(text, q).Some?
    requires forall j :: p <= j < q && LineStart(text, j) ==> GreetingAt(text, j).None?
    ensures GreetingFrom(text, p) == GreetingAt(text, q)
    decreases q - p
  {
    if p < q {
      GreetingFromFirst(text, p + 1, q);
    }
  }

  /** A match is found only at a line start that matches. */
  lemma {:induction false} GreetingFromFound(text: string, p: nat)
    requires p <= |text|
    requires GreetingFrom(text, p).Some?
    ensures exists q :: p <= q <= |text| && LineStart(text, q) && GreetingFrom(text, p) == GreetingAt(text, q)
    decreases |text| - p
  {
    if !(LineStart(text, p) && GreetingAt(text, p).Some?) {
      GreetingFromFound(text, p + 1);
    }
  }

  /** A run of word characters ended by the text's end or a non-word character has exactly its length. */
  lemma {:induction false} WordRunExact(text: string, p: nat, n: nat)
    requires p + n <= |text|
    requires forall i :: p <= i < p + n ==> IsWordChar(text[i])
    requires p + n == |text| || !IsWordChar(text[p + n])
    ensures WordRun(text, p) == n
    decreases n
  {
    if n > 0 {
      WordRunExact(text, p + 1, n - 1);
    }
  }

  /** A body opening with `Hello`, one blank and a word yields that whole word. */
  lemma GreetingHello(name: string, rest: string)
    requires name != [] && forall i :: 0 <= i < |name| ==> IsWordChar(name[i])
    requires rest == [] || !IsWordChar(rest[0])
    ensures GreetingName("Hello " + name + rest) == Some(name)
  {
    var text := "Hello " + name + rest;
    assert text[..5] == "Hello";
    assert text[1] == 'e';
    assert !At(text, 0, "Hi") by {
      assert text[0..2][1] == 'e';
    }
    assert text[5] == ' ' && !IsSpace(text[6]);
    assert forall i :: 6 <= i < 6 + |name| ==> text[i] == name[i - 6];
    if rest != [] {
      assert text[6 + |name|] == rest[0];
    }
    WordRunExact(text, 6, |name|);
    assert SpaceRun(text, 5) == 1;
    assert text[6..6 + |name|] == name;
  }

  /** A two-word name after `Hello` yields only its first word. */
  lemma GreetingFirstWordOnly(body: string, first: string, rest: string)
    requires first == "John" && rest == " Smith,\n\nThanks" && body == "Hello " + first + rest
    ensures GreetingName(body) == Some(first)
  {
    assert forall i :: 0 <= i < |first| ==> IsWordChar(first[i]);
    assert !IsWordChar(rest[0]);
    GreetingHello(first, rest);
  }

  /** `receiver_name`: group 2 from the first message's non-empty body, else `''`. */
  function ReceiverName(msgs: seq<Message>): string {
    if msgs == [] then ""
    else
      var body := BodyData(msgs[0]);
      if body.None? || body.value == "" then ""
      else GreetingName(body.value).GetOr("")
  }

  /** The number of messages whose lower-cased snippet contains `follow up`. */
  function SnippetFollowups(msgs: seq<Message>): (n: nat)
    ensures n <= |msgs|
    decreases |msgs|
  {
    if msgs == [] then 0
    else SnippetFollowups(msgs[..|msgs| - 1]) + (if Contains(Lower(msgs[|msgs| - 1].snippet), "follow up") then 1 else 0)
  }

  /** The composition's template index: the snippet count modulo the number of templates. */
  function ComposeIndex(n: nat): (i: nat)
    ensures i < 3
    ensures (n - i) % 3 == 0
  {
    n % 3
  }

  function Salutation(receiver: string): string {
    if receiver != "" then "Hi " + receiver + "," else "Hi,"
  }

  function MessageText(salutation: string, template: string, sender: string): string {
    salutation + "\n\n" + template + "\n\nThanks,\n" + sender
  }

  /** The reply handed to the transport: recipient, subject, thread and body text. */
  datatype Outgoing = Outgoing(to: string, subject: string, threadId: string, text: string)

  /** The reply composed for a thread's messages. */
  function ComposeReply(to: string, subject: string, threadId: string, msgs: seq<Message>,
                        templates: Templates, sender: string): Outgoing
  {
    var template := templates[ComposeIndex(SnippetFollowups(msgs))];
    Outgoing(to, "Re: " + subject, threadId, MessageText(Salutation(ReceiverName(msgs)), template, sender))
  }

  /** A first message opening with `Hello <name>` gets a reply greeting that name, under `Re: <subject>`. */
  lemma ReplyGreetsReceiver(to: string, subject: string, threadId: string, msgs: seq<Message>,
                            templates: Templates, sender: string, name: string, rest: string)
    requires msgs != [] && BodyData(msgs[0]) == Some("Hello " + name + rest)
    requires name != [] && forall i :: 0 <= i < |name| ==> IsWordChar(name[i])
    requires rest == [] || !IsWordChar(rest[0])
    ensures var r := ComposeReply(to, subject, threadId, msgs, templates, sender);
      && r.subject == "Re: " + subject
      && |r.text| > |name| + 4
      && r.text[..|name| + 4] == "Hi " + name + ","
  {
    GreetingHello(name, rest);
    assert ReceiverName(msgs) == name;
  }

  /** Without a greeting in the first message the reply opens with a bare `Hi,`; every reply ends with the signature. */
  lemma ReplyFrame(to: string, subject: string, threadId: string, msgs: seq<Message>, templates: Templates, sender: string)
    ensures var r := ComposeReply(to, subject, threadId, msgs, templates, sender);
      && |r.text| >= |sender| + 10
      && r.text[|r.text| - |sender| - 10..] == "\n\nThanks,\n" + sender
      && (ReceiverName(msgs) == "" ==> r.text[..5] == "Hi,\n\n")
  {
    var r := ComposeReply(to, subject, threadId, msgs, templates, sender);
    var head := Salutation(ReceiverName(msgs)) + "\n\n" + templates[ComposeIndex(SnippetFollowups(msgs))];
    assert r.text == head + ("\n\nThanks,\n" + sender);
  }

  /**
   * `send_followup_email`: the sender name is settled first; a thread that cannot be
   * fetched, or a send the transport rejects, returns false; `reply` is what was handed
   * to the transport, if anything.
   */
  method SendFollowupEmail(senderEnv: Option<string>, email: string, threads: map<string, seq<Message>>,
                           to: string, subject: string, threadId: string, templates: Templates,
                           transport: Outgoing -> bool)
    returns (success: bool, reply: Option<Outgoing>)
    ensures threadId !in threads ==> !success && reply.None?
    ensures threadId in threads ==>
      reply == Some(ComposeReply(to, subject, threadId, threads[threadId], templates, SenderName(senderEnv, email)))
    ensures success <==> reply.Some? && transport(reply.value)
  {
    var sender := SenderName(senderEnv, email);
    if threadId !in threads {
      // `threads().get` raises; the handler returns False
      return false, None;
    }
    var msgs := threads[threadId];
    var receiver := "";
    if msgs != [] {
      var body := FindBodyData(msgs[0]);
      if body.Some? && body.value != "" {
        var name := GreetingName(body.value);
        if name.Some? {
          receiver := name.value;
        }
      }
    }
    var count := 0;
    var i := 0;
    while i < |msgs|
      invariant 0 <= i <= |msgs|
      invariant count == SnippetFollowups(msgs[..i])
    {
      assert msgs[..i + 1][..i] == msgs[..i];
      if Contains(Lower(msgs[i].snippet), "follow up") {
        count := count + 1;
      }
      i := i + 1;
    }
    assert msgs[..i] == msgs;
    var template := templates[count % |templates|];
    var salutation := if receiver != "" then "Hi " + receiver + "," else "Hi,";
    var out := Outgoing(to, "Re: " + subject, threadId, salutation + "\n\n" + template + "\n\nThanks,\n" + sender);
    reply := Some(out);
    success := transport(out);
  }
}
