// Provider message records and the two total accessors over them:
// `get_header` and `is_from_user` of app/email_service.py.

module Messages {
  import opened Wrappers
  import opened Text

  /** One entry of `payload.headers`; either key may be absent from the provider's dict. */
  datatype Header = Header(name: Option<string>, value: Option<string>)

  /** One entry of `payload.parts`; `data` is the part's body text, already decoded. */
  datatype Part = Part(mimeType: Option<string>, data: Option<string>)

  /** A message payload; an absent `headers` or `parts` key reads as empty. */
  datatype Payload = Payload(headers: Option<seq<Header>>, parts: seq<Part>, bodyData: Option<string>)

  /**
   * A message as returned by the provider. `internalDate` is epoch milliseconds;
   * `snippet` is `''` when the provider omitted it (every reader defaults it so).
   */
  datatype Message = Message(id: string, payload: Option<Payload>, internalDate: int, snippet: string)

  /** `message.get('payload', {}).get('headers', [])`. */
  function Headers(m: Message): seq<Header> {
    if m.payload.None? || m.payload.value.headers.None? then [] else m.payload.value.headers.value
  }

  /** Header names are compared after lower-casing both sides. */
  predicate NameMatches(h: Header, key: string) {
    h.name.Some? && Lower(h.name.value) == Lower(key)
  }

  /** Header `i` is the first whose name matches `key`, and every header before it has a name. */
  ghost predicate FirstMatchAt(hs: seq<Header>, key: string, i: int) {
    && 0 <= i < |hs|
    && (forall j :: 0 <= j < i ==> hs[j].name.Some? && !NameMatches(hs[j], key))
    && NameMatches(hs[i], key)
  }

  /**
   * The generator `next((h['value'] for h in headers if h['name'].lower() == key.lower()), '')`.
   * `None` stands for the KeyError it raises on a nameless header reached before any match,
   * or on a matching header without a value.
   */
  function FindHeader(hs: seq<Header>, key: string): Option<string>
    decreases |hs|
  {
    if hs == [] then Some("")
    else if hs[0].name.None? then None
    else if NameMatches(hs[0], key) then hs[0].value
    else FindHeader(hs[1..], key)
  }

  /**
   * What the lookup finds: the value of the first matching header; `''` when no header
   * matches; a failure only because of a nameless header or a matching header without a value.
   */
  lemma {:induction false} FindHeaderSpec(hs: seq<Header>, key: string)
    ensures forall i :: FirstMatchAt(hs, key, i) ==> FindHeader(hs, key) == hs[i].value
    ensures (forall j :: 0 <= j < |hs| ==> hs[j].name.Some? && !NameMatches(hs[j], key)) ==> FindHeader(hs, key) == Some("")
    ensures FindHeader(hs, key).None? ==> exists i :: 0 <= i < |hs| && (hs[i].name.None? || (FirstMatchAt(hs, key, i) && hs[i].value.None?))
    ensures FindHeader(hs, key).Some? && FindHeader(hs, key).value != "" ==> exists i :: FirstMatchAt(hs, key, i) && hs[i].value == FindHeader(hs, key)
    decreases |hs|
  {
    if hs != [] && hs[0].name.Some? && !NameMatches(hs[0], key) {
      FindHeaderSpec(hs[1..], key);
      assert forall i :: FirstMatchAt(hs, key, i) ==> i > 0 && FirstMatchAt(hs[1..], key, i - 1);
      assert forall i :: FirstMatchAt(hs[1..], key, i) ==> FirstMatchAt(hs, key, i + 1);
    }
  }

  /** `get_header`: never fails; `''` on any missing structure. */
  function GetHeader(m: Message, key: string): (r: string)
    ensures m.payload.None? || m.payload.value.headers.None? ==> r == ""
  {
    FindHeader(Headers(m), key).GetOr("")
  }

  /** `get_header` returns the value of the first header whose name matches, ignoring case. */
  lemma GetHeaderFirstMatch(m: Message, key: string, i: int)
    requires FirstMatchAt(Headers(m), key, i) && Headers(m)[i].value.Some?
    ensures GetHeader(m, key) == Headers(m)[i].value.value
  {
    FindHeaderSpec(Headers(m), key);
  }

  /** A non-empty result always comes from a matching header. */
  lemma GetHeaderFound(m: Message, key: string)
    requires GetHeader(m, key) != ""
    ensures exists i :: FirstMatchAt(Headers(m), key, i) && Headers(m)[i].value == Some(GetHeader(m, key))
  {
    FindHeaderSpec(Headers(m), key);
  }

  /** No matching header: the result is `''`, whether the search ends or a nameless header raises. */
  lemma GetHeaderAbsent(m: Message, key: string)
    requires forall j :: 0 <= j < |Headers(m)| ==> !NameMatches(Headers(m)[j], key)
    ensures GetHeader(m, key) == ""
  {
    FindHeaderSpec(Headers(m), key);
  }

  /** `is_from_user`: the user's address occurs in the first `From` header value. */
  function IsFromUser(m: Message, user: string): (r: bool)
    ensures r <==> FindHeader(Headers(m), "from").Some? && Contains(GetHeader(m, "from"), user)
    ensures m.payload.None? || m.payload.value.headers.None? ==> (r <==> user == "")
  {
    match FindHeader(Headers(m), "from")
    case None => false
    case Some(from) => Contains(from, user)
  }

  /** Header lookup does not depend on the case of the requested name. */
  lemma {:induction false} FindHeaderCaseInsensitive(hs: seq<Header>, k1: string, k2: string)
    requires Lower(k1) == Lower(k2)
    ensures FindHeader(hs, k1) == FindHeader(hs, k2)
    decreases |hs|
  {
    if hs != [] && hs[0].name.Some? && !NameMatches(hs[0], k1) {
      FindHeaderCaseInsensitive(hs[1..], k1, k2);
    }
  }

  lemma GetHeaderCaseInsensitive(m: Message, k1: string, k2: string)
    requires Lower(k1) == Lower(k2)
    ensures GetHeader(m, k1) == GetHeader(m, k2)
  {
    FindHeaderCaseInsensitive(Headers(m), k1, k2);
  }

  /** Messages with an empty header list, no `headers` key, or no `payload`: no header, and not from any user. */
  lemma MalformedMessages(user: string)
    requires user != ""
    ensures var noHeaders := Message("", Some(Payload(Some([]), [], None)), 0, "");
      var noKey := Message("", Some(Payload(None, [], None)), 0, "");
      var bare := Message("", None, 0, "");
      && GetHeader(noHeaders, "Subject") == "" && GetHeader(noKey, "Subject") == "" && GetHeader(bare, "Subject") == ""
      && !IsFromUser(noKey, user) && !IsFromUser(bare, user)
  {
  }

  /** A nameless header ahead of the sought one makes the lookup fail closed. */
  lemma NamelessHeaderHidesLaterOnes(user: string)
    requires user != ""
    ensures var m := Message("m", Some(Payload(Some([Header(None, Some("x")), Header(Some("From"), Some(user))]), [], None)), 0, "");
      GetHeader(m, "From") == "" && !IsFromUser(m, user)
  {
  }
}
