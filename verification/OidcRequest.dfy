/** Parsing authorization requests (section 4.1.1 of RFC 6749, section 4.3 of RFC 7636) and
    printing them for the next page of the flow. */
module OidcRequest {
  import opened Wrappers
  import opened Text
  import opened Platform

  const SCOPES: seq<string> := ["openid", "email", "profile"]

  datatype OidcError = OidcError(code: string, status: int)

  datatype AuthorizationRequest = AuthorizationRequest(
    clientId: string, codeChallenge: string, loginHint: Option<string>, nonce: Option<string>,
    redirectUri: string, scope: string, state: string)

  datatype ParamValue = Single(text: string) | Repeated(texts: seq<string>)

  /** A query string or form body, or the record that the page router makes of one. */
  datatype SearchParams = Query(pairs: seq<(string, string)>) | Record(fields: map<string, ParamValue>)

  function First(pairs: seq<(string, string)>, name: string): Option<string> {
    if pairs == [] then None
    else if pairs[0].0 == name then Some(pairs[0].1)
    else First(pairs[1..], name)
  }

  function ReadParam(input: SearchParams, name: string): Option<string> {
    match input
    case Query(pairs) => First(pairs, name)
    case Record(fields) =>
      if name !in fields then None
      else
        match fields[name]
        case Single(text) => Some(text)
        case Repeated(texts) => if texts == [] then None else Some(texts[0])
  }

  /** `text.split(/\s+/)`. */
  function SplitSpaces(s: string): (words: seq<string>)
    ensures words != []
    decreases |s|
  {
    if s == [] then [""]
    else if IsSpace(s[0]) then [""] + SplitSpaces(TrimStart(s[1..]))
    else
      var rest := SplitSpaces(s[1..]);
      [[s[0]] + rest[0]] + rest[1..]
  }

  /** The supported scopes among the requested ones, in the order the provider lists them. */
  function Supported(scopes: seq<string>, requested: seq<string>): seq<string> {
    if scopes == [] then []
    else (if scopes[0] in requested then [scopes[0]] else []) + Supported(scopes[1..], requested)
  }

  function NonEmpty(text: Option<string>): Option<string> {
    if text == Some("") then None else text
  }

  predicate TooLong(text: Option<string>) { text.Some? && |text.value| > 2_048 }

  /** The parameters that a request is made of. */
  datatype Fields = Fields(
    responseType: Option<string>, clientId: Option<string>, redirectUri: Option<string>,
    scope: Option<string>, state: Option<string>, challenge: Option<string>,
    challengeMethod: Option<string>, nonce: Option<string>, loginHint: Option<string>)

  function ReadFields(input: SearchParams): Fields {
    Fields(ReadParam(input, "response_type"), ReadParam(input, "client_id"), ReadParam(input, "redirect_uri"),
           ReadParam(input, "scope"), ReadParam(input, "state"), ReadParam(input, "code_challenge"),
           ReadParam(input, "code_challenge_method"), ReadParam(input, "nonce"), ReadParam(input, "login_hint"))
  }

  function RequestedScopes(scope: Option<string>): seq<string> {
    if scope.Some? then SplitSpaces(Trim(scope.value)) else []
  }

  predicate AllSupported(requested: seq<string>) { forall word | word in requested :: word in SCOPES }

  function ParseFields(p: Platform, f: Fields): Result<AuthorizationRequest, OidcError> {
    var requested := RequestedScopes(f.scope);
    if f.responseType != Some("code") then Failure(OidcError("unsupported_response_type", 400))
    else if f.clientId != Some(CLIENT_ID) then Failure(OidcError("unauthorized_client", 400))
    else if f.redirectUri != Some(p.RedirectUri()) then Failure(OidcError("invalid_request", 400))
    else if "openid" !in requested then Failure(OidcError("invalid_scope", 400))
    else if !AllSupported(requested) then Failure(OidcError("invalid_scope", 400))
    else if f.state.None? || f.state.value == "" || TooLong(f.state) then Failure(OidcError("invalid_request", 400))
    else if TooLong(f.nonce) || TooLong(f.loginHint) then Failure(OidcError("invalid_request", 400))
    else if f.challenge.None? || !IsPkceValue(f.challenge.value) then Failure(OidcError("invalid_request", 400))
    else if f.challengeMethod != Some("S256") then Failure(OidcError("invalid_request", 400))
    else
      Success(AuthorizationRequest(CLIENT_ID, f.challenge.value, NonEmpty(f.loginHint), NonEmpty(f.nonce),
                                   p.RedirectUri(), Join(Supported(SCOPES, requested), " "), f.state.value))
  }

  function ParseRequest(p: Platform, input: SearchParams): Result<AuthorizationRequest, OidcError> {
    ParseFields(p, ReadFields(input))
  }

  function OrEmpty(text: Option<string>): string { if text.Some? then text.value else "" }

  function FormFields(r: AuthorizationRequest): seq<(string, string)> {
    [("client_id", r.clientId), ("redirect_uri", r.redirectUri), ("response_type", "code"),
     ("scope", r.scope), ("state", r.state), ("code_challenge", r.codeChallenge),
     ("code_challenge_method", "S256"), ("nonce", OrEmpty(r.nonce)), ("login_hint", OrEmpty(r.loginHint))]
  }

  /** The fields that carry a value. */
  function WithValue(pairs: seq<(string, string)>): seq<(string, string)> {
    if pairs == [] then []
    else (if pairs[0].1 != "" then [pairs[0]] else []) + WithValue(pairs[1..])
  }

  /** The query of the authorization page's URL. */
  function PageParameters(r: AuthorizationRequest): seq<(string, string)> { WithValue(FormFields(r)) }

  /** The record that a page router makes of a query. */
  function AsRecord(pairs: seq<(string, string)>): map<string, ParamValue> {
    if pairs == [] then map[]
    else
      var (name, value) := pairs[0];
      var rest := AsRecord(pairs[1..]);
      rest[name :=
        if name !in rest then Single(value)
        else
          match rest[name]
          case Single(text) => Repeated([value, text])
          case Repeated(texts) => Repeated([value] + texts)]
  }

  /** Both shapes of search parameters read alike. */
  lemma {:induction false} RecordReadsLikeQuery(pairs: seq<(string, string)>, name: string)
    ensures ReadParam(Record(AsRecord(pairs)), name) == ReadParam(Query(pairs), name)
  {
    if pairs == [] {
    } else {
      RecordReadsLikeQuery(pairs[1..], name);
    }
  }

  predicate IsWord(s: string) { s != [] && forall i | 0 <= i < |s| :: !IsSpace(s[i]) }

  lemma SplitSpacesStep(s: string)
    ensures SplitSpaces(s) == if s == [] then [""]
                              else if IsSpace(s[0]) then [""] + SplitSpaces(TrimStart(s[1..]))
                              else [[s[0]] + SplitSpaces(s[1..])[0]] + SplitSpaces(s[1..])[1..]
  {}

  lemma ConsParts(head: string, tail: seq<string>)
    ensures ([head] + tail)[0] == head && ([head] + tail)[1..] == tail
  {}

  lemma {:induction false} SplitWord(word: string, rest: string)
    requires IsWord(word) && (rest != [] ==> IsSpace(rest[0]))
    ensures SplitSpaces(word + rest) == [word] + SplitSpaces(rest)[1..] && SplitSpaces(rest)[0] == ""
  {
    hide SplitSpaces, IsSpace;
    SplitSpacesStep(rest);
    SplitSpacesStep(word + rest);
    assert (word + rest)[1..] == word[1..] + rest;
    if |word| == 1 {
      assert word[1..] + rest == rest;
      assert [word[0]] + "" == word;
    } else {
      SplitWord(word[1..], rest);
      ConsParts(word[1..], SplitSpaces(rest)[1..]);
      assert word == [word[0]] + word[1..];
    }
  }

  lemma {:induction false} SplitJoined(words: seq<string>)
    requires words != [] && forall w | w in words :: IsWord(w)
    ensures SplitSpaces(Join(words, " ")) == words
    ensures IsTrimmed(Join(words, " ")) && Join(words, " ") != []
  {
    assert words[0] in words;
    if |words| == 1 {
      SplitWord(words[0], "");
      assert words[0] + "" == words[0];
    } else {
      forall w | w in words[1..] ensures IsWord(w) { assert w in words; }
      SplitJoined(words[1..]);
      PrependWord(words[0], Join(words[1..], " "));
      assert words == [words[0]] + words[1..];
    }
  }

  lemma PrependWord(word: string, rest: string)
    requires IsWord(word) && rest != [] && IsTrimmed(rest)
    ensures SplitSpaces(word + " " + rest) == [word] + SplitSpaces(rest) && IsTrimmed(word + " " + rest)
  {
    hide SplitSpaces;
    SplitWord(word, " " + rest);
    SplitAfterSpace(rest);
    ConcatAssociates(word, " ", rest);
    assert ([""] + SplitSpaces(rest))[1..] == SplitSpaces(rest);
  }

  lemma SplitAfterSpace(rest: string)
    requires rest != [] && !IsSpace(rest[0])
    ensures SplitSpaces(" " + rest) == [""] + SplitSpaces(rest)
  {
    assert (" " + rest)[1..] == rest;
    assert TrimStart(rest) == rest;
  }

  lemma {:induction false} SupportedElements(scopes: seq<string>, requested: seq<string>)
    ensures forall w :: w in Supported(scopes, requested) <==> w in scopes && w in requested
  {
    if scopes == [] {
    } else {
      SupportedElements(scopes[1..], requested);
    }
  }

  lemma {:induction false} SupportedDependsOnMembers(scopes: seq<string>, a: seq<string>, b: seq<string>)
    requires forall w | w in scopes :: w in a <==> w in b
    ensures Supported(scopes, a) == Supported(scopes, b)
  {
    if scopes == [] {
    } else {
      assert scopes[0] in scopes;
      SupportedDependsOnMembers(scopes[1..], a, b);
    }
  }

  lemma ScopesAreWords()
    ensures forall w | w in SCOPES :: IsWord(w)
  {
    assert IsWord("openid") && IsWord("email") && IsWord("profile");
  }

  /** A canonical scope is read back as the words it joins. */
  lemma CanonicalScope(requested: seq<string>)
    requires "openid" in requested && forall w | w in requested :: w in SCOPES
    ensures var kept := Supported(SCOPES, requested);
            && SplitSpaces(Trim(Join(kept, " "))) == kept && "openid" in kept
            && (forall w | w in kept :: w in SCOPES)
            && Supported(SCOPES, kept) == kept
  {
    var kept := Supported(SCOPES, requested);
    SupportedElements(SCOPES, requested);
    ScopesAreWords();
    assert "openid" in SCOPES;
    SplitJoined(kept);
    TrimOfTrimmed(Join(kept, " "));
    SupportedDependsOnMembers(SCOPES, requested, kept);
  }

  lemma {:induction false} FirstAt(pairs: seq<(string, string)>, i: nat)
    requires i < |pairs| && forall j | 0 <= j < i :: pairs[j].0 != pairs[i].0
    ensures First(pairs, pairs[i].0) == Some(pairs[i].1)
  {
    if i == 0 {
    } else {
      FirstAt(pairs[1..], i - 1);
    }
  }

  ghost predicate DistinctNames(pairs: seq<(string, string)>) {
    forall i, j | 0 <= i < j < |pairs| :: pairs[i].0 != pairs[j].0
  }

  /** Leaving out empty values makes them unreadable and nothing else. */
  lemma {:induction false} FirstWithValue(pairs: seq<(string, string)>, name: string)
    requires DistinctNames(pairs)
    ensures First(WithValue(pairs), name) == NonEmpty(First(pairs, name))
  {
    if pairs == [] {
    } else {
      FirstWithValue(pairs[1..], name);
      var rest := WithValue(pairs[1..]);
      assert ([pairs[0]] + rest)[1..] == rest && [] + rest == rest;
      if pairs[0].0 == name {
        NotFirst(pairs[1..], name);
      }
    }
  }

  lemma {:induction false} NotFirst(pairs: seq<(string, string)>, name: string)
    requires forall i | 0 <= i < |pairs| :: pairs[i].0 != name
    ensures First(pairs, name) == None
  {
    if pairs == [] {
    } else {
      NotFirst(pairs[1..], name);
    }
  }

  lemma FieldNamesDiffer(r: AuthorizationRequest)
    ensures DistinctNames(FormFields(r))
  {
    assert |"client_id"| == 9 && |"redirect_uri"| == 12 && |"response_type"| == 13 && |"scope"| == 5;
    assert |"state"| == 5 && |"code_challenge"| == 14 && |"code_challenge_method"| == 21;
    assert |"nonce"| == 5 && |"login_hint"| == 10;
    assert "scope"[1] == 'c' && "state"[1] == 't' && "nonce"[1] == 'o';
  }

  /** The fields of a printed request. */
  function PrintedFields(r: AuthorizationRequest): Fields {
    Fields(Some("code"), Some(r.clientId), Some(r.redirectUri), Some(r.scope), Some(r.state),
           Some(r.codeChallenge), Some("S256"), Some(OrEmpty(r.nonce)), Some(OrEmpty(r.loginHint)))
  }

  /** Every field reads back as what the printer wrote. */
  lemma FormReadsBack(r: AuthorizationRequest)
    ensures ReadFields(Query(FormFields(r))) == PrintedFields(r)
  {
    FieldNamesDiffer(r);
    var fields := FormFields(r);
    FirstAt(fields, 0); FirstAt(fields, 1); FirstAt(fields, 2);
    FirstAt(fields, 3); FirstAt(fields, 4); FirstAt(fields, 5);
    FirstAt(fields, 6); FirstAt(fields, 7); FirstAt(fields, 8);
  }

  /** On the page URL the empty fields are missing. */
  lemma PageReadsBack(r: AuthorizationRequest)
    ensures ReadFields(Query(PageParameters(r))) == Present(PrintedFields(r))
  {
    var form := FormFields(r);
    FieldNamesDiffer(r);
    FormReadsBack(r);
    FirstWithValue(form, "client_id"); FirstWithValue(form, "redirect_uri"); FirstWithValue(form, "response_type");
    FirstWithValue(form, "scope"); FirstWithValue(form, "state"); FirstWithValue(form, "code_challenge");
    FirstWithValue(form, "code_challenge_method"); FirstWithValue(form, "nonce"); FirstWithValue(form, "login_hint");
  }

  function Present(f: Fields): Fields {
    Fields(NonEmpty(f.responseType), NonEmpty(f.clientId), NonEmpty(f.redirectUri), NonEmpty(f.scope),
           NonEmpty(f.state), NonEmpty(f.challenge), NonEmpty(f.challengeMethod), NonEmpty(f.nonce),
           NonEmpty(f.loginHint))
  }

  lemma RecordFields(pairs: seq<(string, string)>)
    ensures ReadFields(Record(AsRecord(pairs))) == ReadFields(Query(pairs))
  {
    forall name ensures ReadParam(Record(AsRecord(pairs)), name) == ReadParam(Query(pairs), name) {
      RecordReadsLikeQuery(pairs, name);
    }
  }

  /** An accepted request survives every way of handing it to the next page, unchanged: as form
      fields, as the page URL's query, and as the record a router makes of either. */
  lemma AcceptedRequestRoundTrips(p: Platform, input: SearchParams)
    requires ParseRequest(p, input).Success?
    ensures var r := ParseRequest(p, input).value;
            && ParseRequest(p, Query(FormFields(r))) == Success(r)
            && ParseRequest(p, Query(PageParameters(r))) == Success(r)
            && ParseRequest(p, Record(AsRecord(FormFields(r)))) == Success(r)
            && ParseRequest(p, Record(AsRecord(PageParameters(r)))) == Success(r)
  {
    var r := ParseRequest(p, input).value;
    FormReadsBack(r);
    PageReadsBack(r);
    RecordFields(FormFields(r));
    RecordFields(PageParameters(r));
    PrintedFieldsParse(p, ReadFields(input));
  }

  /** What an accepted request is known to say. */
  lemma FieldsFilled(p: Platform, f: Fields)
    requires ParseFields(p, f).Success?
    ensures var r := ParseFields(p, f).value;
            && |r.clientId| > 0 && |r.redirectUri| > 0 && |r.scope| > 0 && |r.state| > 0 && |r.codeChallenge| > 0
            && r.nonce == NonEmpty(f.nonce) && r.loginHint == NonEmpty(f.loginHint)
            && f.responseType == Some("code") && f.challengeMethod == Some("S256")
            && f.clientId == Some(r.clientId) && f.redirectUri == Some(r.redirectUri) && f.state == Some(r.state)
            && f.challenge == Some(r.codeChallenge)
            && "openid" in RequestedScopes(f.scope) && AllSupported(RequestedScopes(f.scope))
            && r.scope == Join(Supported(SCOPES, RequestedScopes(f.scope)), " ")
  {
    hide RequestedScopes, AllSupported;
    ScopeReadsBack(RequestedScopes(f.scope));
    assert |p.RedirectUri()| > 0;
  }

  lemma PrintedFieldsParse(p: Platform, f: Fields)
    requires ParseFields(p, f).Success?
    ensures var printed := PrintedFields(ParseFields(p, f).value);
            && ParseFields(p, printed) == ParseFields(p, f)
            && ParseFields(p, Present(printed)) == ParseFields(p, f)
  {
    var r := ParseFields(p, f).value;
    var printed := PrintedFields(r);
    FieldsFilled(p, f);
    hide ParseFields, RequestedScopes, Supported, AllSupported, Join;
    ScopeReadsBack(RequestedScopes(f.scope));
    PresentFields(r);
    ParsesAlike(p, f, printed);
    ParsesAlike(p, f, Present(printed));
  }

  lemma PresentFields(r: AuthorizationRequest)
    requires |r.clientId| > 0 && |r.redirectUri| > 0 && |r.scope| > 0 && |r.state| > 0 && |r.codeChallenge| > 0
    requires r.nonce != Some("") && r.loginHint != Some("")
    ensures Present(PrintedFields(r)) == PrintedFields(r).(nonce := r.nonce, loginHint := r.loginHint)
  {
    var f, g := PrintedFields(r), Present(PrintedFields(r));
    assert |"code"| == 4 && |"S256"| == 4;
    assert g.responseType == f.responseType && g.challengeMethod == f.challengeMethod;
    assert g.nonce == r.nonce && g.loginHint == r.loginHint;
  }

  lemma ParsesAlike(p: Platform, f: Fields, g: Fields)
    requires ParseFields(p, f).Success?
    requires g.responseType == f.responseType && g.clientId == f.clientId && g.redirectUri == f.redirectUri
    requires g.state == f.state && g.challenge == f.challenge && g.challengeMethod == f.challengeMethod
    requires NonEmpty(g.nonce) == NonEmpty(f.nonce) && NonEmpty(g.loginHint) == NonEmpty(f.loginHint)
    requires var again := RequestedScopes(g.scope);
             && "openid" in again && AllSupported(again)
             && Join(Supported(SCOPES, again), " ") == ParseFields(p, f).value.scope
    ensures ParseFields(p, g) == ParseFields(p, f)
  {
    hide RequestedScopes, Supported, AllSupported, Join, IsPkceValue;
  }

  lemma ScopeReadsBack(requested: seq<string>)
    requires "openid" in requested && AllSupported(requested)
    ensures var scope := Join(Supported(SCOPES, requested), " ");
            var again := RequestedScopes(Some(scope));
            && scope != "" && "openid" in again && AllSupported(again)
            && Join(Supported(SCOPES, again), " ") == scope
  {
    CanonicalScope(requested);
    SupportedElements(SCOPES, requested);
    ScopesAreWords();
    SplitJoined(Supported(SCOPES, requested));
  }

  // Which requests are accepted, and what is made of them.

  /** The first pair of the name carries the value. */
  ghost predicate IsFirst(pairs: seq<(string, string)>, name: string, value: string) {
    exists i | 0 <= i < |pairs| :: pairs[i] == (name, value) && forall j | 0 <= j < i :: pairs[j].0 != name
  }

  lemma {:induction false} FirstMeans(pairs: seq<(string, string)>, name: string, value: string)
    ensures First(pairs, name) == Some(value) <==> IsFirst(pairs, name, value)
  {
    if pairs == [] {
    } else if pairs[0].0 == name {
      if IsFirst(pairs, name, value) {
        var i :| 0 <= i < |pairs| && pairs[i] == (name, value) && forall j | 0 <= j < i :: pairs[j].0 != name;
        assert i == 0;
      }
    } else {
      FirstMeans(pairs[1..], name, value);
      if IsFirst(pairs, name, value) {
        var i :| 0 <= i < |pairs| && pairs[i] == (name, value) && forall j | 0 <= j < i :: pairs[j].0 != name;
        assert pairs[1..][i - 1] == (name, value);
      }
      if IsFirst(pairs[1..], name, value) {
        var i :| 0 <= i < |pairs[1..]| && pairs[1..][i] == (name, value)
                 && forall j | 0 <= j < i :: pairs[1..][j].0 != name;
        assert pairs[i + 1] == (name, value);
        forall j | 0 <= j < i + 1 ensures pairs[j].0 != name {
          if j > 0 { assert pairs[1..][j - 1] == pairs[j]; }
        }
      }
    }
  }

  predicate HasText(value: Option<string>) { value.Some? && value.value != "" }

  /** The word stands in the text at a place, with white space or an end on both sides. */
  ghost predicate StandsAt(text: string, word: string, i: nat) {
    && OccursAt(text, word, i)
    && (i == 0 || IsSpace(text[i - 1])) && (i + |word| == |text| || IsSpace(text[i + |word|]))
  }

  ghost predicate NamesWord(text: string, word: string) {
    IsWord(word) && exists i: nat | i <= |text| :: StandsAt(text, word, i)
  }

  /** Behind white space, or behind anything at a later place, standing does not depend on what came before. */
  lemma StandsBehind(a: string, b: string, word: string, i: nat)
    requires i <= |b| && (a == "" || i > 0 || IsSpace(a[|a| - 1]))
    ensures StandsAt(a + b, word, |a| + i) <==> StandsAt(b, word, i)
  {
    var whole := a + b;
    if i + |word| <= |b| {
      assert whole[|a| + i..|a| + i + |word|] == b[i..i + |word|];
    }
  }

  lemma WordBegins(text: string, word: string, i: nat)
    requires IsWord(word) && StandsAt(text, word, i)
    ensures i + |word| <= |text| && !IsSpace(text[i])
    ensures forall k | 0 <= k < |word| :: text[i + k] == word[k]
  {
    forall k | 0 <= k < |word| ensures text[i + k] == word[k] {
      assert text[i..i + |word|][k] == word[k];
    }
    assert text[i + 0] == word[0];
  }

  lemma NamesAfterSpaces(spaces: string, text: string, word: string)
    requires AllSpace(spaces)
    ensures NamesWord(spaces + text, word) <==> NamesWord(text, word)
  {
    hide StandsAt, IsSpace;
    var whole := spaces + text;
    if NamesWord(whole, word) {
      var i: nat :| i <= |whole| && StandsAt(whole, word, i);
      WordBegins(whole, word, i);
      assert forall k | 0 <= k < |spaces| :: whole[k] == spaces[k];
      StandsBehind(spaces, text, word, i - |spaces|);
    }
    if NamesWord(text, word) {
      var i: nat :| i <= |text| && StandsAt(text, word, i);
      StandsBehind(spaces, text, word, i);
      assert StandsAt(whole, word, |spaces| + i);
    }
  }

  lemma StandsFirst(first: string, rest: string, word: string)
    requires IsWord(first) && IsWord(word) && (rest == "" || IsSpace(rest[0]))
    ensures StandsAt(first + rest, word, 0) <==> word == first
  {
    var whole := first + rest;
    assert forall k | 0 <= k < |first| :: whole[k] == first[k];
    assert rest != "" ==> whole[|first|] == rest[0];
    if StandsAt(whole, word, 0) {
      WordBegins(whole, word, 0);
      assert forall k | 0 <= k < |word| :: whole[0 + k] == word[k];
      assert word == whole[0..|word|];
    }
    assert whole[0..|first|] == first;
  }

  /** Behind a word comes white space or nothing: the text names that word and those behind it. */
  lemma NamesAfterWord(first: string, rest: string, word: string)
    requires IsWord(first) && IsWord(word) && (rest == "" || IsSpace(rest[0]))
    ensures NamesWord(first + rest, word) <==> word == first || NamesWord(rest, word)
  {
    var whole := first + rest;
    StandsFirst(first, rest, word);
    if NamesWord(whole, word) {
      var i: nat :| i <= |whole| && StandsAt(whole, word, i);
      if i > 0 {
        assert forall k | 0 <= k < |first| :: whole[k] == first[k];
        assert IsSpace(whole[i - 1]);
        hide StandsAt;
        StandsBehind(first, rest, word, i - |first|);
      }
    }
    if NamesWord(rest, word) {
      var i: nat :| i <= |rest| && StandsAt(rest, word, i);
      WordBegins(rest, word, i);
      StandsBehind(first, rest, word, i);
      assert StandsAt(whole, word, |first| + i);
    }
  }

  lemma {:induction false} LeadingWord(s: string) returns (first: string, rest: string)
    requires s != "" && !IsSpace(s[0])
    ensures s == first + rest && IsWord(first) && (rest == "" || IsSpace(rest[0]))
  {
    if |s| == 1 || IsSpace(s[1]) {
      first, rest := s[..1], s[1..];
    } else {
      var more, left := LeadingWord(s[1..]);
      first, rest := [s[0]] + more, left;
    }
  }

  /** Splitting at white space finds exactly the words of the text. */
  lemma {:induction false} SplitNames(s: string, word: string)
    requires word != ""
    ensures word in SplitSpaces(s) <==> NamesWord(s, word)
    decreases |s|
  {
    hide SplitSpaces, NamesWord, IsWord;
    SplitSpacesStep(s);
    if s == "" {
      NothingNamed(word);
    } else if IsSpace(s[0]) {
      var spaces, rest := LeadingSpaces(s);
      SplitNames(rest, word);
      NamesAfterSpaces(spaces, rest, word);
    } else {
      var first, rest := LeadingWord(s);
      NotEmpty(first);
      SplitNames(rest, word);
      SplitWord(first, rest);
      NamesBehind(first, rest, word);
      var behind := SplitSpaces(rest);
      assert behind == [behind[0]] + behind[1..];
    }
  }

  lemma NamesBehind(first: string, rest: string, word: string)
    requires IsWord(first) && word != "" && (rest == "" || IsSpace(rest[0]))
    ensures NamesWord(first + rest, word) <==> word == first || NamesWord(rest, word)
  {
    if IsWord(word) {
      NamesAfterWord(first, rest, word);
    }
  }

  lemma LeadingSpaces(s: string) returns (spaces: string, rest: string)
    requires s != "" && IsSpace(s[0])
    ensures rest == TrimStart(s[1..]) && s == spaces + rest && AllSpace(spaces) && |rest| < |s|
  {
    hide TrimStart;
    rest := TrimStart(s[1..]);
    var inner := s[1..][..|s| - 1 - |rest|];
    SplitBack(s[1..], |s| - 1 - |rest|);
    spaces := [s[0]] + inner;
    assert s == [s[0]] + s[1..];
    ConcatAssociates([s[0]], inner, rest);
  }

  lemma NotEmpty(word: string)
    requires IsWord(word)
    ensures word != ""
  {}

  lemma NothingNamed(word: string)
    ensures !NamesWord("", word)
  {}

  /** The scopes that a scope parameter names. */
  ghost predicate Requests(scope: Option<string>, word: string) { scope.Some? && NamesWord(Trim(scope.value), word) }

  lemma RequestedMeans(scope: Option<string>, word: string)
    requires word != ""
    ensures word in RequestedScopes(scope) <==> Requests(scope, word)
  {
    hide SplitSpaces, NamesWord, Trim;
    if scope.Some? {
      SplitNames(Trim(scope.value), word);
    }
  }

  lemma {:induction false} SplitSpacesOfTrimmed(s: string)
    requires s != "" && !IsSpace(s[|s| - 1])
    ensures IsSpace(s[0]) || "" !in SplitSpaces(s)
    ensures "" !in SplitSpaces(s)[1..]
    decreases |s|
  {
    hide SplitSpaces;
    SplitSpacesStep(s);
    if IsSpace(s[0]) {
      var rest := TrimStart(s[1..]);
      LastNotTrimmed(s[1..]);
      SplitSpacesOfTrimmed(rest);
      ConsParts("", SplitSpaces(rest));
    } else {
      var first, rest := LeadingWord(s);
      SplitWord(first, rest);
      ConsParts(first, SplitSpaces(rest)[1..]);
      if rest == "" {
        SplitSpacesStep("");
      } else {
        assert rest[|rest| - 1] == s[|s| - 1];
        SplitSpacesOfTrimmed(rest);
      }
    }
  }

  lemma {:induction false} LastNotTrimmed(s: string)
    requires s != "" && !IsSpace(s[|s| - 1])
    ensures TrimStart(s) != "" && TrimStart(s)[|TrimStart(s)| - 1] == s[|s| - 1]
  {
    if IsSpace(s[0]) {
      LastNotTrimmed(s[1..]);
    }
  }

  /** A parameter that is allowed to be absent. */
  predicate FitsIn(text: Option<string>, limit: nat) { text.Some? ==> |text.value| <= limit }

  /** What an authorization request must present, parameter by parameter. */
  ghost predicate Acceptable(p: Platform, input: SearchParams) {
    && ReadParam(input, "response_type") == Some("code")
    && ReadParam(input, "client_id") == Some(CLIENT_ID)
    && ReadParam(input, "redirect_uri") == Some(p.RedirectUri())
    && Requests(ReadParam(input, "scope"), "openid")
    && (forall word | Requests(ReadParam(input, "scope"), word) :: word in ["openid", "email", "profile"])
    && HasText(ReadParam(input, "state")) && FitsIn(ReadParam(input, "state"), 2_048)
    && FitsIn(ReadParam(input, "nonce"), 2_048) && FitsIn(ReadParam(input, "login_hint"), 2_048)
    && ReadParam(input, "code_challenge").Some? && IsPkceValue(ReadParam(input, "code_challenge").value)
    && ReadParam(input, "code_challenge_method") == Some("S256")
  }

  lemma ScopesAccepted(scope: Option<string>)
    ensures "openid" in RequestedScopes(scope) && AllSupported(RequestedScopes(scope)) <==>
            Requests(scope, "openid") && forall word | Requests(scope, word) :: word in ["openid", "email", "profile"]
  {
    hide RequestedScopes, Requests;
    RequestedMeans(scope, "openid");
    forall word | word != "" ensures word in RequestedScopes(scope) <==> Requests(scope, word) {
      RequestedMeans(scope, word);
    }
    if Requests(scope, "openid") { NoEmptyScope(scope); }
    NothingRequested(scope);
  }

  lemma NothingRequested(scope: Option<string>)
    ensures !Requests(scope, "")
  {}

  lemma NoEmptyScope(scope: Option<string>)
    requires Requests(scope, "openid")
    ensures "" !in RequestedScopes(scope)
  {
    hide SplitSpaces, Trim;
    var text := Trim(scope.value);
    if text == "" {
      NothingNamed("openid");
      assert false;
    }
    SplitSpacesOfTrimmed(text);
  }

  /** A request is accepted exactly when it presents everything it must. */
  lemma AcceptedExactlyWhen(p: Platform, input: SearchParams)
    ensures ParseRequest(p, input).Success? <==> Acceptable(p, input)
  {
    hide RequestedScopes, AllSupported, Requests, ReadParam;
    ScopesAccepted(ReadParam(input, "scope"));
  }

  /** The error of a request that is not acceptable: the first parameter that is wrong decides. */
  ghost function Refusal(p: Platform, input: SearchParams): string {
    var scope := ReadParam(input, "scope");
    if ReadParam(input, "response_type") != Some("code") then "unsupported_response_type"
    else if ReadParam(input, "client_id") != Some("scim-demo-client") then "unauthorized_client"
    else if ReadParam(input, "redirect_uri") != Some(p.RedirectUri()) then "invalid_request"
    else if Requests(scope, "openid")
            && forall word | Requests(scope, word) :: word in ["openid", "email", "profile"] then
      "invalid_request"
    else "invalid_scope"
  }

  lemma RefusedAs(p: Platform, input: SearchParams)
    requires !Acceptable(p, input)
    ensures ParseRequest(p, input) == Failure(OidcError(Refusal(p, input), 400))
  {
    hide RequestedScopes, AllSupported, Requests, ReadParam, IsPkceValue;
    ScopesAccepted(ReadParam(input, "scope"));
  }

  /** The scopes to grant, in their one order. */
  ghost function Granted(scope: Option<string>): string {
    "openid" + (if Requests(scope, "email") then " email" else "")
    + (if Requests(scope, "profile") then " profile" else "")
  }

  /** What an accepted request says, parameter by parameter. */
  lemma AcceptedAsPresented(p: Platform, input: SearchParams)
    requires ParseRequest(p, input).Success?
    ensures ParseRequest(p, input).value ==
            AuthorizationRequest(CLIENT_ID, ReadParam(input, "code_challenge").value,
                                 NonEmpty(ReadParam(input, "login_hint")), NonEmpty(ReadParam(input, "nonce")),
                                 p.RedirectUri(), Granted(ReadParam(input, "scope")), ReadParam(input, "state").value)
  {
    hide RequestedScopes, AllSupported, Requests, ReadParam;
    var scope := ReadParam(input, "scope");
    RequestedMeans(scope, "email");
    RequestedMeans(scope, "profile");
    SupportedInOrder(RequestedScopes(scope));
  }

  lemma SupportedInOrder(requested: seq<string>)
    requires "openid" in requested
    ensures Join(Supported(SCOPES, requested), " ")
         == "openid" + (if "email" in requested then " email" else "")
            + (if "profile" in requested then " profile" else "")
  {
    var email := if "email" in requested then ["email"] else [];
    var profile := if "profile" in requested then ["profile"] else [];
    assert Supported([], requested) == [];
    assert SCOPES[1..] == ["email", "profile"] && SCOPES[1..][1..] == ["profile"] && ["profile"][1..] == [];
    assert Supported(["profile"], requested) == profile;
    assert Supported(["email", "profile"], requested) == email + profile;
    assert Supported(SCOPES, requested) == ["openid"] + (email + profile);
    if email + profile != [] {
      JoinCons("openid", email + profile, " ");
      if email != [] && profile != [] {
        JoinCons("email", ["profile"], " ");
      }
    }
  }
}
