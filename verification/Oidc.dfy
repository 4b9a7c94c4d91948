/** Issuing authorization codes and exchanging them for ID tokens (sections 4.1.2 and 4.1.3 of
    RFC 6749, sections 4.4 to 4.6 of RFC 7636). */
module Oidc {
  import opened Wrappers
  import opened Json
  import opened Platform
  import opened Identity
  import opened VerificationStore
  import opened OidcRequest
  import opened Employee

  const CODE_PREFIX := "scim-demo:oidc:code:"
  const CODE_TTL_MS := 2 * 60 * 1_000
  const TOKEN_TTL_SECONDS := 5 * 60

  datatype AuthorizationCode = AuthorizationCode(
    clientId: string, codeChallenge: string, connectionId: string, email: string, name: string,
    nonce: Option<string>, redirectUri: string, scope: string, subject: string, userKey: string)

  function EncodeCode(r: AuthorizationCode): JsonText {
    Spells(Object(map[
      "clientId" := String(r.clientId), "codeChallenge" := String(r.codeChallenge),
      "connectionId" := String(r.connectionId), "email" := String(r.email), "name" := String(r.name),
      "nonce" := if r.nonce.Some? then String(r.nonce.value) else Null,
      "redirectURI" := String(r.redirectUri), "scope" := String(r.scope),
      "subject" := String(r.subject), "userKey" := String(r.userKey)]))
  }

  function DecodeCode(text: JsonText): Option<AuthorizationCode> {
    if text.NotJson? || !text.value.Object? then None else
    var v := text.value;
    var clientId, codeChallenge := GetString(v, "clientId"), GetString(v, "codeChallenge");
    var connectionId, email := GetString(v, "connectionId"), GetString(v, "email");
    var name, redirectUri := GetString(v, "name"), GetString(v, "redirectURI");
    var scope, subject := GetString(v, "scope"), GetString(v, "subject");
    var userKey, nonce := GetString(v, "userKey"), GetString(v, "nonce");
    if || clientId.None? || codeChallenge.None? || connectionId.None? || email.None? || name.None?
       || redirectUri.None? || scope.None? || subject.None?
       || (nonce.None? && !IsNull(Get(v, "nonce")))
       || userKey.None? || userKey.value !in USER_KEYS
    then None
    else Some(AuthorizationCode(clientId.value, codeChallenge.value, connectionId.value, email.value, name.value,
                                nonce, redirectUri.value, scope.value, subject.value, userKey.value))
  }

  lemma CodeReadsBack(r: AuthorizationCode)
    ensures DecodeCode(EncodeCode(r)) == if r.userKey in USER_KEYS then Some(r) else None
  {
    ClientFieldsReadBack(r);
    UserFieldsReadBack(r);
    RequestFieldsReadBack(r);
  }

  /** A text decodes to a code exactly when it spells an object that holds all the code's fields, of a known
      user; whatever else the object holds does not matter. */
  lemma DecodedExactlyWhen(text: JsonText, r: AuthorizationCode)
    ensures DecodeCode(text) == Some(r) <==>
            && text.Spells? && text.value.Object? && r.userKey in USER_KEYS
            && HoldsAll(text.value.fields, EncodeCode(r).value.fields)
  {
    hide EncodeCode;
    CodeHasFields(r);
    ClientFieldsReadBack(r);
    UserFieldsReadBack(r);
    RequestFieldsReadBack(r);
    var fields := EncodeCode(r).value.fields;
    if text.Spells? && text.value.Object? {
      assert HoldsAll(text.value.fields, fields) <==>
             forall key | key in CODE_FIELDS :: key in text.value.fields && text.value.fields[key] == fields[key];
      CodeFieldsListed();
    }
  }

  const CODE_FIELDS: set<string> :=
    {"clientId", "codeChallenge", "connectionId", "email", "name", "nonce", "redirectURI", "scope", "subject",
     "userKey"}

  lemma CodeHasFields(r: AuthorizationCode)
    ensures EncodeCode(r).Spells? && EncodeCode(r).value.Object? && EncodeCode(r).value.fields.Keys == CODE_FIELDS
  {}

  lemma CodeFieldsListed()
    ensures "clientId" in CODE_FIELDS && "codeChallenge" in CODE_FIELDS && "connectionId" in CODE_FIELDS
    ensures "email" in CODE_FIELDS && "name" in CODE_FIELDS && "nonce" in CODE_FIELDS && "redirectURI" in CODE_FIELDS
    ensures "scope" in CODE_FIELDS && "subject" in CODE_FIELDS && "userKey" in CODE_FIELDS
  {}

  lemma ClientFieldsReadBack(r: AuthorizationCode)
    ensures var v := EncodeCode(r).value;
            && GetString(v, "clientId") == Some(r.clientId)
            && GetString(v, "codeChallenge") == Some(r.codeChallenge)
            && GetString(v, "connectionId") == Some(r.connectionId)
            && GetString(v, "redirectURI") == Some(r.redirectUri)
  {
    CodeKeysDiffer();
  }

  lemma UserFieldsReadBack(r: AuthorizationCode)
    ensures var v := EncodeCode(r).value;
            && GetString(v, "email") == Some(r.email)
            && GetString(v, "subject") == Some(r.subject)
            && GetString(v, "userKey") == Some(r.userKey)
  {
    CodeKeysDiffer();
  }

  lemma RequestFieldsReadBack(r: AuthorizationCode)
    ensures var v := EncodeCode(r).value;
            && GetString(v, "name") == Some(r.name)
            && GetString(v, "scope") == Some(r.scope)
            && GetString(v, "nonce") == r.nonce
            && (r.nonce.None? ==> IsNull(Get(v, "nonce")))
  {
    CodeKeysDiffer();
  }

  lemma CodeKeysDiffer()
    ensures |"clientId"| == 8 && |"codeChallenge"| == 13 && |"connectionId"| == 12 && |"name"| == 4
    ensures |"email"| == 5 && |"nonce"| == 5 && |"scope"| == 5 && |"redirectURI"| == 11
    ensures |"subject"| == 7 && |"userKey"| == 7
    ensures "email"[0] == 'e' && "nonce"[0] == 'n' && "scope"[0] == 's' && "subject"[0] == 's' && "userKey"[0] == 'u'
  {}

  /** The bitwise operators on numbers that fit their width. */
  function BitXor(a: nat, b: nat): nat {
    if a == 0 && b == 0 then 0 else 2 * BitXor(a / 2, b / 2) + (a + b) % 2
  }

  function BitOr(a: nat, b: nat): nat {
    if a == 0 && b == 0 then 0 else 2 * BitOr(a / 2, b / 2) + (if a % 2 == 1 || b % 2 == 1 then 1 else 0)
  }

  lemma {:induction false} XorIsZero(a: nat, b: nat)
    ensures BitXor(a, b) == 0 <==> a == b
  {
    if a != 0 || b != 0 {
      XorIsZero(a / 2, b / 2);
    }
  }

  lemma {:induction false} OrIsZero(a: nat, b: nat)
    ensures BitOr(a, b) == 0 <==> a == 0 && b == 0
  {
    if a != 0 || b != 0 {
      OrIsZero(a / 2, b / 2);
    }
  }

  function ByteAt(bytes: seq<Byte>, i: nat): Byte { if i < |bytes| then bytes[i] else 0 }

  /** Compares without stopping at the first difference, for equal and unequal lengths. */
  method SecretsMatch(left: seq<Byte>, right: seq<Byte>) returns (same: bool)
    ensures same <==> left == right
  {
    var difference := BitXor(|left|, |right|);
    XorIsZero(|left|, |right|);
    var length := if |left| < |right| then |right| else |left|;
    for index := 0 to length
      invariant difference == 0 <==>
                |left| == |right| && forall i | 0 <= i < index :: ByteAt(left, i) == ByteAt(right, i)
    {
      var next := BitXor(ByteAt(left, index), ByteAt(right, index));
      XorIsZero(ByteAt(left, index), ByteAt(right, index));
      OrIsZero(difference, next);
      difference := BitOr(difference, next);
    }
    same := difference == 0;
    assert same ==> forall i | 0 <= i < |left| :: left[i] == ByteAt(left, i) == ByteAt(right, i) == right[i];
  }

  /** The request that a client sends back to: the redirect carries the code and the state. */
  datatype Callback = Callback(redirectUri: string, code: string, state: string)

  function CodeIdentifier(code: string): string { CODE_PREFIX + code }

  /** What is recorded for a code when it is issued. */
  function CodeRecord(request: AuthorizationRequest, i: EmployeeIdentity, name: string): AuthorizationCode {
    AuthorizationCode(request.clientId, request.codeChallenge, i.connectionId, i.email, name,
                      request.nonce, request.redirectUri, request.scope, i.subject, i.userKey)
  }

  /** Whether an identity may be issued a code for a request, and what is then recorded. */
  function AuthorizeRequest(p: Platform, params: SearchParams, i: EmployeeIdentity)
    : Result<(AuthorizationRequest, AuthorizationCode), OidcError>
  {
    match ParseRequest(p, params)
    case Failure(error) => Failure(error)
    case Success(request) =>
      if ResolveSubject(p, i.connectionId, i.subject) != Some(i.userKey) then
        Failure(OidcError("access_denied", 400))
      else
        match DisplayName(i.userKey)
        case None => Failure(OidcError("access_denied", 400))
        case Some(name) => Success((request, CodeRecord(request, i, name)))
  }

  function IssueCode(p: Platform, rows: Rows, now: int, params: SearchParams, i: EmployeeIdentity, code: string)
    : Turn<Result<Callback, OidcError>>
  {
    match AuthorizeRequest(p, params, i)
    case Failure(error) => Turn(Failure(error), rows)
    case Success((request, record)) =>
      Turn(Success(Callback(request.redirectUri, code, request.state)),
           rows[CodeIdentifier(code) := Row(EncodeCode(record), now + CODE_TTL_MS)])
  }

  datatype IdTokenClaims = IdTokenClaims(
    issuer: string, audience: string, subject: string, connectionId: string, email: string, name: string,
    nonce: Option<string>)

  datatype TokenResponse = TokenResponse(accessToken: string, expiresIn: int, idToken: IdTokenClaims, scope: string)

  /** The part of a token request that is checked before the store is touched. */
  datatype Redemption = Redemption(code: string, redirectUri: string, verifier: string)

  function Given(form: seq<(string, string)>, name: string): string { OrEmpty(First(form, name)) }

  function CheckForm(p: Platform, form: seq<(string, string)>): Result<Redemption, OidcError> {
    var code, redirectUri, verifier := Given(form, "code"), Given(form, "redirect_uri"), Given(form, "code_verifier");
    var secret := Given(form, "client_secret");
    if First(form, "grant_type") != Some("authorization_code") then Failure(OidcError("unsupported_grant_type", 400))
    else if First(form, "client_id") != Some(CLIENT_ID) then Failure(OidcError("invalid_client", 401))
    else if secret == "" || p.utf8(secret) != p.utf8(p.clientSecret) then Failure(OidcError("invalid_client", 401))
    else if code == "" || redirectUri == "" || verifier == "" then Failure(OidcError("invalid_request", 400))
    else if !IsPkceValue(verifier) then Failure(OidcError("invalid_grant", 400))
    else Success(Redemption(code, redirectUri, verifier))
  }

  /** What a token request must present: the grant, the client with the bytes of its secret, a code, a
      redirect URI and a verifier of the right shape; of repeated fields the first one counts. */
  predicate Presents(p: Platform, form: seq<(string, string)>) {
    && First(form, "grant_type") == Some("authorization_code") && First(form, "client_id") == Some(CLIENT_ID)
    && HasText(First(form, "client_secret")) && p.utf8(First(form, "client_secret").value) == p.utf8(p.clientSecret)
    && HasText(First(form, "code")) && HasText(First(form, "redirect_uri"))
    && HasText(First(form, "code_verifier")) && IsPkceValue(First(form, "code_verifier").value)
  }

  /** The form is let through exactly when it presents everything, and what it presents is then used. */
  lemma LetThroughExactlyWhen(p: Platform, form: seq<(string, string)>)
    ensures CheckForm(p, form).Success? <==> Presents(p, form)
    ensures Presents(p, form) ==>
              CheckForm(p, form).value
              == Redemption(First(form, "code").value, First(form, "redirect_uri").value,
                            First(form, "code_verifier").value)
  {
    hide IsPkceValue;
  }

  /** The refusal before the store is touched: the first thing that is wrong decides. */
  function RefusalOf(p: Platform, form: seq<(string, string)>): OidcError {
    var secret := First(form, "client_secret");
    if First(form, "grant_type") != Some("authorization_code") then OidcError("unsupported_grant_type", 400)
    else if First(form, "client_id") == Some("scim-demo-client") && HasText(secret)
            && p.utf8(secret.value) == p.utf8(p.clientSecret) then
      if HasText(First(form, "code")) && HasText(First(form, "redirect_uri"))
         && HasText(First(form, "code_verifier")) then
        OidcError("invalid_grant", 400)
      else OidcError("invalid_request", 400)
    else OidcError("invalid_client", 401)
  }

  lemma RefusedFor(p: Platform, form: seq<(string, string)>)
    requires !Presents(p, form)
    ensures CheckForm(p, form) == Failure(RefusalOf(p, form))
  {
    hide IsPkceValue;
  }

  /** A row that answers a token request: unexpired, and recorded for this client, for the presented
      redirect URI, which is the deployment's own, and for the hash of the presented verifier. */
  predicate Answers(p: Platform, rows: Rows, now: int, form: seq<(string, string)>)
    requires Presents(p, form)
  {
    var id := CodeIdentifier(First(form, "code").value);
    && id in rows && now <= rows[id].expiresAt
    && DecodeCode(rows[id].value).Some?
    && var record := DecodeCode(rows[id].value).value;
    && record.clientId == CLIENT_ID && record.redirectUri == First(form, "redirect_uri").value == p.RedirectUri()
    && p.utf8(p.s256(First(form, "code_verifier").value)) == p.utf8(record.codeChallenge)
  }

  /** An attempt reaches the store exactly when it presents everything: it then takes the code's row,
      and otherwise changes nothing. It succeeds exactly when that row answers it, with what was recorded. */
  lemma ExchangedExactlyWhen(p: Platform, rows: Rows, now: int, form: seq<(string, string)>, accessToken: string)
    ensures var turn := ExchangeCode(p, rows, now, form, accessToken);
            && turn.rows == (if Presents(p, form) then rows - {CodeIdentifier(First(form, "code").value)} else rows)
            && (turn.result.Success? <==> Presents(p, form) && Answers(p, rows, now, form))
            && (!Presents(p, form) ==> turn.result == Failure(RefusalOf(p, form)))
            && (Presents(p, form) && !Answers(p, rows, now, form) ==>
                  turn.result == Failure(OidcError("invalid_grant", 400)))
            && (turn.result.Success? ==>
                  var record := DecodeCode(rows[CodeIdentifier(First(form, "code").value)].value).value;
                  turn.result.value == TokenResponse(
                    accessToken, 300,
                    IdTokenClaims(p.Issuer(), CLIENT_ID, record.subject, record.connectionId, record.email, record.name,
                                  NonEmpty(record.nonce)),
                    record.scope))
  {
    hide CheckForm, Presents, DecodeCode, CodeIdentifier, RefusalOf;
    LetThroughExactlyWhen(p, form);
    if Presents(p, form) { PresentedTexts(p, form); } else { RefusedFor(p, form); }
  }

  lemma PresentedTexts(p: Platform, form: seq<(string, string)>)
    requires Presents(p, form)
    ensures First(form, "code").Some? && First(form, "redirect_uri").Some? && First(form, "code_verifier").Some?
  {}

  /** What a consumed row is worth to the one who presents a redirect URI and a verifier. */
  function Redeem(p: Platform, value: Option<JsonText>, r: Redemption, accessToken: string)
    : Result<TokenResponse, OidcError>
  {
    if value.None? then Failure(OidcError("invalid_grant", 400)) else
    match DecodeCode(value.value)
    case None => Failure(OidcError("invalid_grant", 400))
    case Some(record) =>
      if || record.clientId != CLIENT_ID || record.redirectUri != r.redirectUri
         || r.redirectUri != p.RedirectUri()
         || p.utf8(p.s256(r.verifier)) != p.utf8(record.codeChallenge)
      then Failure(OidcError("invalid_grant", 400))
      else
        var idToken := IdTokenClaims(p.Issuer(), CLIENT_ID, record.subject, record.connectionId, record.email,
                                     record.name, NonEmpty(record.nonce));
        Success(TokenResponse(accessToken, TOKEN_TTL_SECONDS, idToken, record.scope))
  }

  function ExchangeCode(p: Platform, rows: Rows, now: int, form: seq<(string, string)>, accessToken: string)
    : Turn<Result<TokenResponse, OidcError>>
  {
    match CheckForm(p, form)
    case Failure(error) => Turn(Failure(error), rows)
    case Success(r) =>
      var identifier := CodeIdentifier(r.code);
      Turn(Redeem(p, Consumable(rows, identifier, now), r, accessToken), rows - {identifier})
  }

  /** A code is issued exactly for an acceptable request by a user whose subject is that user's own. */
  lemma IssuedExactlyWhen(p: Platform, params: SearchParams, i: EmployeeIdentity)
    ensures AuthorizeRequest(p, params, i).Success? <==>
            Acceptable(p, params) && ResolveSubject(p, i.connectionId, i.subject) == Some(i.userKey)
    ensures AuthorizeRequest(p, params, i).Success? ==>
              && AuthorizeRequest(p, params, i).value.0.redirectUri == p.RedirectUri()
              && ReadParam(params, "state") == Some(AuthorizeRequest(p, params, i).value.0.state)
    ensures AuthorizeRequest(p, params, i).Failure? ==>
              AuthorizeRequest(p, params, i).error
              == OidcError(if Acceptable(p, params) then "access_denied" else Refusal(p, params), 400)
  {
    hide ParseRequest, Acceptable, ResolveSubject, Refusal;
    AcceptedExactlyWhen(p, params);
    if !Acceptable(p, params) { RefusedAs(p, params); }
    if ParseRequest(p, params).Success? {
      AcceptedAsPresented(p, params);
      StateIsPresented(p, params);
    }
    if ResolveSubject(p, i.connectionId, i.subject) == Some(i.userKey) {
      ResolvedIsKnown(p, i);
    }
  }

  lemma StateIsPresented(p: Platform, params: SearchParams)
    requires Acceptable(p, params)
    ensures ReadParam(params, "state").Some?
  {}

  lemma ResolvedIsKnown(p: Platform, i: EmployeeIdentity)
    requires ResolveSubject(p, i.connectionId, i.subject) == Some(i.userKey)
    ensures DisplayName(i.userKey).Some?
  {
    FindUserFinds(p, i.connectionId, i.subject, USER_KEYS);
  }

  method IssueAuthorizationCode(p: Platform, store: Store, now: int, params: SearchParams, i: EmployeeIdentity,
                                code: string)
    returns (callback: Result<Callback, OidcError>)
    modifies store
    ensures Turn(callback, store.rows) == IssueCode(p, old(store.rows), now, params, i, code)
    ensures callback.Success? <==>
            Acceptable(p, params) && ResolveSubject(p, i.connectionId, i.subject) == Some(i.userKey)
    ensures callback.Success? ==> callback.value == Callback(p.RedirectUri(), code, ReadParam(params, "state").value)
    ensures callback.Failure? ==> store.rows == old(store.rows)
  {
    IssuedExactlyWhen(p, params, i);
    hide AuthorizeRequest, Acceptable, EncodeCode;
    var authorized := AuthorizeRequest(p, params, i);
    if authorized.Failure? {
      return Failure(authorized.error);
    }
    var (request, record) := authorized.value;
    store.CreateVerificationValue(CodeIdentifier(code), EncodeCode(record), now + CODE_TTL_MS);
    callback := Success(Callback(request.redirectUri, code, request.state));
  }

  method ExchangeAuthorizationCode(p: Platform, store: Store, now: int, form: seq<(string, string)>,
                                   accessToken: string)
    returns (response: Result<TokenResponse, OidcError>)
    modifies store
    ensures Turn(response, store.rows) == ExchangeCode(p, old(store.rows), now, form, accessToken)
    ensures store.rows
            == if Presents(p, form) then old(store.rows) - {CodeIdentifier(First(form, "code").value)}
               else old(store.rows)
    ensures response.Success? <==> Presents(p, form) && Answers(p, old(store.rows), now, form)
  {
    ExchangedExactlyWhen(p, store.rows, now, form, accessToken);
    hide Presents, Answers, DecodeCode, IsPkceValue;
    if First(form, "grant_type") != Some("authorization_code") {
      return Failure(OidcError("unsupported_grant_type", 400));
    }
    if First(form, "client_id") != Some(CLIENT_ID) {
      return Failure(OidcError("invalid_client", 401));
    }
    var secret := Given(form, "client_secret");
    if secret == "" {
      return Failure(OidcError("invalid_client", 401));
    }
    var known := SecretsMatch(p.utf8(secret), p.utf8(p.clientSecret));
    if !known {
      return Failure(OidcError("invalid_client", 401));
    }
    var code, redirectUri, verifier := Given(form, "code"), Given(form, "redirect_uri"), Given(form, "code_verifier");
    if code == "" || redirectUri == "" || verifier == "" {
      return Failure(OidcError("invalid_request", 400));
    }
    if !IsPkceValue(verifier) {
      return Failure(OidcError("invalid_grant", 400));
    }
    var value := store.ConsumeVerificationValue(CodeIdentifier(code), now);
    if value.None? {
      return Failure(OidcError("invalid_grant", 400));
    }
    var decoded := DecodeCode(value.value);
    if decoded.None? {
      return Failure(OidcError("invalid_grant", 400));
    }
    var record := decoded.value;
    if record.clientId != CLIENT_ID || record.redirectUri != redirectUri || redirectUri != p.RedirectUri() {
      return Failure(OidcError("invalid_grant", 400));
    }
    var verified := SecretsMatch(p.utf8(p.s256(verifier)), p.utf8(record.codeChallenge));
    if !verified {
      return Failure(OidcError("invalid_grant", 400));
    }
    var idToken := IdTokenClaims(p.Issuer(), CLIENT_ID, record.subject, record.connectionId, record.email,
                                 record.name, NonEmpty(record.nonce));
    response := Success(TokenResponse(accessToken, TOKEN_TTL_SECONDS, idToken, record.scope));
  }

  /** A recorded code is redeemed exactly for the redirect URI of the deployment and for a verifier
      that hashes to the recorded challenge, and then yields what was recorded. */
  lemma RedeemedAsRecorded(p: Platform, params: SearchParams, i: EmployeeIdentity, r: Redemption, accessToken: string)
    requires Sound(p) && AuthorizeRequest(p, params, i).Success?
    ensures var (request, record) := AuthorizeRequest(p, params, i).value;
            Redeem(p, Some(EncodeCode(record)), r, accessToken) ==
              if r.redirectUri == p.RedirectUri() && p.s256(r.verifier) == request.codeChallenge then
                Success(TokenResponse(
                  accessToken, TOKEN_TTL_SECONDS,
                  IdTokenClaims(p.Issuer(), CLIENT_ID, i.subject, i.connectionId, i.email,
                                DisplayName(i.userKey).value, request.nonce),
                  request.scope))
              else Failure(OidcError("invalid_grant", 400))
  {
    hide EncodeCode, DecodeCode, AuthorizeRequest, IsPkceValue;
    var (request, record) := AuthorizeRequest(p, params, i).value;
    AuthorizedFacts(p, params, i);
    CodeReadsBack(record);
    HashIsPkceValue(p.s256(r.verifier));
  }

  lemma HashIsPkceValue(hash: string)
    requires IsBase64Url43(hash)
    ensures IsPkceValue(hash)
  {}

  /** What an authorized request is known to say, and what is recorded for it. */
  lemma AuthorizedFacts(p: Platform, params: SearchParams, i: EmployeeIdentity)
    requires AuthorizeRequest(p, params, i).Success?
    ensures var (request, record) := AuthorizeRequest(p, params, i).value;
            && IsPkceValue(request.codeChallenge) && request.nonce != Some("")
            && request.clientId == CLIENT_ID && request.redirectUri == p.RedirectUri()
            && i.userKey in USER_KEYS && DisplayName(i.userKey).Some?
            && record == CodeRecord(request, i, DisplayName(i.userKey).value)
  {
    FindUserFinds(p, i.connectionId, i.subject, USER_KEYS);
  }
}
