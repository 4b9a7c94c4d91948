/** An undisturbed sign-in goes through: what the safety claims forbid leaves room for what the flow
    is for. */
module SignInCompletes {
  import opened Wrappers
  import opened Platform
  import opened Identity
  import opened Directory
  import opened VerificationStore
  import opened OidcRequest
  import opened Employee
  import opened Oidc
  import opened SignIn

  /** A narrower search that the first find of a wider one also meets finds the same row. */
  lemma {:induction false} NarrowerSearch<T>(rows: seq<T>, wide: T -> bool, narrow: T -> bool)
    requires forall row | row in rows && narrow(row) :: wide(row)
    requires FindOne(rows, wide).Some? && narrow(FindOne(rows, wide).value)
    ensures FindOne(rows, narrow) == FindOne(rows, wide)
  {
    if !wide(rows[0]) {
      assert rows[0] in rows;
      NarrowerSearch(rows[1..], wide, narrow);
    }
  }

  /** Two searches whose finds each meet the other one's condition find the same row. */
  lemma {:induction false} SearchesMeet<T>(rows: seq<T>, one: T -> bool, other: T -> bool)
    requires FindOne(rows, one).Some? && FindOne(rows, other).Some?
    requires other(FindOne(rows, one).value) && one(FindOne(rows, other).value)
    ensures FindOne(rows, one) == FindOne(rows, other)
  {
    if !one(rows[0]) && !other(rows[0]) {
      SearchesMeet(rows[1..], one, other);
    }
  }

  function Acquired(p: Platform, d: Directory, organizationId: string, scimUserId: string): Option<EmployeeIdentity> {
    match AcquireIdentity(p, d, organizationId, scimUserId)
    case Success(found) => found
    case Failure(_) => None
  }

  /** An acquired identity is still valid while the directory does not change. */
  lemma AcquiredIsValid(p: Platform, d: Directory, organizationId: string, scimUserId: string)
    requires Acquired(p, d, organizationId, scimUserId).Some?
    ensures ValidateIdentity(d, p, Acquired(p, d, organizationId, scimUserId).value)
         == Acquired(p, d, organizationId, scimUserId)
  {
    hide ResolveSubject;
    var i := Acquired(p, d, organizationId, scimUserId).value;
    NarrowerSearch(d.sources, (s: Source) => s.id == scimUserId && s.active, (s: Source) =>
        s.id == i.scimUserId && s.connectionId == i.connectionId && s.userId == i.userId
        && s.externalId == Some(i.subject) && s.active);
  }

  /** It can be linked, too. */
  lemma AcquiredLinks(p: Platform, d: Directory, organizationId: string, scimUserId: string)
    requires Acquired(p, d, organizationId, scimUserId).Some?
    ensures var i := Acquired(p, d, organizationId, scimUserId).value;
            LinkSubject(p, d, i.connectionId, i.subject)
            == SsoOutcome(LinkUser(i.userId), Some(LinkReference(i.connectionId, i.subject)))
  {
    var i := Acquired(p, d, organizationId, scimUserId).value;
    SearchesMeet(d.sources, (s: Source) => s.id == scimUserId && s.active, (s: Source) =>
        s.connectionId == i.connectionId && s.externalId == Some(i.subject) && s.active);
  }

  lemma GrantOpens(p: Platform, d: Directory, rows: Rows, now: int, token: string, i: EmployeeIdentity, expiry: int)
    requires Sound(p) && i.userKey in USER_KEYS && ValidateIdentity(d, p, i) == Some(i)
    requires Identifier(p, Access, token) in rows
             && rows[Identifier(p, Access, token)] == TokenRow(p, i, Access, expiry)
    requires now < expiry
    ensures GrantedIdentity(p, d, rows, now, token) == Some(i)
  {
    hide Encode, Parse, Identifier, ValidateIdentity, Sound;
    RecordsReadBack(p, EmployeeRecord(i, Access, p.isoDate(expiry)), expiry, Access, now);
  }

  lemma PortalShows(p: Platform, d: Directory, rows: Rows, now: int, token: string, i: EmployeeIdentity, expiry: int)
    requires Sound(p) && i.userKey in USER_KEYS && ValidateIdentity(d, p, i) == Some(i) && IsBase64Url43(token)
    requires Identifier(p, Portal, token) in rows
             && rows[Identifier(p, Portal, token)] == TokenRow(p, i, Portal, expiry)
    requires now < expiry && FindOne(d.users, (u: User) => u.id == i.userId).Some?
    ensures FindPortalIdentity(p, d, rows, now, token).result.Some?
    ensures FindPortalIdentity(p, d, rows, now, token).result.value.identity == i
  {
    hide Encode, Parse, Identifier, ValidateIdentity, Sound, IsBase64Url43;
    RecordsReadBack(p, EmployeeRecord(i, Portal, p.isoDate(expiry)), expiry, Portal, now);
  }

  lemma ValidHasUser(p: Platform, d: Directory, i: EmployeeIdentity)
    requires ValidateIdentity(d, p, i).Some?
    ensures FindOne(d.users, (u: User) => u.id == i.userId).Some?
    ensures ResolveSubject(p, i.connectionId, i.subject) == Some(i.userKey) && i.userKey in USER_KEYS
    ensures DisplayName(i.userKey).Some?
  {
    FindUserFinds(p, i.connectionId, i.subject, USER_KEYS);
  }

  /** From granting access to showing the identity, within the two lifetimes. */
  lemma GrantLeadsToIdentity(p: Platform, d: Directory, rows: Rows, organizationId: string, scimUserId: string,
                             token: string, portalToken: string, granted: int, entered: int, shown: int)
    requires Sound(p) && Acquired(p, d, organizationId, scimUserId).Some?
    requires IsBase64Url43(token) && IsBase64Url43(portalToken)
    requires entered < granted + ACCESS_TTL_MS && shown < entered + PORTAL_TTL_MS
    ensures var grant := CreateGrant(p, d, rows, granted, organizationId, scimUserId, token);
            var portal := ConsumeGrant(p, d, grant.rows, entered, token, portalToken);
            var found := FindPortalIdentity(p, d, portal.rows, shown, portalToken).result;
            && grant.result == Success(Some(token)) && portal.result == Some(portalToken)
            && found.Some? && Some(found.value.identity) == Acquired(p, d, organizationId, scimUserId)
  {
    hide Identifier, ValidateIdentity, Sound, IsBase64Url43, AcquireIdentity, TokenRow, GrantedIdentity,
         FindPortalIdentity;
    var i := Acquired(p, d, organizationId, scimUserId).value;
    AcquiredIsValid(p, d, organizationId, scimUserId);
    ValidHasUser(p, d, i);
    var grant := CreateGrant(p, d, rows, granted, organizationId, scimUserId, token);
    GrantOpens(p, d, grant.rows, entered, token, i, granted + ACCESS_TTL_MS);
    var portal := ConsumeGrant(p, d, grant.rows, entered, token, portalToken);
    PortalShows(p, d, portal.rows, shown, portalToken, i, entered + PORTAL_TTL_MS);
  }

  /** From the shown identity to the ID token, within the lifetime of the code. */
  lemma IdentityLeadsToToken(p: Platform, rows: Rows, i: EmployeeIdentity, params: SearchParams,
                             form: seq<(string, string)>, r: Redemption, code: string, accessToken: string,
                             issued: int, redeemed: int)
    requires Sound(p) && AuthorizeRequest(p, params, i).Success?
    requires CheckForm(p, form) == Success(r) && r.code == code && r.redirectUri == p.RedirectUri()
    requires p.s256(r.verifier) == AuthorizeRequest(p, params, i).value.0.codeChallenge
    requires redeemed <= issued + CODE_TTL_MS
    ensures var callback := IssueCode(p, rows, issued, params, i, code);
            var response := ExchangeCode(p, callback.rows, redeemed, form, accessToken).result;
            && callback.result.Success? && response.Success?
            && response.value.idToken.issuer == p.Issuer()
            && response.value.idToken.connectionId == i.connectionId && response.value.idToken.subject == i.subject
  {
    hide Sound, AuthorizeRequest, CheckForm, EncodeCode, Redeem, CodeIdentifier;
    RedeemedAsRecorded(p, params, i, r, accessToken);
  }

  /** If an administrator can grant access to an employee, and the request and the token request are
      well formed and belong together, then a sign-in that keeps its time limits ends by linking
      exactly that employee's user. */
  lemma UndisturbedSignInLinksTheEmployee(
      p: Platform, d: Directory, rows: Rows, organizationId: string, scimUserId: string,
      token: string, portalToken: string, params: SearchParams, form: seq<(string, string)>, accessToken: string,
      granted: int, entered: int, shown: int, issued: int, redeemed: int)
    requires Sound(p) && Acquired(p, d, organizationId, scimUserId).Some?
    requires IsBase64Url43(token) && IsBase64Url43(portalToken)
    requires ParseRequest(p, params).Success? && CheckForm(p, form).Success?
    requires CheckForm(p, form).value.redirectUri == p.RedirectUri()
    requires p.s256(CheckForm(p, form).value.verifier) == ParseRequest(p, params).value.codeChallenge
    requires entered < granted + ACCESS_TTL_MS && shown < entered + PORTAL_TTL_MS && redeemed <= issued + CODE_TTL_MS
    ensures var grant := CreateGrant(p, d, rows, granted, organizationId, scimUserId, token);
            var portal := ConsumeGrant(p, d, grant.rows, entered, token, portalToken);
            var found := FindPortalIdentity(p, d, portal.rows, shown, portalToken);
            found.result.Some? &&
            var code := CheckForm(p, form).value.code;
            var callback := IssueCode(p, found.rows, issued, params, found.result.value.identity, code);
            var response := ExchangeCode(p, callback.rows, redeemed, form, accessToken).result;
            && response.Success?
            && ResolveSsoUser(p, d, InputOf(response.value.idToken, SSO_PROVIDER_ID, true)).decision
               == LinkUser(Acquired(p, d, organizationId, scimUserId).value.userId)
  {
    hide Sound, ParseRequest, CheckForm, CreateGrant, ConsumeGrant, FindPortalIdentity, IssueCode, ExchangeCode,
         LinkSubject, AcquireIdentity, IsBase64Url43, ResolveSubject, ValidateIdentity;
    var i := Acquired(p, d, organizationId, scimUserId).value;
    GrantLeadsToIdentity(p, d, rows, organizationId, scimUserId, token, portalToken, granted, entered, shown);
    var grant := CreateGrant(p, d, rows, granted, organizationId, scimUserId, token);
    var portal := ConsumeGrant(p, d, grant.rows, entered, token, portalToken);
    var found := FindPortalIdentity(p, d, portal.rows, shown, portalToken);
    AcquiredIsValid(p, d, organizationId, scimUserId);
    ValidHasUser(p, d, i);
    var r := CheckForm(p, form).value;
    IdentityLeadsToToken(p, found.rows, i, params, form, r, r.code, accessToken, issued, redeemed);
    AcquiredLinks(p, d, organizationId, scimUserId);
  }

  // A sign-in among others.

  /** The event neither presents nor drops the row of an identifier: look-ups come before it expires. */
  ghost predicate LeavesRow(p: Platform, s: System, e: Event, id: string) {
    match e
    case OpenPortal(_, token, _) => IsBase64Url43(token) ==> Identifier(p, Access, token) != id
    case ShowIdentity(now, _) => id in s.rows ==> now <= s.rows[id].expiresAt
    case RequestToken(_, form, _) =>
      CheckForm(p, form).Success? ==> CodeIdentifier(CheckForm(p, form).value.code) != id
    case UseStore(rows) => id in rows
    case _ => true
  }

  lemma RowSurvivesGrant(p: Platform, s: System, e: Event, id: string)
    requires Sound(p) && GrantsHold(p, s.rows, s.ledger.access) && Enabled(p, s, e) && e.GrantAccess? && id in s.rows
    ensures id in Next(p, s, e).rows && Next(p, s, e).rows[id] == s.rows[id]
  {
    hide Sound, Identifier, KindOf, AcquireIdentity, TokenRow, OfItsOrganization, GrantRow;
    KindsOfIdentifiers(p, e.token, "");
    if Identifier(p, Access, e.token) == id {
      IdentifierInjective(p, Access, e.token, s.ledger.access.grants[id].token);
    }
  }

  lemma RowSurvivesPortal(p: Platform, s: System, e: Event, id: string)
    requires Sound(p) && PortalsHold(p, s.rows, s.ledger.access) && Enabled(p, s, e) && e.OpenPortal? && id in s.rows
    requires LeavesRow(p, s, e, id)
    ensures id in Next(p, s, e).rows && Next(p, s, e).rows[id] == s.rows[id]
  {
    hide Sound, Identifier, KindOf, GrantedIdentity, TokenRow, OpenedBy, PortalRow;
    KindsOfIdentifiers(p, e.portalToken, "");
    if Identifier(p, Portal, e.portalToken) == id {
      IdentifierInjective(p, Portal, e.portalToken, s.ledger.access.portals[id].token);
    }
  }

  lemma RowSurvivesCode(p: Platform, s: System, e: Event, id: string)
    requires CodesHold(p, s.rows, s.ledger.shown, s.ledger.issued) && Enabled(p, s, e) && e.Authorize? && id in s.rows
    ensures id in Next(p, s, e).rows && Next(p, s, e).rows[id] == s.rows[id]
  {
    hide CodeIdentifier, KindOf, AuthorizeRequest, EncodeCode, CodeHolds, RecordOf;
    KindsOfIdentifiers(p, "", e.code);
  }

  /** Events that leave a row of the sign-in alone keep it as it is. */
  lemma RowSurvives(p: Platform, s: System, e: Event, id: string)
    requires Sound(p) && Invariant(p, s) && Enabled(p, s, e) && LeavesRow(p, s, e, id)
    requires id in s.rows && KindOf(id) != OtherKind
    ensures id in Next(p, s, e).rows && Next(p, s, e).rows[id] == s.rows[id]
  {
    hide Sound, Identifier, CodeIdentifier, KindOf, AuthorizeRequest, CheckForm, Redeem, EncodeCode, GrantsHold,
         PortalsHold, CodesHold, ResponsesHold, DecisionsHold, AllShownHold, ResolveSsoUser, Parse, ValidateIdentity;
    match e
    case GrantAccess(_, _, _, _) => RowSurvivesGrant(p, s, e, id);
    case OpenPortal(_, _, _) => RowSurvivesPortal(p, s, e, id);
    case Authorize(_, _, _, _) => RowSurvivesCode(p, s, e, id);
    case UseStore(rows) => assert Shrinks(s.rows, rows, KindOf(id));
    case _ =>
  }

  ghost predicate LeftAlone(p: Platform, events: seq<Event>, states: seq<System>, from: nat, to: nat, id: string)
    requires to <= |events| < |states|
  {
    forall k | from <= k < to :: LeavesRow(p, states[k], events[k], id)
  }

  lemma {:induction false} RowStays(p: Platform, events: seq<Event>, states: seq<System>, from: nat, to: nat,
                                    id: string)
    requires Sound(p) && IsRun(p, events, states) && from <= to <= |events|
             && LeftAlone(p, events, states, from, to, id)
    requires id in states[from].rows && KindOf(id) != OtherKind
    ensures id in states[to].rows && states[to].rows[id] == states[from].rows[id]
  {
    hide Sound, Enabled, Next, Invariant, Initial, KindOf, LeavesRow;
    if from == to {
    } else {
      RowStays(p, events, states, from, to - 1, id);
      RunHolds(p, events, states, to - 1);
      RowSurvives(p, states[to - 1], events[to - 1], id);
    }
  }

  lemma StepGrows(p: Platform, s: System, e: Event)
    requires Enabled(p, s, e)
    ensures s.ledger.shown <= Next(p, s, e).ledger.shown && s.ledger.responses <= Next(p, s, e).ledger.responses
  {
    hide CreateGrant, ConsumeGrant, FindPortalIdentity, IssueCode, ExchangeCode, CheckForm, NoteGrant, NotePortal,
         NoteShown, ResolveSsoUser, CodeIdentifier;
  }

  lemma {:induction false} LedgerGrows(p: Platform, events: seq<Event>, states: seq<System>, from: nat, to: nat)
    requires IsRun(p, events, states) && from <= to <= |events|
    ensures states[from].ledger.shown <= states[to].ledger.shown
    ensures states[from].ledger.responses <= states[to].ledger.responses
  {
    hide Enabled, Next, Initial;
    if from == to {
    } else {
      LedgerGrows(p, events, states, from, to - 1);
      StepGrows(p, states[to - 1], events[to - 1]);
    }
  }

  /** The positions of one sign-in's own six events in a run. */
  datatype Steps = Steps(grant: nat, open: nat, show: nat, authorize: nat, request: nat, decide: nat)

  /** The six events are those of one employee's sign-in: each hands its result to the next one, within
      the lifetime of what it hands over. */
  ghost predicate IsSignIn(p: Platform, events: seq<Event>, states: seq<System>, t: Steps) {
    && t.grant < t.open < t.show < t.authorize < t.request < t.decide < |events| < |states|
    && var g, o, v := events[t.grant], events[t.open], events[t.show];
    && var a, r, d := events[t.authorize], events[t.request], events[t.decide];
    && g.GrantAccess? && o.OpenPortal? && v.ShowIdentity? && a.Authorize? && r.RequestToken? && d.Decide?
    && o.token == g.token && o.now < g.now + ACCESS_TTL_MS
    && v.token == o.portalToken && v.now < o.now + PORTAL_TTL_MS
    && a.shown == |states[t.show].ledger.shown| && r.now <= a.now + CODE_TTL_MS
    && BelongTogether(p, a.params, a.code, r.form)
    && d.response == |states[t.request].ledger.responses| && d.providerId == SSO_PROVIDER_ID && d.isOidc
  }

  /** An acceptable authorization request, and a token request that presents its code and verifier. */
  ghost predicate BelongTogether(p: Platform, params: SearchParams, code: string, form: seq<(string, string)>) {
    && ParseRequest(p, params).Success? && CheckForm(p, form).Success?
    && var r := CheckForm(p, form).value;
    && r.code == code && r.redirectUri == p.RedirectUri()
    && p.s256(r.verifier) == ParseRequest(p, params).value.codeChallenge
  }

  /** What others leave alone: the employee's place in the directory, so that access could be granted to
      the same identity all the time, and the rows of the grant, the portal and the code. */
  ghost predicate Undisturbed(p: Platform, events: seq<Event>, states: seq<System>, t: Steps, i: EmployeeIdentity)
    requires IsSignIn(p, events, states, t)
  {
    var g := events[t.grant];
    && (forall k | t.grant <= k <= t.decide ::
          Acquired(p, states[k].directory, g.organizationId, g.scimUserId) == Some(i))
    && LeftAlone(p, events, states, t.grant + 1, t.open, Identifier(p, Access, g.token))
    && LeftAlone(p, events, states, t.open + 1, t.show, Identifier(p, Portal, events[t.open].portalToken))
    && LeftAlone(p, events, states, t.authorize + 1, t.request, CodeIdentifier(events[t.authorize].code))
  }

  lemma GrantStep(p: Platform, s: System, e: Event, i: EmployeeIdentity)
    requires Enabled(p, s, e) && e.GrantAccess?
    requires Acquired(p, s.directory, e.organizationId, e.scimUserId) == Some(i)
    ensures var id := Identifier(p, Access, e.token);
            id in Next(p, s, e).rows && Next(p, s, e).rows[id] == TokenRow(p, i, Access, e.now + ACCESS_TTL_MS)
  {
    hide AcquireIdentity, Identifier, TokenRow;
  }

  lemma PortalStep(p: Platform, s: System, e: Event, i: EmployeeIdentity)
    requires Enabled(p, s, e) && e.OpenPortal? && IsBase64Url43(e.token)
    requires GrantedIdentity(p, s.directory, s.rows, e.now, e.token) == Some(i)
    ensures var id := Identifier(p, Portal, e.portalToken);
            id in Next(p, s, e).rows && Next(p, s, e).rows[id] == TokenRow(p, i, Portal, e.now + PORTAL_TTL_MS)
  {
    hide GrantedIdentity, Identifier, TokenRow, IsBase64Url43;
  }

  lemma ShowStep(p: Platform, s: System, e: Event, i: EmployeeIdentity)
    requires Enabled(p, s, e) && e.ShowIdentity?
    requires FindPortalIdentity(p, s.directory, s.rows, e.now, e.token).result.Some?
    requires FindPortalIdentity(p, s.directory, s.rows, e.now, e.token).result.value.identity == i
    ensures |Next(p, s, e).ledger.shown| == |s.ledger.shown| + 1
             && Next(p, s, e).ledger.shown[|s.ledger.shown|].identity == i
  {
    hide FindPortalIdentity, Identifier;
  }

  lemma AuthorizeStep(p: Platform, s: System, e: Event, i: EmployeeIdentity)
    requires Enabled(p, s, e) && e.Authorize? && s.ledger.shown[e.shown].identity == i
    requires AuthorizeRequest(p, e.params, i).Success?
    ensures var id := CodeIdentifier(e.code);
            id in Next(p, s, e).rows
            && Next(p, s, e).rows[id] == Row(EncodeCode(AuthorizeRequest(p, e.params, i).value.1), e.now + CODE_TTL_MS)
  {
    hide AuthorizeRequest, EncodeCode, CodeIdentifier;
  }

  lemma RequestStep(p: Platform, s: System, e: Event, i: EmployeeIdentity, params: SearchParams, code: string,
                    expiry: int)
    requires Sound(p) && Enabled(p, s, e) && e.RequestToken? && e.now <= expiry
             && BelongTogether(p, params, code, e.form)
    requires AuthorizeRequest(p, params, i).Success?
    requires CodeIdentifier(code) in s.rows
    requires s.rows[CodeIdentifier(code)] == Row(EncodeCode(AuthorizeRequest(p, params, i).value.1), expiry)
    ensures var l, more := s.ledger, Next(p, s, e).ledger;
            && |more.responses| == |l.responses| + 1
            && var idToken := more.responses[|l.responses|].response.idToken;
            && idToken.issuer == p.Issuer() && idToken.connectionId == i.connectionId && idToken.subject == i.subject
  {
    hide Sound, CheckForm, EncodeCode, Redeem, CodeIdentifier, ParseRequest;
    RedeemedAsRecorded(p, params, i, CheckForm(p, e.form).value, e.accessToken);
  }

  lemma DecideStep(p: Platform, s: System, e: Event, i: EmployeeIdentity, organizationId: string, scimUserId: string)
    requires Enabled(p, s, e) && e.Decide? && e.providerId == SSO_PROVIDER_ID && e.isOidc
    requires Acquired(p, s.directory, organizationId, scimUserId) == Some(i)
    requires var idToken := s.ledger.responses[e.response].response.idToken;
             idToken.issuer == p.Issuer() && idToken.connectionId == i.connectionId && idToken.subject == i.subject
    ensures var l, more := s.ledger, Next(p, s, e).ledger;
            && |more.decisions| == |l.decisions| + 1
            && more.decisions[|l.decisions|].outcome.decision == LinkUser(i.userId)
  {
    hide AcquireIdentity, LinkSubject;
    AcquiredLinks(p, s.directory, organizationId, scimUserId);
  }

  /** Up to the shown identity. */
  lemma InterleavedToIdentity(p: Platform, events: seq<Event>, states: seq<System>, t: Steps, i: EmployeeIdentity)
    requires Sound(p) && IsRun(p, events, states) && IsSignIn(p, events, states, t)
             && Undisturbed(p, events, states, t, i)
    ensures |states[t.show].ledger.shown| < |states[t.authorize].ledger.shown|
    ensures states[t.authorize].ledger.shown[|states[t.show].ledger.shown|].identity == i
  {
    hide Sound, Next, Initial, AcquireIdentity, Identifier, TokenRow, KindOf, GrantedIdentity, FindPortalIdentity,
         ValidateIdentity, CodeIdentifier, BelongTogether, IsBase64Url43, LeftAlone, Acquired;
    var g, o, v := events[t.grant], events[t.open], events[t.show];
    var grant, portal := Identifier(p, Access, g.token), Identifier(p, Portal, o.portalToken);
    KindsOfIdentifiers(p, g.token, "");
    KindsOfIdentifiers(p, o.portalToken, "");
    assert Enabled(p, states[t.grant], g) && Enabled(p, states[t.open], o) && Enabled(p, states[t.show], v);
    GrantStep(p, states[t.grant], g, i);
    RowStays(p, events, states, t.grant + 1, t.open, grant);
    StillValid(p, states[t.open].directory, g.organizationId, g.scimUserId, i);
    GrantOpens(p, states[t.open].directory, states[t.open].rows, o.now, g.token, i, g.now + ACCESS_TTL_MS);
    PortalStep(p, states[t.open], o, i);
    RowStays(p, events, states, t.open + 1, t.show, portal);
    StillValid(p, states[t.show].directory, g.organizationId, g.scimUserId, i);
    PortalShows(p, states[t.show].directory, states[t.show].rows, v.now, o.portalToken, i, o.now + PORTAL_TTL_MS);
    ShowStep(p, states[t.show], v, i);
    LedgerGrows(p, events, states, t.show + 1, t.authorize);
  }

  lemma StillValid(p: Platform, d: Directory, organizationId: string, scimUserId: string, i: EmployeeIdentity)
    requires Acquired(p, d, organizationId, scimUserId) == Some(i)
    ensures ValidateIdentity(d, p, i) == Some(i) && i.userKey in USER_KEYS && DisplayName(i.userKey).Some?
    ensures FindOne(d.users, (u: User) => u.id == i.userId).Some?
    ensures ResolveSubject(p, i.connectionId, i.subject) == Some(i.userKey)
  {
    hide AcquireIdentity, ValidateIdentity;
    AcquiredIsValid(p, d, organizationId, scimUserId);
    ValidHasUser(p, d, i);
  }

  lemma KnownIsAuthorized(p: Platform, params: SearchParams, i: EmployeeIdentity)
    requires ParseRequest(p, params).Success? && DisplayName(i.userKey).Some?
    requires ResolveSubject(p, i.connectionId, i.subject) == Some(i.userKey)
    ensures AuthorizeRequest(p, params, i).Success?
    ensures AuthorizeRequest(p, params, i).value.0 == ParseRequest(p, params).value
  {
    hide ParseRequest, ResolveSubject;
  }

  /** However many other sign-ins, look-ups and directory changes come in between: a sign-in whose own
      rows and directory entries are left alone, and which keeps its time limits, ends by linking exactly
      the employee's user. */
  lemma InterleavedSignInLinksTheEmployee(p: Platform, events: seq<Event>, states: seq<System>, t: Steps,
                                          i: EmployeeIdentity)
    requires Sound(p) && IsRun(p, events, states) && IsSignIn(p, events, states, t)
             && Undisturbed(p, events, states, t, i)
    ensures var before, decisions := states[t.decide].ledger.decisions, states[t.decide + 1].ledger.decisions;
            |decisions| == |before| + 1 && decisions[|before|].outcome.decision == LinkUser(i.userId)
  {
    hide Sound, Next, Initial, AcquireIdentity, Identifier, KindOf, CodeIdentifier, LeftAlone, ParseRequest,
         CheckForm, AuthorizeRequest, EncodeCode, ResolveSubject, ValidateIdentity, Acquired;
    var g, a, r, d := events[t.grant], events[t.authorize], events[t.request], events[t.decide];
    InterleavedToIdentity(p, events, states, t, i);
    KindsOfIdentifiers(p, "", a.code);
    assert Enabled(p, states[t.authorize], a) && Enabled(p, states[t.request], r) && Enabled(p, states[t.decide], d);
    StillValid(p, states[t.authorize].directory, g.organizationId, g.scimUserId, i);
    KnownIsAuthorized(p, a.params, i);
    AuthorizeStep(p, states[t.authorize], a, i);
    RowStays(p, events, states, t.authorize + 1, t.request, CodeIdentifier(a.code));
    RequestStep(p, states[t.request], r, i, a.params, a.code, a.now + CODE_TTL_MS);
    LedgerGrows(p, events, states, t.request + 1, t.decide);
    DecideStep(p, states[t.decide], d, i, g.organizationId, g.scimUserId);
  }
}
