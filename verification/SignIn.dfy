/** The whole workforce sign-in as a system of steps: any number of sign-ins interleave with each
    other, with directory changes and with the other users of the verification store. */
module SignIn {
  import opened Wrappers
  import opened Text
  import opened Json
  import opened Platform
  import opened Directory
  import opened VerificationStore
  import opened OidcRequest
  import opened Employee
  import opened Oidc

  /** One call of the flow, with its one clock reading and the random values it draws, or one
      change of its surroundings. */
  datatype Event =
    | GrantAccess(now: int, organizationId: string, scimUserId: string, token: string)
    | OpenPortal(now: int, token: string, portalToken: string)
    | ShowIdentity(now: int, token: string)
    | Authorize(now: int, shown: nat, params: SearchParams, code: string)
    | RequestToken(now: int, form: seq<(string, string)>, accessToken: string)
    | Decide(response: nat, providerId: string, isOidc: bool)
    | ChangeDirectory(directory: Directory)
    | UseStore(rows: Rows)

  // What has happened, for stating claims: every entry names the entry it came from.

  /** A grant, with the organization it was made for and the directory at that moment. */
  datatype Grant = Grant(
    token: string, organizationId: string, identity: EmployeeIdentity, at: int, directory: Directory)

  /** A portal token, and the identifier of the grant it was opened with. */
  datatype OpenedPortal = OpenedPortal(token: string, grant: string, identity: EmployeeIdentity, at: int)

  /** An identity that a portal token returned, and the directory at that moment. */
  datatype Shown = Shown(portal: string, token: string, identity: EmployeeIdentity, at: int, directory: Directory)

  /** An authorization code, and the position of the shown identity it was issued to. */
  datatype Code = Code(shown: nat, params: SearchParams, at: int)

  /** A token response, and the identifier of the code it was given for. */
  datatype Response = Response(code: string, form: seq<(string, string)>, response: TokenResponse, at: int)

  /** A sign-on decision, and the position of the token response whose ID token it was made for. */
  datatype Decision = Decision(response: nat, outcome: SsoOutcome, directory: Directory)

  /** The tokens drawn, the grants and portals by verification identifier, and the grants that a
      consume call took, in order. */
  datatype AccessBook = AccessBook(
    tokens: set<string>, grants: map<string, Grant>, spent: seq<string>, portals: map<string, OpenedPortal>)

  /** The codes by verification identifier, and those that a consume call took, in order. */
  datatype CodeBook = CodeBook(codes: map<string, Code>, burnt: seq<string>)

  datatype Ledger = Ledger(
    access: AccessBook, shown: seq<Shown>, issued: CodeBook, responses: seq<Response>, decisions: seq<Decision>)

  datatype System = System(directory: Directory, rows: Rows, ledger: Ledger)

  const EMPTY_LEDGER := Ledger(AccessBook({}, map[], [], map[]), [], CodeBook(map[], []), [], [])

  datatype Kind = TokenKind(audience: Audience) | CodeKind | OtherKind

  /** Whose row an identifier names. The sign-in writes only under its own kinds. */
  function KindOf(identifier: string): Kind {
    if Access.Name() + ":" <= identifier then TokenKind(Access)
    else if Portal.Name() + ":" <= identifier then TokenKind(Portal)
    else if CODE_PREFIX <= identifier then CodeKind
    else OtherKind
  }

  /** Fresh random values, and surroundings that do not write the sign-in's rows (they may drop them). */
  ghost predicate Enabled(p: Platform, s: System, e: Event) {
    match e
    case GrantAccess(_, _, _, token) => IsBase64Url43(token) && token !in s.ledger.access.tokens
    case OpenPortal(_, _, portalToken) => IsBase64Url43(portalToken) && portalToken !in s.ledger.access.tokens
    case ShowIdentity(_, _) => true
    case Authorize(_, shown, _, code) =>
      shown < |s.ledger.shown| && CodeIdentifier(code) !in s.ledger.issued.codes
    case RequestToken(_, _, _) => true
    case Decide(response, _, _) => response < |s.ledger.responses|
    case ChangeDirectory(_) => true
    case UseStore(rows) => forall k | k != OtherKind :: Shrinks(s.rows, rows, k)
  }

  /** No row of a kind is added or altered. */
  ghost predicate Shrinks(rows: Rows, rows': Rows, kind: Kind) {
    forall id | id in rows' && KindOf(id) == kind :: id in rows && rows'[id] == rows[id]
  }

  /** What the sign-on plugin reads from a verified ID token. */
  function InputOf(idToken: IdTokenClaims, providerId: string, isOidc: bool): SsoInput {
    SsoInput(providerId, isOidc, idToken.issuer, idToken.subject, Some(String(idToken.connectionId)))
  }

  ghost function Next(p: Platform, s: System, e: Event): System
    requires Enabled(p, s, e)
  {
    var l := s.ledger;
    match e
    case GrantAccess(now, organizationId, scimUserId, token) =>
      var turn := CreateGrant(p, s.directory, s.rows, now, organizationId, scimUserId, token);
      s.(rows := turn.rows,
         ledger := l.(access := NoteGrant(p, l.access, s.directory, organizationId, scimUserId, token, now)))
    case OpenPortal(now, token, portalToken) =>
      var turn := ConsumeGrant(p, s.directory, s.rows, now, token, portalToken);
      s.(rows := turn.rows, ledger := l.(access := NotePortal(p, s, now, token, portalToken)))
    case ShowIdentity(now, token) =>
      var turn := FindPortalIdentity(p, s.directory, s.rows, now, token);
      s.(rows := turn.rows, ledger := l.(shown := l.shown + NoteShown(p, s.directory, turn.result, now, token)))
    case Authorize(now, shown, params, code) =>
      var turn := IssueCode(p, s.rows, now, params, l.shown[shown].identity, code);
      var codes :=
        if turn.result.Success? then l.issued.codes[CodeIdentifier(code) := Code(shown, params, now)]
        else l.issued.codes;
      s.(rows := turn.rows, ledger := l.(issued := l.issued.(codes := codes)))
    case RequestToken(now, form, accessToken) =>
      var turn := ExchangeCode(p, s.rows, now, form, accessToken);
      var checked := CheckForm(p, form);
      if checked.Failure? then s.(rows := turn.rows) else
      var code := CodeIdentifier(checked.value.code);
      var burnt := l.issued.burnt + (if code in s.rows then [code] else []);
      var response :=
        if turn.result.Success? then [Response(code, form, turn.result.value, now)] else [];
      s.(rows := turn.rows,
         ledger := l.(issued := l.issued.(burnt := burnt), responses := l.responses + response))
    case Decide(response, providerId, isOidc) =>
      var input := InputOf(l.responses[response].response.idToken, providerId, isOidc);
      var outcome := ResolveSsoUser(p, s.directory, input);
      s.(ledger := l.(decisions := l.decisions + [Decision(response, outcome, s.directory)]))
    case ChangeDirectory(directory) => s.(directory := directory)
    case UseStore(rows) => s.(rows := rows)
  }

  ghost function NoteGrant(p: Platform, a: AccessBook, d: Directory, organizationId: string, scimUserId: string,
                           token: string, now: int): AccessBook
  {
    match AcquireIdentity(p, d, organizationId, scimUserId)
    case Success(Some(identity)) =>
      a.(tokens := a.tokens + {token},
         grants := a.grants[Identifier(p, Access, token) := Grant(token, organizationId, identity, now, d)])
    case _ => a
  }

  ghost function NotePortal(p: Platform, s: System, now: int, token: string, portalToken: string): AccessBook {
    var a, grant := s.ledger.access, Identifier(p, Access, token);
    if !IsBase64Url43(token) then a else
    var taken := a.(spent := a.spent + (if grant in s.rows then [grant] else []));
    match GrantedIdentity(p, s.directory, s.rows, now, token)
    case Some(identity) =>
      taken.(tokens := a.tokens + {portalToken},
             portals := a.portals[Identifier(p, Portal, portalToken) :=
                                    OpenedPortal(portalToken, grant, identity, now)])
    case None => taken
  }

  ghost function NoteShown(p: Platform, d: Directory, found: Option<PortalIdentity>, now: int, token: string)
    : seq<Shown>
  {
    if found.None? then [] else [Shown(Identifier(p, Portal, token), token, found.value.identity, now, d)]
  }

  /** A start: nobody has signed in, and the store holds only other users' rows. */
  ghost predicate Initial(s: System) {
    s.ledger == EMPTY_LEDGER && forall id | id in s.rows :: KindOf(id) == OtherKind
  }

  /** A run: the events, and the states they lead through. */
  ghost predicate IsRun(p: Platform, events: seq<Event>, states: seq<System>) {
    && |states| == |events| + 1
    && Initial(states[0])
    && forall i | 0 <= i < |events| ::
         Enabled(p, states[i], events[i]) && states[i + 1] == Next(p, states[i], events[i])
  }

  // The invariant, one predicate for each part of the ledger.

  /** Grants are what their identifiers say, none is taken twice, and a stored access row is
      the record of a grant that nobody has taken. */
  ghost predicate GrantsHold(p: Platform, rows: Rows, a: AccessBook) {
    && (forall id | id in a.grants :: GrantHolds(p, a.tokens, id, a.grants[id]))
    && NoRepeats(a.spent)
    && (forall id | id in a.spent :: id in a.grants)
    && (forall id | id in rows && KindOf(id) == TokenKind(Access) ::
          id in a.grants && id !in a.spent && rows[id] == GrantRow(p, a.grants[id]))
  }

  ghost predicate GrantHolds(p: Platform, tokens: set<string>, id: string, g: Grant) {
    IsBase64Url43(g.token) && g.token in tokens && id == Identifier(p, Access, g.token) && OfItsOrganization(g)
  }

  /** The employee was active in the provisioning domain of the organization that granted access. */
  ghost predicate OfItsOrganization(g: Grant) {
    && HasActiveConnection(g.directory, ProvisioningDomain(g.organizationId), g.identity.connectionId)
    && HasActiveSource(g.directory, ProvisioningDomain(g.organizationId), g.identity.connectionId, g.identity.subject,
                       g.identity.scimUserId, g.identity.userId)
  }

  ghost function GrantRow(p: Platform, g: Grant): Row { TokenRow(p, g.identity, Access, g.at + ACCESS_TTL_MS) }

  /** Every portal was opened in time by a taken grant of its own, for the same employee. */
  ghost predicate PortalsHold(p: Platform, rows: Rows, a: AccessBook) {
    && (forall id | id in a.portals :: a.portals[id].grant in a.grants && a.portals[id].grant in a.spent)
    && (forall id | id in a.portals ::
          PortalHolds(p, a.tokens, id, a.portals[id]) && OpenedBy(a.portals[id], a.grants[a.portals[id].grant]))
    && (forall id, other | id in a.portals && other in a.portals && id != other ::
          a.portals[id].grant != a.portals[other].grant)
    && (forall id | id in rows && KindOf(id) == TokenKind(Portal) ::
          id in a.portals && rows[id] == PortalRow(p, a.portals[id]))
  }

  ghost predicate PortalHolds(p: Platform, tokens: set<string>, id: string, t: OpenedPortal) {
    IsBase64Url43(t.token) && t.token in tokens && id == Identifier(p, Portal, t.token)
  }

  ghost predicate OpenedBy(t: OpenedPortal, g: Grant) {
    SameEmployee(t.identity, g.identity) && t.at < g.at + ACCESS_TTL_MS
  }

  ghost function PortalRow(p: Platform, t: OpenedPortal): Row { TokenRow(p, t.identity, Portal, t.at + PORTAL_TTL_MS) }

  /** A shown identity is the employee of its portal token, in time, active in the directory. */
  ghost predicate ShownHolds(portals: map<string, OpenedPortal>, v: Shown) {
    && v.portal in portals
    && v.token == portals[v.portal].token
    && SameEmployee(v.identity, portals[v.portal].identity)
    && v.at < portals[v.portal].at + PORTAL_TTL_MS
    && ActiveInOneDomain(v.directory, v.identity) && NamedByRow(v.directory, v.identity)
  }

  ghost predicate AllShownHold(portals: map<string, OpenedPortal>, shown: seq<Shown>) {
    forall v | v in shown :: ShownHolds(portals, v)
  }

  /** A code was issued to a shown identity for an acceptable request. */
  ghost predicate CodeHolds(p: Platform, shown: seq<Shown>, c: Code) {
    c.shown < |shown| && AuthorizeRequest(p, c.params, shown[c.shown].identity).Success?
  }

  /** What was recorded when a code was issued. */
  ghost function RecordOf(p: Platform, shown: seq<Shown>, c: Code): AuthorizationCode
    requires CodeHolds(p, shown, c)
  {
    AuthorizeRequest(p, c.params, shown[c.shown].identity).value.1
  }

  ghost predicate CodesHold(p: Platform, rows: Rows, shown: seq<Shown>, issued: CodeBook) {
    && (forall id | id in issued.codes :: CodeHolds(p, shown, issued.codes[id]))
    && NoRepeats(issued.burnt)
    && (forall id | id in issued.burnt :: id in issued.codes)
    && (forall id | id in rows && KindOf(id) == CodeKind ::
          id in issued.codes && id !in issued.burnt
          && rows[id] == CodeRow(p, shown, issued.codes[id]))
  }

  /** The row that a code is stored as. */
  ghost function CodeRow(p: Platform, shown: seq<Shown>, c: Code): Row
    requires CodeHolds(p, shown, c)
  {
    Row(EncodeCode(RecordOf(p, shown, c)), c.at + CODE_TTL_MS)
  }

  /** What a token request presents for its code. */
  function Redeemed(p: Platform, form: seq<(string, string)>): Redemption
    requires Presents(p, form)
  {
    Redemption(First(form, "code").value, First(form, "redirect_uri").value, First(form, "code_verifier").value)
  }

  /** A response answers, in time, a request that presented everything, with what its code's record yields. */
  ghost predicate ResponseHolds(p: Platform, shown: seq<Shown>, issued: CodeBook, v: Response) {
    && v.code in issued.burnt && v.code in issued.codes && CodeHolds(p, shown, issued.codes[v.code])
    && Presents(p, v.form) && v.code == CodeIdentifier(Redeemed(p, v.form).code)
    && v.at <= issued.codes[v.code].at + CODE_TTL_MS
    && Redeem(p, Some(EncodeCode(RecordOf(p, shown, issued.codes[v.code]))), Redeemed(p, v.form),
              v.response.accessToken)
       == Success(v.response)
  }

  ghost predicate ResponsesHold(p: Platform, shown: seq<Shown>, issued: CodeBook, responses: seq<Response>) {
    && (forall v | v in responses :: ResponseHolds(p, shown, issued, v))
    && (forall i, j | 0 <= i < j < |responses| :: responses[i].code != responses[j].code)
  }

  ghost predicate DecisionHolds(p: Platform, responses: seq<Response>, d: Decision) {
    && d.response < |responses|
    && exists providerId, isOidc ::
         d.outcome
         == ResolveSsoUser(p, d.directory, InputOf(responses[d.response].response.idToken, providerId, isOidc))
  }

  ghost predicate DecisionsHold(p: Platform, responses: seq<Response>, decisions: seq<Decision>) {
    forall d | d in decisions :: DecisionHolds(p, responses, d)
  }

  ghost predicate StoreHolds(p: Platform, rows: Rows, a: AccessBook, shown: seq<Shown>, issued: CodeBook) {
    GrantsHold(p, rows, a) && PortalsHold(p, rows, a) && CodesHold(p, rows, shown, issued)
  }

  ghost predicate Invariant(p: Platform, s: System) {
    var l := s.ledger;
    && StoreHolds(p, s.rows, l.access, l.shown, l.issued)
    && AllShownHold(l.access.portals, l.shown)
    && ResponsesHold(p, l.shown, l.issued, l.responses)
    && DecisionsHold(p, l.responses, l.decisions)
  }

  /** An access row, a portal row and a code row are never found under one identifier, whatever
      text is presented as a token or a code. */
  lemma KindsOfIdentifiers(p: Platform, token: string, code: string)
    ensures KindOf(Identifier(p, Access, token)) == TokenKind(Access)
    ensures KindOf(Identifier(p, Portal, token)) == TokenKind(Portal)
    ensures KindOf(CodeIdentifier(code)) == CodeKind
  {
    var id := Identifier(p, Portal, token);
    assert Access.Name()[28] == 'a' && Portal.Name()[28] == 'p' && id[28] == 'p';
    assert Portal.Name() + ":" <= id && Access.Name() + ":" <= Identifier(p, Access, token);
    assert Access.Name()[0] == 'c' && Portal.Name()[0] == 'c' && CodeIdentifier(code)[0] == CODE_PREFIX[0] == 's';
  }

  /** Distinct well-formed tokens have distinct identifiers. */
  lemma IdentifierInjective(p: Platform, audience: Audience, t: string, u: string)
    requires Sound(p) && IsBase64Url43(t) && IsBase64Url43(u)
    requires Identifier(p, audience, t) == Identifier(p, audience, u)
    ensures t == u
  {
    PrefixCancel(audience.Name() + ":", p.mac(TokenMessage(audience, t)), p.mac(TokenMessage(audience, u)));
  }

  // How rows and ledger change together.

  lemma GrantsShrink(p: Platform, rows: Rows, rows': Rows, a: AccessBook)
    requires GrantsHold(p, rows, a) && Shrinks(rows, rows', TokenKind(Access))
    ensures GrantsHold(p, rows', a)
  {
    hide KindOf, GrantRow, GrantHolds;
  }

  lemma PortalsShrink(p: Platform, rows: Rows, rows': Rows, a: AccessBook)
    requires PortalsHold(p, rows, a) && Shrinks(rows, rows', TokenKind(Portal))
    ensures PortalsHold(p, rows', a)
  {
    hide KindOf, PortalRow, PortalHolds, OpenedBy;
  }

  lemma CodesShrink(p: Platform, rows: Rows, rows': Rows, shown: seq<Shown>, issued: CodeBook)
    requires CodesHold(p, rows, shown, issued) && Shrinks(rows, rows', CodeKind)
    ensures CodesHold(p, rows', shown, issued)
  {
    hide KindOf, EncodeCode, CodeHolds, RecordOf;
  }

  /** Dropping rows, and writing rows that are not the sign-in's, keeps the invariant. */
  lemma StoreShrinks(p: Platform, rows: Rows, rows': Rows, a: AccessBook, shown: seq<Shown>, issued: CodeBook)
    requires StoreHolds(p, rows, a, shown, issued)
    requires forall k | k != OtherKind :: Shrinks(rows, rows', k)
    ensures StoreHolds(p, rows', a, shown, issued)
  {
    hide KindOf, GrantsHold, PortalsHold, CodesHold, Shrinks;
    GrantsShrink(p, rows, rows', a);
    PortalsShrink(p, rows, rows', a);
    CodesShrink(p, rows, rows', shown, issued);
  }

  lemma GrantRecorded(p: Platform, rows: Rows, a: AccessBook, g: Grant)
    requires Sound(p) && GrantsHold(p, rows, a) && IsBase64Url43(g.token) && g.token !in a.tokens
    requires OfItsOrganization(g)
    ensures var id := Identifier(p, Access, g.token);
            && id !in a.grants
            && GrantsHold(p, rows[id := GrantRow(p, g)],
                          a.(tokens := a.tokens + {g.token}, grants := a.grants[id := g]))
  {
    hide KindOf, GrantRow, Identifier, OfItsOrganization;
    var id := Identifier(p, Access, g.token);
    if id in a.grants {
      IdentifierInjective(p, Access, g.token, a.grants[id].token);
    }
  }

  /** Portals do not depend on further grants. */
  lemma PortalsKeepWithGrant(p: Platform, rows: Rows, a: AccessBook, id: string, g: Grant)
    requires PortalsHold(p, rows, a) && id !in a.grants && KindOf(id) != TokenKind(Portal)
    ensures PortalsHold(p, rows[id := GrantRow(p, g)],
                        a.(tokens := a.tokens + {g.token}, grants := a.grants[id := g]))
  {
    hide KindOf, GrantRow, Identifier, PortalRow, OpenedBy;
  }

  /** A consume call takes the grant's row, if there is one, for good. */
  lemma GrantTaken(p: Platform, rows: Rows, a: AccessBook, id: string)
    requires GrantsHold(p, rows, a) && PortalsHold(p, rows, a) && KindOf(id) == TokenKind(Access)
    ensures var a' := a.(spent := a.spent + (if id in rows then [id] else []));
            GrantsHold(p, rows - {id}, a') && PortalsHold(p, rows - {id}, a')
  {
    hide KindOf, GrantRow, GrantHolds, PortalRow, PortalHolds, OpenedBy;
  }

  lemma PortalRecorded(p: Platform, rows: Rows, a: AccessBook, t: OpenedPortal)
    requires Sound(p) && PortalsHold(p, rows, a) && IsBase64Url43(t.token) && t.token !in a.tokens
    requires t.grant in a.grants && t.grant in a.spent && OpenedBy(t, a.grants[t.grant])
    requires forall id | id in a.portals :: a.portals[id].grant != t.grant
    ensures var id := Identifier(p, Portal, t.token);
            && id !in a.portals
            && PortalsHold(p, rows[id := PortalRow(p, t)],
                           a.(tokens := a.tokens + {t.token}, portals := a.portals[id := t]))
  {
    hide KindOf, PortalRow, OpenedBy, Identifier;
    var id := Identifier(p, Portal, t.token);
    if id in a.portals {
      IdentifierInjective(p, Portal, t.token, a.portals[id].token);
    }
  }

  /** Grants do not depend on portals. */
  lemma GrantsKeepWithPortal(p: Platform, rows: Rows, a: AccessBook, id: string, t: OpenedPortal)
    requires GrantsHold(p, rows, a) && KindOf(id) != TokenKind(Access)
    ensures GrantsHold(p, rows[id := PortalRow(p, t)],
                       a.(tokens := a.tokens + {t.token}, portals := a.portals[id := t]))
  {
    hide KindOf, GrantRow, Identifier, PortalRow;
  }

  /** A grant opens a portal only in time, for its own employee, and only if it was not taken before. */
  lemma GrantOpensInTime(p: Platform, d: Directory, rows: Rows, a: AccessBook, now: int, token: string)
    requires Sound(p) && GrantsHold(p, rows, a) && GrantedIdentity(p, d, rows, now, token).Some?
    ensures var id := Identifier(p, Access, token);
            var identity := GrantedIdentity(p, d, rows, now, token).value;
            && id in rows && id in a.grants && id !in a.spent
            && SameEmployee(identity, a.grants[id].identity)
            && now < a.grants[id].at + ACCESS_TTL_MS
  {
    hide Encode, Parse, KindOf, Identifier, ValidateIdentity, GrantHolds;
    var id := Identifier(p, Access, token);
    KindsOfIdentifiers(p, token, "");
    var expiry := a.grants[id].at + ACCESS_TTL_MS;
    var record := EmployeeRecord(a.grants[id].identity, Access, p.isoDate(expiry));
    RecordsReadBack(p, record, expiry, Access, now);
    ValidatedIdentityIsActive(p, d, record.identity);
  }

  /** A portal token returns an identity only in time, for the employee it was opened for, and
      while connection and directory row are active. */
  lemma PortalShowsInTime(p: Platform, d: Directory, rows: Rows, a: AccessBook, now: int, token: string)
    requires Sound(p) && PortalsHold(p, rows, a) && FindPortalIdentity(p, d, rows, now, token).result.Some?
    ensures AllShownHold(a.portals, NoteShown(p, d, FindPortalIdentity(p, d, rows, now, token).result, now, token))
  {
    hide Encode, Parse, KindOf, Identifier, ValidateIdentity, OpenedBy;
    var id := Identifier(p, Portal, token);
    KindsOfIdentifiers(p, token, "");
    var expiry := a.portals[id].at + PORTAL_TTL_MS;
    var record := EmployeeRecord(a.portals[id].identity, Portal, p.isoDate(expiry));
    RecordsReadBack(p, record, expiry, Portal, now);
    ValidatedIdentityIsActive(p, d, record.identity);
    IdentifierInjective(p, Portal, token, a.portals[id].token);
  }

  lemma ShownKeepWithPortal(portals: map<string, OpenedPortal>, shown: seq<Shown>, id: string, t: OpenedPortal)
    requires AllShownHold(portals, shown) && id !in portals
    ensures AllShownHold(portals[id := t], shown)
  {}

  lemma CodesKeepWithShown(p: Platform, rows: Rows, shown: seq<Shown>, more: seq<Shown>, issued: CodeBook)
    requires CodesHold(p, rows, shown, issued)
    ensures CodesHold(p, rows, shown + more, issued)
  {
    hide KindOf, EncodeCode, AuthorizeRequest;
  }

  lemma ResponsesKeepWithShown(p: Platform, shown: seq<Shown>, more: seq<Shown>, issued: CodeBook,
                               responses: seq<Response>)
    requires ResponsesHold(p, shown, issued, responses)
    ensures ResponsesHold(p, shown + more, issued, responses)
  {
    hide EncodeCode, AuthorizeRequest, Redeem;
  }

  lemma CodeRecorded(p: Platform, rows: Rows, shown: seq<Shown>, issued: CodeBook, id: string, c: Code)
    requires CodesHold(p, rows, shown, issued) && CodeHolds(p, shown, c) && id !in issued.codes
    ensures CodesHold(p, rows[id := CodeRow(p, shown, c)], shown, issued.(codes := issued.codes[id := c]))
  {
    hide KindOf, CodeRow, CodeHolds;
  }

  lemma ResponsesKeepWithCode(p: Platform, shown: seq<Shown>, issued: CodeBook, responses: seq<Response>, id: string,
                              c: Code)
    requires ResponsesHold(p, shown, issued, responses) && id !in issued.codes
    ensures ResponsesHold(p, shown, issued.(codes := issued.codes[id := c]), responses)
  {
    hide EncodeCode, CodeHolds, RecordOf, Redeem;
  }

  /** A consume call takes the code's row, if there is one, for good. */
  lemma CodeTaken(p: Platform, rows: Rows, shown: seq<Shown>, issued: CodeBook, id: string)
    requires CodesHold(p, rows, shown, issued) && KindOf(id) == CodeKind
    ensures CodesHold(p, rows - {id}, shown, issued.(burnt := issued.burnt + (if id in rows then [id] else [])))
  {
    hide KindOf, EncodeCode, CodeHolds, RecordOf;
  }

  lemma ResponseRecorded(p: Platform, rows: Rows, shown: seq<Shown>, issued: CodeBook, responses: seq<Response>,
                         id: string, now: int, form: seq<(string, string)>, accessToken: string)
    requires CodesHold(p, rows, shown, issued) && ResponsesHold(p, shown, issued, responses) && KindOf(id) == CodeKind
    requires Presents(p, form) && id == CodeIdentifier(Redeemed(p, form).code)
    ensures var issued' := issued.(burnt := issued.burnt + (if id in rows then [id] else []));
            var redeemed := Redeem(p, Consumable(rows, id, now), Redeemed(p, form), accessToken);
            ResponsesHold(p, shown, issued',
              responses + (if redeemed.Success? then [Response(id, form, redeemed.value, now)] else []))
  {
    hide KindOf, EncodeCode, CodeHolds, RecordOf, DecodeCode, Presents, CodeIdentifier, Redeemed;
    var issued' := issued.(burnt := issued.burnt + (if id in rows then [id] else []));
    var redeemed := Redeem(p, Consumable(rows, id, now), Redeemed(p, form), accessToken);
    forall v | v in responses ensures ResponseHolds(p, shown, issued', v) && v.code in issued.burnt {
      assert ResponseHolds(p, shown, issued, v);
    }
    if redeemed.Success? {
      assert id in rows && id in issued'.burnt && redeemed.value.accessToken == accessToken;
      assert ResponseHolds(p, shown, issued', Response(id, form, redeemed.value, now));
    }
  }

  lemma DecisionsKeepWithResponse(p: Platform, responses: seq<Response>, more: seq<Response>, decisions: seq<Decision>)
    requires DecisionsHold(p, responses, decisions)
    ensures DecisionsHold(p, responses + more, decisions)
  {
    hide ResolveSsoUser;
    forall d | d in decisions ensures DecisionHolds(p, responses + more, d) {
      assert DecisionHolds(p, responses, d);
      assert (responses + more)[d.response] == responses[d.response];
    }
  }

  // What each event keeps.

  lemma GrantAccessKeeps(p: Platform, s: System, e: Event)
    requires Sound(p) && Invariant(p, s) && e.GrantAccess? && Enabled(p, s, e)
    ensures Invariant(p, Next(p, s, e))
  {
    hide AcquireIdentity, Identifier, KindOf, GrantsHold, PortalsHold, CodesHold, AllShownHold, ResponsesHold,
         DecisionsHold, TokenRow, Sound, NamedByRow, HasUser, HasActiveSource, HasActiveConnection, IsBuried,
         ProvisioningDomain;
    var acquired := AcquireIdentity(p, s.directory, e.organizationId, e.scimUserId);
    if acquired.Success? && acquired.value.Some? {
      var l, id := s.ledger, Identifier(p, Access, e.token);
      var g := Grant(e.token, e.organizationId, acquired.value.value, e.now, s.directory);
      AcquiredIdentityIsActive(p, s.directory, e.organizationId, e.scimUserId);
      KindsOfIdentifiers(p, e.token, "");
      GrantRecorded(p, s.rows, l.access, g);
      PortalsKeepWithGrant(p, s.rows, l.access, id, g);
      CodesShrink(p, s.rows, s.rows[id := GrantRow(p, g)], l.shown, l.issued);
    }
  }

  lemma OpenPortalKeeps(p: Platform, s: System, e: Event)
    requires Sound(p) && Invariant(p, s) && e.OpenPortal? && Enabled(p, s, e)
    ensures Invariant(p, Next(p, s, e))
  {
    hide GrantedIdentity, Identifier, KindOf, GrantsHold, PortalsHold, CodesHold, AllShownHold, ResponsesHold,
         DecisionsHold, TokenRow, IsBase64Url43;
    var l, id := s.ledger, Identifier(p, Access, e.token);
    KindsOfIdentifiers(p, e.token, "");
    KindsOfIdentifiers(p, e.portalToken, "");
    if IsBase64Url43(e.token) {
      var rows, a := s.rows - {id}, l.access.(spent := l.access.spent + (if id in s.rows then [id] else []));
      GrantTaken(p, s.rows, l.access, id);
      CodesShrink(p, s.rows, rows, l.shown, l.issued);
      var granted := GrantedIdentity(p, s.directory, s.rows, e.now, e.token);
      if granted.Some? {
        var t, portal := OpenedPortal(e.portalToken, id, granted.value, e.now), Identifier(p, Portal, e.portalToken);
        GrantOpensInTime(p, s.directory, s.rows, l.access, e.now, e.token);
        FreshGrantOfPortals(p, s.rows, l.access, id);
        assert id in a.spent;
        PortalRecorded(p, rows, a, t);
        GrantsKeepWithPortal(p, rows, a, portal, t);
        ShownKeepWithPortal(a.portals, l.shown, portal, t);
        CodesShrink(p, rows, rows[portal := PortalRow(p, t)], l.shown, l.issued);
      }
    }
  }

  /** A grant that was not taken has opened no portal. */
  lemma FreshGrantOfPortals(p: Platform, rows: Rows, a: AccessBook, id: string)
    requires PortalsHold(p, rows, a) && id !in a.spent
    ensures forall other | other in a.portals :: a.portals[other].grant != id
  {}

  lemma ShowIdentityKeeps(p: Platform, s: System, e: Event)
    requires Sound(p) && Invariant(p, s) && e.ShowIdentity? && Enabled(p, s, e)
    ensures Invariant(p, Next(p, s, e))
  {
    hide Parse, ValidateIdentity, Identifier, KindOf, GrantsHold, PortalsHold, CodesHold, ResponsesHold,
         DecisionsHold, ShownHolds, IsBase64Url43;
    var l, s' := s.ledger, Next(p, s, e);
    StoreShrinks(p, s.rows, s'.rows, l.access, l.shown, l.issued);
    var result := FindPortalIdentity(p, s.directory, s.rows, e.now, e.token).result;
    var more := NoteShown(p, s.directory, result, e.now, e.token);
    if result.Some? {
      PortalShowsInTime(p, s.directory, s.rows, l.access, e.now, e.token);
    }
    CodesKeepWithShown(p, s'.rows, l.shown, more, l.issued);
    ResponsesKeepWithShown(p, l.shown, more, l.issued, l.responses);
  }

  lemma AuthorizeKeeps(p: Platform, s: System, e: Event)
    requires Sound(p) && Invariant(p, s) && e.Authorize? && Enabled(p, s, e)
    ensures Invariant(p, Next(p, s, e))
  {
    hide AuthorizeRequest, CodeIdentifier, KindOf, EncodeCode, GrantsHold, PortalsHold, CodesHold, ResponsesHold,
         DecisionsHold, AllShownHold;
    var l, id, c := s.ledger, CodeIdentifier(e.code), Code(e.shown, e.params, e.now);
    KindsOfIdentifiers(p, "", e.code);
    if AuthorizeRequest(p, e.params, l.shown[e.shown].identity).Success? {
      var rows := s.rows[id := CodeRow(p, l.shown, c)];
      CodeRecorded(p, s.rows, l.shown, l.issued, id, c);
      GrantsShrink(p, s.rows, rows, l.access);
      PortalsShrink(p, s.rows, rows, l.access);
      ResponsesKeepWithCode(p, l.shown, l.issued, l.responses, id, c);
    }
  }

  lemma RequestTokenKeeps(p: Platform, s: System, e: Event)
    requires Sound(p) && Invariant(p, s) && e.RequestToken? && Enabled(p, s, e)
    ensures Invariant(p, Next(p, s, e))
  {
    hide CheckForm, Redeem, Presents, CodeIdentifier, KindOf, GrantsHold, PortalsHold, CodesHold, ResponsesHold,
         DecisionsHold, AllShownHold;
    var l, checked := s.ledger, CheckForm(p, e.form);
    LetThroughExactlyWhen(p, e.form);
    if checked.Success? {
      var id := CodeIdentifier(checked.value.code);
      KindsOfIdentifiers(p, "", checked.value.code);
      CodeTaken(p, s.rows, l.shown, l.issued, id);
      GrantsShrink(p, s.rows, s.rows - {id}, l.access);
      PortalsShrink(p, s.rows, s.rows - {id}, l.access);
      ResponseRecorded(p, s.rows, l.shown, l.issued, l.responses, id, e.now, e.form, e.accessToken);
      var more := Next(p, s, e).ledger.responses[|l.responses|..];
      assert Next(p, s, e).ledger.responses == l.responses + more;
      DecisionsKeepWithResponse(p, l.responses, more, l.decisions);
    }
  }

  lemma DecideKeeps(p: Platform, s: System, e: Event)
    requires Invariant(p, s) && e.Decide? && Enabled(p, s, e)
    ensures Invariant(p, Next(p, s, e))
  {
    hide ResolveSsoUser, GrantsHold, PortalsHold, CodesHold, ResponsesHold, AllShownHold;
  }

  lemma NextKeeps(p: Platform, s: System, e: Event)
    requires Sound(p) && Invariant(p, s) && Enabled(p, s, e)
    ensures Invariant(p, Next(p, s, e))
  {
    match e
    case GrantAccess(_, _, _, _) => GrantAccessKeeps(p, s, e);
    case OpenPortal(_, _, _) => OpenPortalKeeps(p, s, e);
    case ShowIdentity(_, _) => ShowIdentityKeeps(p, s, e);
    case Authorize(_, _, _, _) => AuthorizeKeeps(p, s, e);
    case RequestToken(_, _, _) => RequestTokenKeeps(p, s, e);
    case Decide(_, _, _) => DecideKeeps(p, s, e);
    case ChangeDirectory(_) =>
    case UseStore(rows) =>
      StoreShrinks(p, s.rows, rows, s.ledger.access, s.ledger.shown, s.ledger.issued);
  }

  lemma StartHolds(p: Platform, s: System)
    requires Initial(s)
    ensures Invariant(p, s)
  {
    hide KindOf;
  }

  /** The invariant holds in every state of every run. */
  lemma {:induction false} RunHolds(p: Platform, events: seq<Event>, states: seq<System>, n: nat)
    requires Sound(p) && IsRun(p, events, states) && n <= |events|
    ensures |states| == |events| + 1 && Invariant(p, states[n])
  {
    hide Next, Enabled, Invariant, Sound, Initial;
    if n == 0 {
      StartHolds(p, states[0]);
    } else {
      RunHolds(p, events, states, n - 1);
      NextKeeps(p, states[n - 1], events[n - 1]);
    }
  }

  // The claims, for every run from a start.

  /** In every run each portal was opened with a grant of its own, taken exactly once and before it
      expired, for the same connection, directory row, subject, user and user key. */
  lemma PortalsDescendFromGrants(p: Platform, events: seq<Event>, states: seq<System>, id: string)
    requires Sound(p) && IsRun(p, events, states)
    requires id in states[|events|].ledger.access.portals
    ensures var a := states[|events|].ledger.access;
            var t := a.portals[id];
            && t.grant in a.grants
            && t.grant == Identifier(p, Access, a.grants[t.grant].token)
            && SameEmployee(t.identity, a.grants[t.grant].identity)
            && t.at < a.grants[t.grant].at + 5 * 60 * 1_000
            && (exists k :: 0 <= k < |a.spent| && a.spent[k] == t.grant
                  && forall j | 0 <= j < |a.spent| && a.spent[j] == t.grant :: j == k)
            && (forall other | other in a.portals && a.portals[other].grant == t.grant :: other == id)
  {
    hide Next, Enabled, Sound, IsRun, Identifier, KindOf, GrantRow, PortalRow, Initial;
    RunHolds(p, events, states, |events|);
    var a := states[|events|].ledger.access;
    assert OpenedBy(a.portals[id], a.grants[a.portals[id].grant]);
    assert GrantHolds(p, a.tokens, a.portals[id].grant, a.grants[a.portals[id].grant]);
    var k :| 0 <= k < |a.spent| && a.spent[k] == a.portals[id].grant;
    assert NoRepeats(a.spent);
  }

  /** In every run a portal identity is returned to exactly the token that was handed out, less than
      15 minutes after its grant was made, for the granted employee, and while the connection and
      the directory row of that employee are active; name and address are those of the row. */
  lemma IdentityShownWithinFifteenMinutes(p: Platform, events: seq<Event>, states: seq<System>, v: Shown)
    requires Sound(p) && IsRun(p, events, states)
    requires v in states[|events|].ledger.shown
    ensures var a := states[|events|].ledger.access;
            && v.portal in a.portals && v.token == a.portals[v.portal].token
            && a.portals[v.portal].grant in a.grants
            && var g := a.grants[a.portals[v.portal].grant];
            && SameEmployee(v.identity, g.identity)
            && v.at < g.at + 15 * 60 * 1_000 && v.at < a.portals[v.portal].at + 10 * 60 * 1_000
            && ActiveInOneDomain(v.directory, g.identity) && NamedByRow(v.directory, v.identity)
  {
    hide Next, Enabled, Sound, IsRun, Identifier, KindOf, GrantRow, PortalRow, Initial;
    RunHolds(p, events, states, |events|);
    var a := states[|events|].ledger.access;
    assert ShownHolds(a.portals, v);
    assert OpenedBy(a.portals[v.portal], a.grants[a.portals[v.portal].grant]);
  }

  /** In every run no code yields two token responses. A response answers, within two minutes of the
      code, a client that presented the deployment's secret and redirect URI and a verifier hashing to the
      challenge of the request, and it carries the subject, connection, address, name, scope and nonce of
      the identity and request that the code was issued for. */
  lemma ResponsesAreAsRecorded(p: Platform, events: seq<Event>, states: seq<System>, i: nat)
    requires Sound(p) && IsRun(p, events, states)
    requires i < |states[|events|].ledger.responses|
    ensures var l := states[|events|].ledger;
            var v := l.responses[i];
            && (forall j | 0 <= j < |l.responses| && l.responses[j].code == v.code :: j == i)
            && v.code in l.issued.codes
            && CodeHolds(p, l.shown, l.issued.codes[v.code])
            && var c := l.issued.codes[v.code];
               var identity := l.shown[c.shown].identity;
            && Presents(p, v.form) && v.code == CodeIdentifier(First(v.form, "code").value)
            && First(v.form, "redirect_uri") == Some(p.RedirectUri())
            && v.at <= c.at + 2 * 60 * 1_000 && v.response.expiresIn == 300
            && Acceptable(p, c.params)
            && ReadParam(c.params, "code_challenge") == Some(p.s256(First(v.form, "code_verifier").value))
            && DisplayName(identity.userKey).Some?
            && v.response.idToken ==
                 IdTokenClaims(p.Issuer(), CLIENT_ID, identity.subject, identity.connectionId, identity.email,
                               DisplayName(identity.userKey).value, NonEmpty(ReadParam(c.params, "nonce")))
            && v.response.scope == Granted(ReadParam(c.params, "scope"))
  {
    hide Next, Enabled, Sound, IsRun, Identifier, KindOf, GrantsHold, PortalsHold, Initial, AuthorizeRequest, Redeem,
         EncodeCode, Acceptable, Presents;
    RunHolds(p, events, states, |events|);
    var l := states[|events|].ledger;
    var v := l.responses[i];
    assert ResponseHolds(p, l.shown, l.issued, v);
    var c := l.issued.codes[v.code];
    var identity := l.shown[c.shown].identity;
    RedeemedAsRecorded(p, c.params, identity, Redeemed(p, v.form), v.response.accessToken);
    AuthorizedAsPresented(p, c.params, identity);
    PresentedTexts(p, v.form);
  }

  lemma AuthorizedAsPresented(p: Platform, params: SearchParams, i: EmployeeIdentity)
    requires AuthorizeRequest(p, params, i).Success?
    ensures Acceptable(p, params) && DisplayName(i.userKey).Some? && ReadParam(params, "code_challenge").Some?
    ensures var request := AuthorizeRequest(p, params, i).value.0;
            && request.codeChallenge == ReadParam(params, "code_challenge").value
            && request.nonce == NonEmpty(ReadParam(params, "nonce"))
            && request.scope == Granted(ReadParam(params, "scope"))
  {
    hide ParseRequest, Granted;
    AcceptedExactlyWhen(p, params);
    AcceptedAsPresented(p, params);
  }

  /** Whether a decision can be followed back to a grant. */
  ghost predicate Traceable(l: Ledger, d: Decision) {
    && d.response < |l.responses|
    && l.responses[d.response].code in l.issued.codes
    && l.issued.codes[l.responses[d.response].code].shown < |l.shown|
    && l.shown[l.issued.codes[l.responses[d.response].code].shown].portal in l.access.portals
    && l.access.portals[l.shown[l.issued.codes[l.responses[d.response].code].shown].portal].grant in l.access.grants
  }

  /** The grant behind a decision: ID token, code, shown identity, portal token, grant. */
  ghost function GrantBehind(l: Ledger, d: Decision): Grant
    requires Traceable(l, d)
  {
    l.access.grants[l.access.portals[l.shown[l.issued.codes[l.responses[d.response].code].shown].portal].grant]
  }

  /** In every run, whatever else happens in between, the link that a sign-on decision asks for is
      that of exactly the connection and subject for which the access grant behind its ID token was
      created, by the organization whose domain they were in; and a user is linked only while that pair
      has an active row. */
  lemma LinkIsForGrantedIdentity(p: Platform, events: seq<Event>, states: seq<System>, d: Decision)
    requires Sound(p) && IsRun(p, events, states)
    requires d in states[|events|].ledger.decisions
    ensures var l := states[|events|].ledger;
            && Traceable(l, d)
            && OfItsOrganization(GrantBehind(l, d))
            && var granted := GrantBehind(l, d).identity;
            && (d.outcome.asked.Some? ==>
                  d.outcome.asked.value == LinkReference(granted.connectionId, granted.subject))
            && (d.outcome.decision.LinkUser? ==>
                  && d.outcome.asked.Some?
                  && LinkedInOneDomain(d.directory, LinkReference(granted.connectionId, granted.subject),
                                       d.outcome.decision.userId))
  {
    hide Next, Enabled, Sound, IsRun, Identifier, KindOf, Initial, AuthorizeRequest, Redeem, EncodeCode,
         ResolveSsoUser, LinkedInOneDomain, ActiveInOneDomain, OfItsOrganization, HasUser, IsBuried;
    RunHolds(p, events, states, |events|);
    var l := states[|events|].ledger;
    assert DecisionHolds(p, l.responses, d);
    ResponsesAreAsRecorded(p, events, states, d.response);
    var v := l.shown[l.issued.codes[l.responses[d.response].code].shown];
    assert ShownHolds(l.access.portals, v);
    assert OpenedBy(l.access.portals[v.portal], l.access.grants[l.access.portals[v.portal].grant]);
    assert GrantHolds(p, l.access.tokens, l.access.portals[v.portal].grant, GrantBehind(l, d));
    var providerId, isOidc :|
      d.outcome
      == ResolveSsoUser(p, d.directory, InputOf(l.responses[d.response].response.idToken, providerId, isOidc));
    DecisionAsksForClaims(p, d.directory, InputOf(l.responses[d.response].response.idToken, providerId, isOidc));
  }

  /** A code that was issued and is no longer stored. */
  ghost predicate CodeGone(s: System, id: string) { id in s.ledger.issued.codes && id !in s.rows }

  ghost predicate GrantGone(s: System, id: string) { id in s.ledger.access.grants && id !in s.rows }

  lemma GoneAfterGrant(p: Platform, s: System, e: Event, id: string)
    requires Sound(p) && GrantsHold(p, s.rows, s.ledger.access) && e.GrantAccess? && Enabled(p, s, e)
    ensures KindOf(id) == CodeKind && CodeGone(s, id) ==> CodeGone(Next(p, s, e), id)
    ensures KindOf(id) == TokenKind(Access) && GrantGone(s, id) ==> GrantGone(Next(p, s, e), id)
  {
    hide Sound, Identifier, KindOf, AcquireIdentity, TokenRow, OfItsOrganization, GrantRow;
    KindsOfIdentifiers(p, e.token, "");
    if Identifier(p, Access, e.token) == id && id in s.ledger.access.grants {
      IdentifierInjective(p, Access, e.token, s.ledger.access.grants[id].token);
    }
  }

  lemma GoneAfterPortal(p: Platform, s: System, e: Event, id: string)
    requires e.OpenPortal? && Enabled(p, s, e)
    ensures KindOf(id) == CodeKind && CodeGone(s, id) ==> CodeGone(Next(p, s, e), id)
    ensures KindOf(id) == TokenKind(Access) && GrantGone(s, id) ==> GrantGone(Next(p, s, e), id)
  {
    hide Identifier, KindOf, GrantedIdentity, TokenRow, IsBase64Url43;
    KindsOfIdentifiers(p, e.token, "");
    KindsOfIdentifiers(p, e.portalToken, "");
  }

  lemma GoneForGood(p: Platform, s: System, e: Event, id: string)
    requires Sound(p) && Invariant(p, s) && Enabled(p, s, e)
    ensures KindOf(id) == CodeKind && CodeGone(s, id) ==> CodeGone(Next(p, s, e), id)
    ensures KindOf(id) == TokenKind(Access) && GrantGone(s, id) ==> GrantGone(Next(p, s, e), id)
  {
    hide Sound, Identifier, CodeIdentifier, KindOf, AuthorizeRequest, CheckForm, Redeem, EncodeCode, GrantsHold,
         PortalsHold, CodesHold, ResponsesHold, DecisionsHold, AllShownHold, ResolveSsoUser, Parse, ValidateIdentity;
    match e
    case GrantAccess(_, _, _, _) => GoneAfterGrant(p, s, e, id);
    case OpenPortal(_, _, _) => GoneAfterPortal(p, s, e, id);
    case Authorize(_, _, _, code) => KindsOfIdentifiers(p, "", code);
    case UseStore(rows) =>
      assert KindOf(id) != OtherKind ==> Shrinks(s.rows, rows, KindOf(id));
    case _ =>
  }

  /** Once a well-formed token request has presented an issued code, that code is worthless in the
      whole rest of the run, whether the request succeeded or not: it is not stored, and presenting
      it again fails and changes nothing. */
  lemma PresentedCodeIsBurnt(p: Platform, events: seq<Event>, states: seq<System>, n: nat, form: seq<(string, string)>)
    requires Sound(p) && IsRun(p, events, states) && n < |events| && events[n].RequestToken?
    requires CheckForm(p, events[n].form).Success? && CheckForm(p, form).Success?
    requires CheckForm(p, form).value.code == CheckForm(p, events[n].form).value.code
    requires CodeIdentifier(CheckForm(p, form).value.code) in states[n].ledger.issued.codes
    ensures var rows := states[|events|].rows;
            forall now, accessToken ::
              ExchangeCode(p, rows, now, form, accessToken) == Turn(Failure(OidcError("invalid_grant", 400)), rows)
  {
    hide Sound, Enabled, Invariant, CheckForm, CodeIdentifier, KindOf, Initial;
    var id := CodeIdentifier(CheckForm(p, form).value.code);
    KindsOfIdentifiers(p, "", CheckForm(p, form).value.code);
    assert CodeGone(Next(p, states[n], events[n]), id);
    StaysGone(p, events, states, n + 1, |events|, id);
    var rows := states[|events|].rows;
    assert rows - {id} == rows;
  }

  /** Once a well-formed access token has been presented, its grant never opens a portal again in
      the whole rest of the run, whether it did so this time or not. */
  lemma PresentedGrantIsSpent(p: Platform, events: seq<Event>, states: seq<System>, n: nat)
    requires Sound(p) && IsRun(p, events, states) && n < |events| && events[n].OpenPortal?
    requires IsBase64Url43(events[n].token) && Identifier(p, Access, events[n].token) in states[n].ledger.access.grants
    ensures var end := states[|events|];
            forall now, portalToken ::
              ConsumeGrant(p, end.directory, end.rows, now, events[n].token, portalToken) == Turn(None, end.rows)
  {
    hide Sound, Enabled, Invariant, Identifier, KindOf, Parse, ValidateIdentity, TokenRow, IsBase64Url43, Initial;
    var e := events[n];
    var id := Identifier(p, Access, e.token);
    KindsOfIdentifiers(p, e.token, "");
    KindsOfIdentifiers(p, e.portalToken, "");
    assert GrantGone(Next(p, states[n], e), id);
    StaysGone(p, events, states, n + 1, |events|, id);
    var end := states[|events|];
    assert end.rows - {id} == end.rows;
  }

  lemma {:induction false} StaysGone(p: Platform, events: seq<Event>, states: seq<System>, from: nat, n: nat,
                                     id: string)
    requires Sound(p) && IsRun(p, events, states) && from <= n <= |events|
    ensures KindOf(id) == CodeKind && CodeGone(states[from], id) ==> CodeGone(states[n], id)
    ensures KindOf(id) == TokenKind(Access) && GrantGone(states[from], id) ==> GrantGone(states[n], id)
  {
    hide Sound, Enabled, Invariant, Next, KindOf, CodeGone, GrantGone, Initial;
    if from < n {
      StaysGone(p, events, states, from, n - 1, id);
      RunHolds(p, events, states, n - 1);
      GoneForGood(p, states[n - 1], events[n - 1], id);
    }
  }
}
