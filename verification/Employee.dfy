/** Employee access grants, portal tokens and the decision that ends the sign-in. */
module Employee {
  import opened Wrappers
  import opened Text
  import opened Json
  import opened Platform
  import opened Identity
  import opened Directory
  import opened VerificationStore

  const ACCESS_TTL_MS := 5 * 60 * 1_000
  const PORTAL_TTL_MS := 10 * 60 * 1_000

  datatype EmployeeIdentity = EmployeeIdentity(
    connectionId: string, displayName: string, email: string, scimUserId: string, subject: string,
    userId: string, userKey: string)

  /** What an identity keeps through the whole sign-in; names and addresses are read afresh. */
  predicate SameEmployee(a: EmployeeIdentity, b: EmployeeIdentity) {
    && a.connectionId == b.connectionId && a.scimUserId == b.scimUserId && a.subject == b.subject
    && a.userId == b.userId && a.userKey == b.userKey
  }

  datatype EmployeeRecord = EmployeeRecord(identity: EmployeeIdentity, audience: Audience, expiresAt: string)

  function Encode(record: EmployeeRecord): JsonText {
    var i := record.identity;
    Spells(Object(map[
      "connectionId" := String(i.connectionId), "displayName" := String(i.displayName),
      "email" := String(i.email), "scimUserId" := String(i.scimUserId), "subject" := String(i.subject),
      "userId" := String(i.userId), "userKey" := String(i.userKey),
      "audience" := String(record.audience.Name()), "expiresAt" := String(record.expiresAt),
      "version" := Number(2.0)]))
  }

  function Decode(p: Platform, text: JsonText, audience: Audience): Option<EmployeeRecord> {
    if text.NotJson? || !text.value.Object? then None else
    var v := text.value;
    var connectionId, displayName := GetString(v, "connectionId"), GetString(v, "displayName");
    var email, expiresAt := GetString(v, "email"), GetString(v, "expiresAt");
    var scimUserId, subject := GetString(v, "scimUserId"), GetString(v, "subject");
    var userId, userKey := GetString(v, "userId"), GetString(v, "userKey");
    if || Get(v, "version") != Some(Number(2.0))
       || GetString(v, "audience") != Some(audience.Name())
       || connectionId.None? || displayName.None? || email.None? || expiresAt.None?
       || scimUserId.None? || subject.None? || userId.None? || userKey.None?
       || userKey.value !in USER_KEYS
       || p.parseDate(expiresAt.value).None?
    then None
    else
      var identity := EmployeeIdentity(connectionId.value, displayName.value, email.value,
                                       scimUserId.value, subject.value, userId.value, userKey.value);
      Some(EmployeeRecord(identity, audience, expiresAt.value))
  }

  function Parse(p: Platform, text: JsonText, audience: Audience, now: int): Option<EmployeeRecord> {
    match Decode(p, text, audience)
    case Some(record) =>
      var expiry := p.parseDate(record.expiresAt);
      if expiry.Some? && expiry.value <= now then None else Some(record)
    case None => None
  }

  lemma AudienceNamesDiffer()
    ensures Access.Name() != Portal.Name()
  {
    assert Access.Name()[28] == 'a' && Portal.Name()[28] == 'p';
  }

  /** A stored record is read back unchanged, by its own audience, strictly before it expires,
      and in no other case. */
  lemma RecordsReadBack(p: Platform, record: EmployeeRecord, expiry: int, audience: Audience, now: int)
    requires Sound(p) && record.expiresAt == p.isoDate(expiry)
    ensures Parse(p, Encode(record), audience, now) ==
            if record.identity.userKey in USER_KEYS && audience == record.audience && now < expiry
            then Some(record) else None
  {
    AudienceNamesDiffer();
    FieldsReadBack(record);
  }

  /** A text decodes to a record exactly when it spells an object that holds all the record's fields, of the
      asked audience, a known user and a date; whatever else the object holds does not matter. */
  lemma DecodedExactlyWhen(p: Platform, text: JsonText, audience: Audience, record: EmployeeRecord)
    ensures Decode(p, text, audience) == Some(record) <==>
            && text.Spells? && text.value.Object? && record.audience == audience
            && record.identity.userKey in USER_KEYS && p.parseDate(record.expiresAt).Some?
            && HoldsAll(text.value.fields, Encode(record).value.fields)
  {
    hide Encode, HoldsAll, GetString, Get;
    if text.Spells? && text.value.Object? {
      HeldExactlyWhen(text.value, record);
    }
  }

  /** What the fields of a record read as. */
  predicate ReadsAs(v: Json, record: EmployeeRecord) {
    && GetString(v, "connectionId") == Some(record.identity.connectionId)
    && GetString(v, "displayName") == Some(record.identity.displayName)
    && GetString(v, "email") == Some(record.identity.email)
    && GetString(v, "scimUserId") == Some(record.identity.scimUserId)
    && GetString(v, "subject") == Some(record.identity.subject)
    && GetString(v, "userId") == Some(record.identity.userId)
    && GetString(v, "userKey") == Some(record.identity.userKey)
    && GetString(v, "audience") == Some(record.audience.Name())
    && GetString(v, "expiresAt") == Some(record.expiresAt)
    && Get(v, "version") == Some(Number(2.0))
  }

  lemma HeldExactlyWhen(v: Json, record: EmployeeRecord)
    requires v.Object?
    ensures Encode(record).Spells? && Encode(record).value.Object?
    ensures HoldsAll(v.fields, Encode(record).value.fields) <==> ReadsAs(v, record)
  {
    hide Encode, GetString, Get;
    RecordHasFields(record);
    FieldsReadBack(record);
    var w, i := Encode(record).value, record.identity;
    TextAgrees(v, w, "connectionId", i.connectionId);
    TextAgrees(v, w, "displayName", i.displayName);
    TextAgrees(v, w, "email", i.email);
    TextAgrees(v, w, "scimUserId", i.scimUserId);
    TextAgrees(v, w, "subject", i.subject);
    TextAgrees(v, w, "userId", i.userId);
    TextAgrees(v, w, "userKey", i.userKey);
    TextAgrees(v, w, "audience", record.audience.Name());
    TextAgrees(v, w, "expiresAt", record.expiresAt);
    VersionAgrees(v, w);
    assert HoldsAll(v.fields, w.fields) <==>
           forall key | key in RECORD_FIELDS :: key in v.fields && v.fields[key] == w.fields[key];
  }

  lemma TextAgrees(v: Json, w: Json, key: string, text: string)
    requires v.Object? && w.Object? && GetString(w, key) == Some(text)
    ensures key in w.fields && (key in v.fields && v.fields[key] == w.fields[key] <==> GetString(v, key) == Some(text))
  {}

  lemma VersionAgrees(v: Json, w: Json)
    requires v.Object? && w.Object? && Get(w, "version") == Some(Number(2.0))
    ensures "version" in w.fields
    ensures "version" in v.fields && v.fields["version"] == w.fields["version"] <==>
            Get(v, "version") == Some(Number(2.0))
  {}

  const RECORD_FIELDS: set<string> :=
    {"connectionId", "displayName", "email", "scimUserId", "subject", "userId", "userKey", "audience", "expiresAt",
     "version"}

  lemma RecordHasFields(record: EmployeeRecord)
    ensures Encode(record).Spells? && Encode(record).value.Object? && Encode(record).value.fields.Keys == RECORD_FIELDS
  {}

  lemma FieldsReadBack(record: EmployeeRecord)
    ensures ReadsAs(Encode(record).value, record)
  {
    IdentifiersReadBack(record);
    SubjectReadsBack(record);
    NamesReadBack(record);
    EnvelopeReadsBack(record);
  }

  lemma IdentifiersReadBack(record: EmployeeRecord)
    ensures var v := Encode(record).value;
            && GetString(v, "connectionId") == Some(record.identity.connectionId)
            && GetString(v, "scimUserId") == Some(record.identity.scimUserId)
  {
    KeysDiffer();
  }

  lemma SubjectReadsBack(record: EmployeeRecord)
    ensures var v := Encode(record).value;
            && GetString(v, "subject") == Some(record.identity.subject)
            && GetString(v, "userId") == Some(record.identity.userId)
  {
    KeysDiffer();
  }

  lemma NamesReadBack(record: EmployeeRecord)
    ensures var v := Encode(record).value;
            && GetString(v, "displayName") == Some(record.identity.displayName)
            && GetString(v, "email") == Some(record.identity.email)
            && GetString(v, "userKey") == Some(record.identity.userKey)
  {
    KeysDiffer();
  }

  lemma EnvelopeReadsBack(record: EmployeeRecord)
    ensures var v := Encode(record).value;
            && GetString(v, "audience") == Some(record.audience.Name())
            && GetString(v, "expiresAt") == Some(record.expiresAt)
            && Get(v, "version") == Some(Number(2.0))
  {
    KeysDiffer();
  }

  lemma KeysDiffer()
    ensures |"connectionId"| == 12 && |"displayName"| == 11 && |"email"| == 5 && |"scimUserId"| == 10
    ensures |"userId"| == 6 && |"audience"| == 8 && |"expiresAt"| == 9
    ensures |"subject"| == 7 && |"userKey"| == 7 && |"version"| == 7
    ensures "subject"[0] == 's' && "userKey"[0] == 'u' && "version"[0] == 'v'
  {}

  /** The identifier under which a token's record is stored. */
  function Identifier(p: Platform, audience: Audience, token: string): string {
    audience.Name() + ":" + p.mac(TokenMessage(audience, token))
  }

  function ProvisioningDomain(organizationId: string): string { "scim-demo-org:" + organizationId }

  /** The active row and connection behind a directory user of an organization. */
  function ResolveByOrganization(d: Directory, organizationId: string, scimUserId: string)
    : Result<Option<(Connection, Source, string)>, string>
  {
    var source := FindOne(d.sources, (s: Source) => s.id == scimUserId && s.active);
    if source.None? || source.value.externalId.None? || source.value.externalId.value == "" then Success(None) else
    var connection := FindEligibleConnection(d, source.value.connectionId);
    if connection.None? then Success(None) else
    var domain := ProvisioningDomain(organizationId);
    if |domain| > 255 then
      Failure("The organization identifier is too long for a SCIM provisioning domain")
    else if connection.value.domain != domain || source.value.domain != connection.value.domain then
      Success(None)
    else
      Success(Some((connection.value, source.value, source.value.externalId.value)))
  }

  function AcquireIdentity(p: Platform, d: Directory, organizationId: string, scimUserId: string)
    : Result<Option<EmployeeIdentity>, string>
  {
    match ResolveByOrganization(d, organizationId, scimUserId)
    case Failure(error) => Failure(error)
    case Success(None) => Success(None)
    case Success(Some((connection, source, subject))) =>
      var userKey := ResolveSubject(p, connection.connectionId, subject);
      if userKey.None? then Success(None) else
      var link := AcquireLink(d, LinkReference(connection.connectionId, subject));
      if link.None? || link.value.scimUserId != source.id || link.value.userId != source.userId then
        Success(None)
      else
        Success(Some(EmployeeIdentity(connection.connectionId, source.displayName, source.userName,
                                      source.id, subject, source.userId, userKey.value)))
  }

  /** Checks a record against the directory as it is now. */
  function ValidateIdentity(d: Directory, p: Platform, i: EmployeeIdentity): Option<EmployeeIdentity> {
    var connection := FindEligibleConnection(d, i.connectionId);
    if connection.None? then None else
    var source := FindOne(d.sources, (s: Source) =>
        s.id == i.scimUserId && s.connectionId == i.connectionId && s.userId == i.userId
        && s.externalId == Some(i.subject) && s.active);
    if source.None? || source.value.domain != connection.value.domain then None else
    var subject := FindOne(d.subjects, (s: Subject) => s.userId == i.userId);
    var user := FindOne(d.users, (u: User) => u.id == i.userId);
    if || subject.None? || user.None?
       || ResolveSubject(p, i.connectionId, i.subject) != Some(i.userKey)
       || source.value.userId != subject.value.userId
    then None
    else Some(i.(displayName := source.value.displayName, email := source.value.userName))
  }

  /** The row that a token of an employee is stored as. */
  function TokenRow(p: Platform, identity: EmployeeIdentity, audience: Audience, expiry: int): Row {
    Row(Encode(EmployeeRecord(identity, audience, p.isoDate(expiry))), expiry)
  }

  /** An administrator creates a one-time access grant; the grant is the fresh token. */
  function CreateGrant(p: Platform, d: Directory, rows: Rows, now: int,
                       organizationId: string, scimUserId: string, token: string)
    : Turn<Result<Option<string>, string>>
  {
    match AcquireIdentity(p, d, organizationId, scimUserId)
    case Failure(error) => Turn(Failure(error), rows)
    case Success(None) => Turn(Success(None), rows)
    case Success(Some(identity)) =>
      var row := TokenRow(p, identity, Access, now + ACCESS_TTL_MS);
      Turn(Success(Some(token)), rows[Identifier(p, Access, token) := row])
  }

  /** The identity for which a presented access grant opens the portal, if any. */
  function GrantedIdentity(p: Platform, d: Directory, rows: Rows, now: int, token: string): Option<EmployeeIdentity> {
    match Consumable(rows, Identifier(p, Access, token), now)
    case Some(value) =>
      (match Parse(p, value, Access, now)
       case Some(record) => ValidateIdentity(d, p, record.identity)
       case None => None)
    case None => None
  }

  /** An access grant is swapped for a portal token. A well-formed grant is used up whatever comes of it. */
  function ConsumeGrant(p: Platform, d: Directory, rows: Rows, now: int, token: string, portalToken: string)
    : Turn<Option<string>>
  {
    if !IsBase64Url43(token) then Turn(None, rows) else
    var left := rows - {Identifier(p, Access, token)};
    match GrantedIdentity(p, d, rows, now, token)
    case Some(identity) =>
      var row := TokenRow(p, identity, Portal, now + PORTAL_TTL_MS);
      Turn(Some(portalToken), left[Identifier(p, Portal, portalToken) := row])
    case None => Turn(None, left)
  }

  datatype PortalIdentity = PortalIdentity(identity: EmployeeIdentity, role: Option<string>)

  /** The employee that a portal token stands for now. */
  function FindPortalIdentity(p: Platform, d: Directory, rows: Rows, now: int, token: string)
    : Turn<Option<PortalIdentity>>
  {
    if !IsBase64Url43(token) then Turn(None, rows) else
    var identifier := Identifier(p, Portal, token);
    var left := Unexpired(rows, now);
    if identifier !in rows then Turn(None, left) else
    match Parse(p, rows[identifier].value, Portal, now)
    case None => Turn(None, left)
    case Some(record) =>
      match ValidateIdentity(d, p, record.identity)
      case None => Turn(None, left)
      case Some(identity) =>
        match FindOne(d.users, (u: User) => u.id == identity.userId)
        case None => Turn(None, left)
        case Some(user) => Turn(Some(PortalIdentity(identity, user.role)), left)
  }

  /** What the single sign-on plugin hands over once it has verified an ID token. */
  datatype SsoInput = SsoInput(
    providerId: string, isOidc: bool, issuer: string, accountId: string, connectionClaim: Option<Json>)

  datatype SsoDecision = Continue | Reject | LinkUser(userId: string)

  /** The decision, and the link it asked the directory for. */
  datatype SsoOutcome = SsoOutcome(decision: SsoDecision, asked: Option<LinkReference>)

  function ResolveSsoUser(p: Platform, d: Directory, input: SsoInput): SsoOutcome {
    if input.providerId != SSO_PROVIDER_ID then SsoOutcome(Continue, None)
    else if !input.isOidc || input.issuer != p.Issuer() then SsoOutcome(Reject, None)
    else
      match input.connectionClaim
      case Some(String(connectionId)) => LinkSubject(p, d, connectionId, input.accountId)
      case _ => SsoOutcome(Reject, None)
  }

  function LinkSubject(p: Platform, d: Directory, connectionId: string, subject: string): SsoOutcome {
    if !IsSubject(subject) then SsoOutcome(Reject, None) else
    var connection := FindConnection(d, connectionId);
    if || connection.None? || connection.value.status != Active
       || ResolveSubject(p, connection.value.connectionId, subject).None?
    then SsoOutcome(Reject, None)
    else
    var source := FindOne(d.sources, (s: Source) =>
        s.connectionId == connection.value.connectionId && s.externalId == Some(subject) && s.active);
    if source.None? || source.value.domain != connection.value.domain then SsoOutcome(Reject, None) else
    var reference := LinkReference(connection.value.connectionId, subject);
    match AcquireLink(d, reference)
    case Some(link) => SsoOutcome(LinkUser(link.userId), Some(reference))
    case None => SsoOutcome(Reject, Some(reference))
  }

  /** An active connection and an active row of the employee, in one provisioning domain. */
  ghost predicate ActiveInOneDomain(d: Directory, i: EmployeeIdentity) {
    exists domain ::
      && HasActiveConnection(d, domain, i.connectionId)
      && HasActiveSource(d, domain, i.connectionId, i.subject, i.scimUserId, i.userId)
  }

  /** Name and address are those that an active row of the employee holds now. */
  ghost predicate NamedByRow(d: Directory, i: EmployeeIdentity) {
    exists s | s in d.sources ::
      && s.id == i.scimUserId && s.connectionId == i.connectionId && s.userId == i.userId
      && s.externalId == Some(i.subject) && s.active && s.displayName == i.displayName && s.userName == i.email
  }

  /** An active connection and an active row that links the user, in one provisioning domain. */
  ghost predicate LinkedInOneDomain(d: Directory, reference: LinkReference, userId: string) {
    exists domain, id ::
      && HasActiveConnection(d, domain, reference.connectionId)
      && HasActiveSource(d, domain, reference.connectionId, reference.externalId, id, userId)
  }

  /** Acquiring an identity reads an active row of an active connection, both in the provisioning domain
      of the very organization, whose subject belongs to the returned user of that very connection. */
  lemma AcquiredIdentityIsActive(p: Platform, d: Directory, organizationId: string, scimUserId: string)
    ensures var acquired := AcquireIdentity(p, d, organizationId, scimUserId);
            (acquired.Success? && acquired.value.Some?) ==>
              var i := acquired.value.value;
              && HasActiveConnection(d, ProvisioningDomain(organizationId), i.connectionId)
              && HasActiveSource(d, ProvisioningDomain(organizationId), i.connectionId, i.subject, i.scimUserId,
                                 i.userId)
              && HasUser(d, i.userId) && !IsBuried(d, LinkReference(i.connectionId, i.subject))
              && NamedByRow(d, i) && i.scimUserId == scimUserId
              && i.userKey in USER_KEYS
              && ResolveSubject(p, i.connectionId, i.subject) == Some(i.userKey)
  {
    var resolved := ResolveByOrganization(d, organizationId, scimUserId);
    if resolved.Success? && resolved.value.Some? {
      var (connection, source, subject) := resolved.value.value;
      assert source in d.sources && connection in d.connections;
      LinkHasActiveSource(d, LinkReference(connection.connectionId, subject));
      FindUserFinds(p, connection.connectionId, subject, USER_KEYS);
    }
  }

  /** Access can be granted to this identity: an active row with a subject of its own, in the domain of the
      organization, to which its active connection is bound, of an existing user that is not buried. */
  ghost predicate Grantable(p: Platform, d: Directory, organizationId: string, i: EmployeeIdentity) {
    var domain := ProvisioningDomain(organizationId);
    && |domain| <= 255 && i.subject != "" && NamedByRow(d, i)
    && HasActiveConnection(d, domain, i.connectionId) && HasActiveBinding(d, domain, i.connectionId)
    && HasActiveSource(d, domain, i.connectionId, i.subject, i.scimUserId, i.userId)
    && HasUser(d, i.userId) && !IsBuried(d, LinkReference(i.connectionId, i.subject))
    && ResolveSubject(p, i.connectionId, i.subject) == Some(i.userKey)
  }

  /** On a directory with its keys, an identity is acquired exactly when access can be granted to it. */
  lemma AcquiredExactlyWhen(p: Platform, d: Directory, organizationId: string, scimUserId: string, i: EmployeeIdentity)
    requires WellKeyed(d)
    ensures AcquireIdentity(p, d, organizationId, scimUserId) == Success(Some(i)) <==>
            i.scimUserId == scimUserId && Grantable(p, d, organizationId, i)
  {
    hide ResolveSubject, AcquireLink;
    if AcquireIdentity(p, d, organizationId, scimUserId) == Success(Some(i)) {
      AcquiredIdentityIsActive(p, d, organizationId, scimUserId);
      BoundWhenLinked(d, LinkReference(i.connectionId, i.subject), Link(i.scimUserId, i.userId),
                      ProvisioningDomain(organizationId));
    }
    if i.scimUserId == scimUserId && Grantable(p, d, organizationId, i) {
      LinkedExactlyWhen(d, LinkReference(i.connectionId, i.subject), Link(i.scimUserId, i.userId));
    }
  }

  lemma BoundWhenLinked(d: Directory, reference: LinkReference, link: Link, domain: string)
    requires WellKeyed(d) && AcquireLink(d, reference) == Some(link)
    requires HasActiveSource(d, domain, reference.connectionId, reference.externalId, link.scimUserId, link.userId)
    ensures HasActiveBinding(d, domain, reference.connectionId)
  {
    LinkHasActiveSource(d, reference);
  }

  /** On a directory with its keys, a record is valid exactly while its employee is active and known. */
  lemma ValidExactlyWhen(p: Platform, d: Directory, i: EmployeeIdentity)
    requires WellKeyed(d)
    ensures ValidateIdentity(d, p, i).Some? <==>
            && ActiveInOneDomain(d, i) && HasUser(d, i.userId)
            && ResolveSubject(p, i.connectionId, i.subject) == Some(i.userKey)
  {
    hide ResolveSubject;
    ValidatedIdentityIsActive(p, d, i);
  }

  /** What a decision needs to link a user: a verified ID token of the own issuer for a resolving subject,
      whose row is active in the domain that its active connection has and is bound to. */
  ghost predicate Linkable(p: Platform, d: Directory, input: SsoInput, connectionId: string, userId: string) {
    && input.providerId == SSO_PROVIDER_ID && input.isOidc && input.issuer == p.Issuer()
    && input.connectionClaim == Some(String(connectionId))
    && ResolveSubject(p, connectionId, input.accountId).Some?
    && !IsBuried(d, LinkReference(connectionId, input.accountId)) && HasUser(d, userId)
    && exists domain, id ::
         && HasActiveConnection(d, domain, connectionId) && HasActiveBinding(d, domain, connectionId)
         && HasActiveSource(d, domain, connectionId, input.accountId, id, userId)
  }

  /** On a directory with its keys, a user is linked exactly when the token allows it. */
  lemma LinksExactlyWhen(p: Platform, d: Directory, input: SsoInput, userId: string)
    requires WellKeyed(d)
    ensures ResolveSsoUser(p, d, input).decision == LinkUser(userId) <==>
            exists connectionId :: Linkable(p, d, input, connectionId, userId)
  {
    hide ResolveSubject, AcquireLink;
    if ResolveSsoUser(p, d, input).decision == LinkUser(userId) {
      LinkedIsLinkable(p, d, input, userId);
    }
    forall connectionId | Linkable(p, d, input, connectionId, userId)
      ensures ResolveSsoUser(p, d, input).decision == LinkUser(userId)
    {
      LinkableIsLinked(p, d, input, connectionId, userId);
    }
  }

  lemma LinkedIsLinkable(p: Platform, d: Directory, input: SsoInput, userId: string)
    requires WellKeyed(d) && ResolveSsoUser(p, d, input).decision == LinkUser(userId)
    ensures exists connectionId :: Linkable(p, d, input, connectionId, userId)
  {
    hide ResolveSubject, AcquireLink;
    DecisionAsksForClaims(p, d, input);
    var connectionId := input.connectionClaim.value.text;
    var reference := LinkReference(connectionId, input.accountId);
    var domain, id :| HasActiveConnection(d, domain, connectionId)
                      && HasActiveSource(d, domain, connectionId, input.accountId, id, userId);
    var link := AcquireLink(d, reference).value;
    LinkHasActiveSource(d, reference);
    assert link.scimUserId == id;
    BoundWhenLinked(d, reference, link, domain);
    assert Linkable(p, d, input, connectionId, userId);
  }

  lemma LinkableIsLinked(p: Platform, d: Directory, input: SsoInput, connectionId: string, userId: string)
    requires WellKeyed(d) && Linkable(p, d, input, connectionId, userId)
    ensures ResolveSsoUser(p, d, input).decision == LinkUser(userId)
  {
    hide AcquireLink, FindUser;
    var domain, id :|
      && HasActiveConnection(d, domain, connectionId) && HasActiveBinding(d, domain, connectionId)
      && HasActiveSource(d, domain, connectionId, input.accountId, id, userId);
    LinkedExactlyWhen(d, LinkReference(connectionId, input.accountId), Link(id, userId));
  }

  /** A row that stands for a token of an audience: it holds the record of an employee, and the date in it is
      still ahead. */
  ghost predicate StandsFor(p: Platform, row: Row, audience: Audience, now: int, record: EmployeeRecord) {
    && row.value.Spells? && row.value.value.Object? && record.audience == audience
    && record.identity.userKey in USER_KEYS && HoldsAll(row.value.value.fields, Encode(record).value.fields)
    && p.parseDate(record.expiresAt).Some? && now < p.parseDate(record.expiresAt).value
  }

  lemma ParsedExactlyWhen(p: Platform, row: Row, audience: Audience, now: int, record: EmployeeRecord)
    ensures Parse(p, row.value, audience, now) == Some(record) <==> StandsFor(p, row, audience, now, record)
  {
    hide Decode, Encode;
    DecodedExactlyWhen(p, row.value, audience, record);
  }

  /** The employee of a record, as the directory names it now. */
  ghost predicate IsNow(p: Platform, d: Directory, i: EmployeeIdentity, current: EmployeeIdentity) {
    && SameEmployee(current, i) && ActiveInOneDomain(d, i) && HasUser(d, i.userId) && NamedByRow(d, current)
    && ResolveSubject(p, i.connectionId, i.subject) == Some(i.userKey)
  }

  /** A well-formed grant is spent whenever it is presented, and opens the portal exactly when its row is there, stands
      for an employee, has not run out, and the directory still knows the employee; the portal's row then stands
      for the employee as the directory names it now, for ten minutes. */
  lemma OpenedExactlyWhen(p: Platform, d: Directory, rows: Rows, now: int, token: string, portalToken: string)
    requires WellKeyed(d) && Identifier(p, Portal, portalToken) != Identifier(p, Access, token)
    ensures var turn, id := ConsumeGrant(p, d, rows, now, token, portalToken), Identifier(p, Access, token);
            var portal := Identifier(p, Portal, portalToken);
            && (turn.result.Some? <==>
                  && IsBase64Url43(token) && id in rows && now <= rows[id].expiresAt
                  && exists record, current :: StandsFor(p, rows[id], Access, now, record)
                       && IsNow(p, d, record.identity, current))
            && (turn.result.None? ==> turn.rows == if IsBase64Url43(token) then rows - {id} else rows)
            && (turn.result.Some? ==>
                  && turn.result == Some(portalToken) && id !in turn.rows
                  && turn.rows - {portal} == rows - {id} - {portal}
                  && portal in turn.rows && turn.rows[portal].expiresAt == now + 600_000
                  && exists record, current :: StandsFor(p, rows[id], Access, now, record)
                       && IsNow(p, d, record.identity, current)
                       && turn.rows[portal].value == Encode(EmployeeRecord(current, Portal, p.isoDate(now + 600_000))))
  {
    hide Identifier, Parse, ValidateIdentity, Encode, StandsFor, IsNow, IsBase64Url43, WellKeyed;
    var id := Identifier(p, Access, token);
    if id in rows {
      forall record ensures Parse(p, rows[id].value, Access, now) == Some(record) <==>
                            StandsFor(p, rows[id], Access, now, record) {
        ParsedExactlyWhen(p, rows[id], Access, now, record);
      }
      forall record: EmployeeRecord, current
        ensures IsNow(p, d, record.identity, current) ==> ValidateIdentity(d, p, record.identity).Some?
      {
        NowIsValid(p, d, record.identity, current);
      }
      forall record: EmployeeRecord | ValidateIdentity(d, p, record.identity).Some?
        ensures IsNow(p, d, record.identity, ValidateIdentity(d, p, record.identity).value)
      {
        ValidIsNow(p, d, record.identity);
      }
    }
  }

  lemma NowIsValid(p: Platform, d: Directory, i: EmployeeIdentity, current: EmployeeIdentity)
    requires WellKeyed(d)
    ensures IsNow(p, d, i, current) ==> ValidateIdentity(d, p, i).Some?
  {
    hide ValidateIdentity, ResolveSubject;
    ValidExactlyWhen(p, d, i);
  }

  lemma ValidIsNow(p: Platform, d: Directory, i: EmployeeIdentity)
    requires ValidateIdentity(d, p, i).Some?
    ensures IsNow(p, d, i, ValidateIdentity(d, p, i).value)
  {
    hide ValidateIdentity, ResolveSubject;
    ValidatedIdentityIsActive(p, d, i);
  }

  /** A portal token shows an identity exactly when its row is there and stands for an employee whom the directory
      still knows: the employee as the directory names it now, with a role that a user row of its own holds. The
      rows that have run out are gone afterwards, unless the token is malformed. */
  lemma ShownExactlyWhen(p: Platform, d: Directory, rows: Rows, now: int, token: string)
    requires WellKeyed(d)
    ensures var turn, id := FindPortalIdentity(p, d, rows, now, token), Identifier(p, Portal, token);
            && (turn.result.Some? <==>
                  && IsBase64Url43(token) && id in rows
                  && exists record, current :: StandsFor(p, rows[id], Portal, now, record)
                       && IsNow(p, d, record.identity, current))
            && (turn.result.Some? ==>
                  exists record :: StandsFor(p, rows[id], Portal, now, record)
                    && IsNow(p, d, record.identity, turn.result.value.identity)
                    && exists u | u in d.users :: u.id == record.identity.userId && u.role == turn.result.value.role)
            && forall key :: key in turn.rows <==> key in rows && (!IsBase64Url43(token) || now <= rows[key].expiresAt)
  {
    hide Identifier, Parse, ValidateIdentity, Encode, StandsFor, IsBase64Url43, WellKeyed, ResolveSubject;
    var id := Identifier(p, Portal, token);
    if id in rows {
      forall record ensures Parse(p, rows[id].value, Portal, now) == Some(record) <==>
                            StandsFor(p, rows[id], Portal, now, record) {
        ParsedExactlyWhen(p, rows[id], Portal, now, record);
      }
      forall record: EmployeeRecord, current
        ensures IsNow(p, d, record.identity, current) ==> ValidateIdentity(d, p, record.identity).Some?
      {
        NowIsValid(p, d, record.identity, current);
      }
      forall record: EmployeeRecord | ValidateIdentity(d, p, record.identity).Some?
        ensures IsNow(p, d, record.identity, ValidateIdentity(d, p, record.identity).value)
      {
        ValidIsNow(p, d, record.identity);
      }
    }
  }

  /** No directory user can be granted access by two organizations. */
  lemma OrganizationsAreApart(p: Platform, d: Directory, one: string, other: string, scimUserId: string)
    requires AcquireIdentity(p, d, one, scimUserId).Success? && AcquireIdentity(p, d, one, scimUserId).value.Some?
    requires AcquireIdentity(p, d, other, scimUserId).Success? && AcquireIdentity(p, d, other, scimUserId).value.Some?
    ensures one == other
  {
    var found := FindOne(d.sources, (s: Source) => s.id == scimUserId && s.active).value;
    assert found.domain == ProvisioningDomain(one) && found.domain == ProvisioningDomain(other);
    PrefixCancel("scim-demo-org:", one, other);
  }

  /** Validation keeps the employee and answers only while connection and row are active in one domain
      and the user exists. */
  lemma ValidatedIdentityIsActive(p: Platform, d: Directory, i: EmployeeIdentity)
    ensures var v := ValidateIdentity(d, p, i);
            v.Some? ==>
              && SameEmployee(v.value, i)
              && ActiveInOneDomain(d, i) && NamedByRow(d, v.value) && HasUser(d, i.userId)
              && ResolveSubject(p, i.connectionId, i.subject) == Some(i.userKey)
  {
    if ValidateIdentity(d, p, i).Some? {
      var connection := FindEligibleConnection(d, i.connectionId).value;
      assert HasActiveConnection(d, connection.domain, i.connectionId);
    }
  }

  /** Only other providers' decisions are left open. A decision asks only for the subject and connection
      that a verified ID token of the deployment's own issuer names, and only if that subject belongs to
      a user of that connection; a user is linked only for an active row of exactly that pair. */
  lemma DecisionAsksForClaims(p: Platform, d: Directory, input: SsoInput)
    ensures var outcome := ResolveSsoUser(p, d, input);
            && (outcome.decision.Continue? <==> input.providerId != SSO_PROVIDER_ID)
            && (outcome.asked.Some? ==>
                  && input.isOidc && input.issuer == p.Issuer()
                  && input.connectionClaim == Some(String(outcome.asked.value.connectionId))
                  && input.accountId == outcome.asked.value.externalId
                  && ResolveSubject(p, outcome.asked.value.connectionId, input.accountId).Some?)
            && (outcome.decision.LinkUser? ==>
                  && outcome.asked.Some? && !IsBuried(d, outcome.asked.value) && HasUser(d, outcome.decision.userId)
                  && LinkedInOneDomain(d, outcome.asked.value, outcome.decision.userId))
  {
    hide ResolveSubject;
    var outcome := ResolveSsoUser(p, d, input);
    if outcome.decision.LinkUser? {
      LinkHasActiveSource(d, outcome.asked.value);
      var connection := FindConnection(d, outcome.asked.value.connectionId).value;
      var source := FindOne(d.sources, (s: Source) =>
          s.connectionId == connection.connectionId && s.externalId == Some(input.accountId) && s.active).value;
      assert HasActiveConnection(d, connection.domain, connection.connectionId);
      assert HasActiveSource(d, source.domain, connection.connectionId, input.accountId, source.id, source.userId);
    }
  }

  method CreateAccessGrant(p: Platform, d: Directory, store: Store, now: int,
                           organizationId: string, scimUserId: string, token: string)
    returns (grant: Result<Option<string>, string>)
    modifies store
    ensures Turn(grant, store.rows) == CreateGrant(p, d, old(store.rows), now, organizationId, scimUserId, token)
  {
    var acquired := AcquireIdentity(p, d, organizationId, scimUserId);
    if acquired.Failure? {
      return Failure(acquired.error);
    }
    if acquired.value.None? {
      return Success(None);
    }
    var expiresAt := now + ACCESS_TTL_MS;
    var record := EmployeeRecord(acquired.value.value, Access, p.isoDate(expiresAt));
    store.CreateVerificationValue(Identifier(p, Access, token), Encode(record), expiresAt);
    grant := Success(Some(token));
  }

  method ConsumeAccessGrant(p: Platform, d: Directory, store: Store, now: int, token: string, portalToken: string)
    returns (portal: Option<string>)
    modifies store
    ensures Turn(portal, store.rows) == ConsumeGrant(p, d, old(store.rows), now, token, portalToken)
  {
    if !IsBase64Url43(token) {
      return None;
    }
    var consumed := store.ConsumeVerificationValue(Identifier(p, Access, token), now);
    if consumed.None? {
      return None;
    }
    var record := Parse(p, consumed.value, Access, now);
    if record.None? {
      return None;
    }
    var identity := ValidateIdentity(d, p, record.value.identity);
    if identity.None? {
      return None;
    }
    var expiresAt := now + PORTAL_TTL_MS;
    var portalRecord := EmployeeRecord(identity.value, Portal, p.isoDate(expiresAt));
    store.CreateVerificationValue(Identifier(p, Portal, portalToken), Encode(portalRecord), expiresAt);
    portal := Some(portalToken);
  }

  method PortalIdentityByToken(p: Platform, d: Directory, store: Store, now: int, token: string)
    returns (identity: Option<PortalIdentity>)
    modifies store
    ensures Turn(identity, store.rows) == FindPortalIdentity(p, d, old(store.rows), now, token)
  {
    if !IsBase64Url43(token) {
      return None;
    }
    var value := store.FindVerificationValue(Identifier(p, Portal, token), now);
    if value.None? {
      return None;
    }
    var record := Parse(p, value.value, Portal, now);
    if record.None? {
      return None;
    }
    var validated := ValidateIdentity(d, p, record.value.identity);
    if validated.None? {
      return None;
    }
    var user := FindOne(d.users, (u: User) => u.id == validated.value.userId);
    identity := if user.Some? then Some(PortalIdentity(validated.value, user.value.role)) else None;
  }
}
