/** The directory database: managed connections, provisioned users and the local users they link. */
module Directory {
  import opened Wrappers

  datatype ConnectionStatus = Active | Decommissioning | Decommissioned

  datatype Connection = Connection(connectionId: string, domain: string, status: ConnectionStatus)

  datatype Source = Source(
    id: string, connectionId: string, domain: string, userId: string, externalId: Option<string>,
    userName: string, displayName: string, active: bool)

  datatype Subject = Subject(id: string, userId: string)

  datatype User = User(id: string, email: string, name: string, role: Option<string>)

  datatype Binding = Binding(id: string, connectionId: string, domain: string, active: bool)

  datatype Tombstone = Tombstone(connectionId: string, externalId: string)

  datatype Directory = Directory(
    connections: seq<Connection>, sources: seq<Source>, subjects: seq<Subject>, users: seq<User>,
    bindings: seq<Binding>, tombstones: seq<Tombstone>)

  /** `findOne`: the first row that matches. */
  function FindOne<T>(rows: seq<T>, matches: T -> bool): (found: Option<T>)
    ensures found.Some? ==> found.value in rows && matches(found.value)
    ensures found.None? ==> forall row | row in rows :: !matches(row)
  {
    if rows == [] then None
    else if matches(rows[0]) then Some(rows[0])
    else FindOne(rows[1..], matches)
  }

  function FindConnection(d: Directory, connectionId: string): Option<Connection> {
    FindOne(d.connections, (c: Connection) => c.connectionId == connectionId)
  }

  function FindEligibleConnection(d: Directory, connectionId: string): Option<Connection> {
    match FindConnection(d, connectionId)
    case Some(c) => if c.status == Active then Some(c) else None
    case None => None
  }

  datatype LinkReference = LinkReference(connectionId: string, externalId: string)

  datatype Link = Link(scimUserId: string, userId: string)

  /** Acquires the link of an active directory row, in a transaction that nothing interrupts. */
  function AcquireLink(d: Directory, reference: LinkReference): Option<Link> {
    var source := FindOne(d.sources, (s: Source) =>
        s.connectionId == reference.connectionId && s.externalId == Some(reference.externalId) && s.active);
    if source.None? then None else
    var binding := FindOne(d.bindings, (b: Binding) => b.connectionId == reference.connectionId && b.active);
    if binding.None? || binding.value.domain != source.value.domain then None else
    if FindOne(d.tombstones, (t: Tombstone) =>
        t.connectionId == reference.connectionId && t.externalId == reference.externalId).Some? then None else
    if FindOne(d.subjects, (s: Subject) => s.userId == source.value.userId).None? then None else
    if FindOne(d.users, (u: User) => u.id == source.value.userId).None? then None else
    Some(Link(source.value.id, source.value.userId))
  }

  /** An active row of a domain's directory for exactly this subject on exactly this connection. */
  ghost predicate HasActiveSource(d: Directory, domain: string, connectionId: string, subject: string,
                                  scimUserId: string, userId: string)
  {
    exists s | s in d.sources ::
      s.id == scimUserId && s.connectionId == connectionId && s.domain == domain && s.userId == userId
      && s.externalId == Some(subject) && s.active
  }

  ghost predicate HasActiveConnection(d: Directory, domain: string, connectionId: string) {
    exists c | c in d.connections :: c.connectionId == connectionId && c.domain == domain && c.status == Active
  }

  ghost predicate HasActiveBinding(d: Directory, domain: string, connectionId: string) {
    exists b | b in d.bindings :: b.connectionId == connectionId && b.domain == domain && b.active
  }

  /** The local user exists, and so does its provisioned subject. */
  ghost predicate HasUser(d: Directory, userId: string) {
    (exists s | s in d.subjects :: s.userId == userId) && (exists u | u in d.users :: u.id == userId)
  }

  ghost predicate IsBuried(d: Directory, reference: LinkReference) {
    exists t | t in d.tombstones :: t.connectionId == reference.connectionId && t.externalId == reference.externalId
  }

  /** What the keys of the database ensure: one connection an identifier, one active binding a
      connection, and one active row an identifier and an external identifier of a connection. */
  ghost predicate WellKeyed(d: Directory) {
    && (forall c, e | c in d.connections && e in d.connections && c.connectionId == e.connectionId :: c == e)
    && (forall b, e | b in d.bindings && e in d.bindings && b.connectionId == e.connectionId && b.active && e.active ::
          b == e)
    && (forall s, t | s in d.sources && t in d.sources && s.active && t.active && s.id == t.id :: s == t)
    && (forall s, t | s in d.sources && t in d.sources && s.active && t.active && s.externalId.Some?
                      && s.connectionId == t.connectionId && s.externalId == t.externalId :: s == t)
  }

  /** With those keys a link is acquired for every active row whose domain its connection is bound to,
      unless the identity is buried or its user is gone. */
  lemma LinkedExactlyWhen(d: Directory, reference: LinkReference, link: Link)
    requires WellKeyed(d)
    ensures AcquireLink(d, reference) == Some(link) <==>
            && !IsBuried(d, reference) && HasUser(d, link.userId)
            && exists domain ::
                 && HasActiveBinding(d, domain, reference.connectionId)
                 && HasActiveSource(d, domain, reference.connectionId, reference.externalId, link.scimUserId,
                                    link.userId)
  {
    if AcquireLink(d, reference) == Some(link) {
      LinkHasActiveSource(d, reference);
    }
  }

  /** A link is only ever acquired for an active directory row of exactly the reference, in the domain of
      an active binding of the connection, for an existing user, and never for a buried identity. */
  lemma LinkHasActiveSource(d: Directory, reference: LinkReference)
    ensures var link := AcquireLink(d, reference);
            link.Some? ==>
              && !IsBuried(d, reference) && HasUser(d, link.value.userId)
              && exists domain ::
                   && HasActiveBinding(d, domain, reference.connectionId)
                   && HasActiveSource(d, domain, reference.connectionId, reference.externalId, link.value.scimUserId,
                                      link.value.userId)
  {
    if AcquireLink(d, reference).Some? {
      var source := FindOne(d.sources, (s: Source) =>
          s.connectionId == reference.connectionId && s.externalId == Some(reference.externalId) && s.active).value;
      assert HasActiveSource(d, source.domain, reference.connectionId, reference.externalId, source.id, source.userId);
      assert HasActiveBinding(d, source.domain, reference.connectionId);
    }
  }
}
