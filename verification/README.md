# Verified models of the CinaAuth demo, portal and docs logic

This Dafny project models six parts of the repository and proves what each is for.

**Workforce sign-in** (`Platform`, `SoundPlatform`, `Identity`, `VerificationStore`, `Directory`, `Employee`,
`OidcRequest`, `Oidc`, `SignIn`, `SignInCompletes`). An administrator grants an employee access, the one-time grant
is swapped for a portal token, the portal token shows an identity, the identity is issued an authorization code
(sections 4.1.2 and 4.1.3 of RFC 6749), the code is exchanged under PKCE (sections 4.3 to 4.6 of RFC 7636) for an ID
token, and the ID token decides which user is linked. Every exported call is one atomic step with one clock reading;
steps of any number of sign-ins interleave with arbitrary changes of the directory and with other users of the
verification store. Each operation is a function on the stored rows; the methods on `VerificationStore.Store` are
proved equal to those functions, what each operation accepts is stated in terms of the request, the row and the
directory, and the claims on runs are invariants over all of them. A ledger records what came from what,
only so that claims about the origin of a decision can be stated. The assumptions on the surroundings are fields and
one predicate, `Platform.Sound`: the MAC has no collision among the messages the program signs, SHA-256 values have
their usual shape, ASCII texts encode differently, printed dates read back; `SoundPlatform`
shows that they can be met together. Random tokens are fresh. ID tokens come
only from the token endpoint.

**API method documentation** (`ApiMethod`, `ApiDocumented`, `ApiReparse`, `ApiTree`, `ApiExamples`, `ApiReading`,
`ApiBodies`, `PropertyList`). A line parser with a nesting stack yields a flat list of properties; two printers and a
recursive table rebuild the nesting from depths alone, after filtering for a side. The flat forms are proved to refine
the nesting tree, what is parsed is stated over the lines of the declaration (`ApiDocumented`), and what is printed is
read back by a line reader of its own (`ApiReading`, `ApiBodies`).

**Portal data formats** (`AuthCapabilities`, `AuditCsv`). A normaliser and a validator over arbitrary JSON that must
agree, and a CSV printer that is undone by a reader for section 2 of RFC 4180.

**Organization roles** (`OrganizationRoles`, `RolePermissions`). Role changes, leaves and removals as a state machine,
and the permission editor from toggles to what a saved role allows.

**Documentation links** (`DocsVersions`, `MarkdownLinks`). Version prefixes, the closest-page switcher, and the
right-to-left splice of links.

**Modal accessibility shim** (`ModalShim`). An event-driven object over frames, mutations, clicks and open/close
events, with a log of its calls on the platform from which the platform's own state is computed.

`Wrappers`, `Text` and `Json` hold shared types and the string operations used throughout.

Where the code and its documentation or the expectation on it differ, the code is modelled:

- The exchange does not look at the code's expiry, the store does; the employee records are checked by the program.
  A store lookup (unlike consuming) returns an expired row once before it is cleaned up.
- The leading-quote guard of the CSV export makes `=x` and `'=x` print alike (`AuditCsv.GuardedTextsPrintAlike`), so the
  round trip is on normalised cells; `AuditCsv.NormalizedCellsCollide` says exactly which cells collide.
- The version switcher returns the empty text instead of a page in one case; `DocsVersions.SwitcherLandsOnClosest` says
  exactly when.
- The member-management rule alone would let the only owner remove itself; `OrganizationRoles.ManagedRemovalLosesTheLastOwner`
  says exactly when. The console offers no such button, and with that rule the ownership invariant holds.
- The counter of patch attempts passes 8 in a run exactly when an opening is announced again after the last attempt and
  then a frame runs before the modal reports a mutation, closes or is disposed of (`ModalShim.CounterWithinExactlyWhen`;
  `ModalShim.CounterCanPassTheLimit` is such a run). The number of frames that run after the last opening or mutation
  never passes 8 (`ModalShim.AtMostEightFramesMore`).

## Model

| member | source | states |
|---|---|---|
| Identity.SubjectMessageInjective | demo/nextjs/lib/scim-demo-identity.ts:81-94 | the length-prefixed message determines connection and user key, even when they contain the separator, and conversely |
| Identity.SubjectResolvesOnlyAtHome | demo/nextjs/lib/scim-demo-identity.ts:99-136 | subjects are created exactly for well-formed connections; a created subject resolves to its user key on its own connection and to nothing on every other connection |
| VerificationStore.Store.CreateVerificationValue | packages/cinaauth/src/db/internal-adapter.ts:1254-1294 | the named row is written and every other row is unchanged |
| VerificationStore.Store.ConsumeVerificationValue | packages/cinaauth/src/db/internal-adapter.ts:1405-1519 | the row is removed whatever its age, and returned only when not past its expiry; all other rows stay |
| VerificationStore.Store.FindVerificationValue | packages/cinaauth/src/db/internal-adapter.ts:1295-1363 | returns what is stored, then only unexpired rows remain |
| Directory.LinkHasActiveSource | packages/scim/src/identity.ts:59-166 | a link is acquired only for an active row of exactly the referenced connection and external identifier, in the domain of an active binding, for an existing subject and user, and never for a buried identity |
| Directory.LinkedExactlyWhen | packages/scim/src/identity.ts:59-166 | on a directory with its keys a link is acquired for exactly the active rows whose domain an active binding of the connection has, whose subject and user exist and whose identity is not buried |
| Employee.RecordsReadBack | demo/nextjs/lib/scim-demo-employee.ts:151-190 | a stored record is read back unchanged by its own audience, for a known user key and strictly before its expiry, and otherwise not at all |
| Employee.DecodedExactlyWhen | demo/nextjs/lib/scim-demo-employee.ts:151-190 | a text decodes to a record exactly when it spells an object holding all ten fields of that record for that audience, with a known user key and a valid date |
| Employee.AcquiredIdentityIsActive | demo/nextjs/lib/scim-demo-employee.ts:297-349 | an acquired identity has an active connection and an active directory row, both in the provisioning domain of the very organization, an existing user that is not buried, a subject that resolves to its user key there, and the name and address its row holds |
| Employee.AcquiredExactlyWhen | demo/nextjs/lib/scim-demo-employee.ts:297-349 | on a directory with its keys an identity is acquired exactly when access can be granted to it: domain within 255 characters, active connection, row and binding in that domain, existing user, not buried, resolving subject, named as in its row |
| Employee.OrganizationsAreApart | demo/nextjs/lib/scim-demo-employee.ts:266-295 | no directory user can be granted access by two organizations |
| Employee.ValidatedIdentityIsActive | demo/nextjs/lib/scim-demo-employee.ts:351-405 | validation keeps connection, row, subject, user and key, takes name and address from the row as it is now, and answers only while connection and row are active in one domain and subject and user exist |
| Employee.ValidExactlyWhen | demo/nextjs/lib/scim-demo-employee.ts:351-405 | on a directory with its keys a record is valid exactly while its connection and row are active in one domain, subject and user exist and the subject resolves to its key |
| Employee.DecisionAsksForClaims | demo/nextjs/lib/scim-demo-employee.ts:582-641 | exactly other providers' decisions are left open; a decision asks only for the connection and subject of an ID token of the own issuer whose subject resolves there, and links only the user of an active row of that pair in the connection's domain |
| Employee.LinksExactlyWhen | demo/nextjs/lib/scim-demo-employee.ts:582-641 | on a directory with its keys a user is linked exactly for a verified ID token of the own issuer and provider that names a connection and a resolving subject whose row is active and bound in that connection's domain |
| Employee.CreateAccessGrant | demo/nextjs/lib/scim-demo-employee.ts:420-449 | the step on the store equals the specification function the run claims are about |
| Employee.ConsumeAccessGrant | demo/nextjs/lib/scim-demo-employee.ts:451-488 | a well-formed grant leaves the store whatever comes of it; a portal row is written only for a valid identity |
| Employee.OpenedExactlyWhen | demo/nextjs/lib/scim-demo-employee.ts:451-488 | a grant opens the portal exactly when it is well-formed, its row is there and in time, holds an access record in time and the directory still knows the employee; it is spent in any case once well-formed, and the portal row stands for the employee as named now, for ten minutes |
| Employee.PortalIdentityByToken | demo/nextjs/lib/scim-demo-employee.ts:497-529 | the lookup equals the specification function: record in time, valid in the directory, user present |
| Employee.ShownExactlyWhen | demo/nextjs/lib/scim-demo-employee.ts:497-529 | a portal token shows exactly an employee whose portal record is in time and whom the directory still knows, named as now and with a role of the own user row; afterwards exactly the unexpired rows remain, or all for a malformed token |
| OidcRequest.RecordReadsLikeQuery | demo/nextjs/lib/scim-demo-oidc.ts:154-158 | a page's parameter record and the query it was made from yield the same parameter for every name |
| OidcRequest.FirstMeans | demo/nextjs/lib/scim-demo-oidc.ts:154-158 | of repeated parameters the first one counts |
| OidcRequest.AcceptedExactlyWhen | demo/nextjs/lib/scim-demo-oidc.ts:176-252 | a request is accepted exactly when it presents the code flow, the client, the deployment's redirect URI, the openid scope and no unsupported one, a state of 1 to 2048 characters, nonce and hint within 2048, a PKCE-shaped challenge and S256 |
| OidcRequest.RefusedAs | demo/nextjs/lib/scim-demo-oidc.ts:192-238 | any other request is refused with the error of the first parameter that is wrong |
| OidcRequest.AcceptedAsPresented | demo/nextjs/lib/scim-demo-oidc.ts:239-251 | an accepted request says what was presented, with empty nonce and hint absent and the requested scopes in their one order |
| OidcRequest.CanonicalScope | demo/nextjs/lib/scim-demo-oidc.ts:176-252 | supported scopes come back in canonical order, and that order is a fixed point |
| OidcRequest.AcceptedRequestRoundTrips | demo/nextjs/lib/scim-demo-oidc.ts:176-318 | every accepted request survives printing as form fields and as page parameters and parsing again, unchanged; absent nonce and hint stay absent |
| Oidc.CodeReadsBack | demo/nextjs/lib/scim-demo-oidc.ts:528-560 | a recorded authorization code is read back unchanged exactly for known user keys |
| Oidc.DecodedExactlyWhen | demo/nextjs/lib/scim-demo-oidc.ts:528-560 | a text decodes to a code exactly when it spells an object holding all ten fields of that code, of a known user |
| Oidc.SecretsMatch | demo/nextjs/lib/scim-demo-oidc.ts:562-571 | the accumulating loop is true exactly when the byte sequences are equal, lengths included |
| Oidc.IssueAuthorizationCode | demo/nextjs/lib/scim-demo-oidc.ts:486-526 | a code is issued exactly for an acceptable request by a user whose subject is that user's own, with a redirect to the deployment carrying that code and the presented state; a refusal leaves the store unchanged |
| Oidc.IssuedExactlyWhen | demo/nextjs/lib/scim-demo-oidc.ts:486-526 | authorization succeeds exactly for acceptable requests of resolving subjects, and is refused with the request's own error or access_denied otherwise |
| Oidc.ExchangeAuthorizationCode | demo/nextjs/lib/scim-demo-oidc.ts:573-661 | the code's row is taken exactly when the form presents grant type, client, the bytes of the client secret, a code, a redirect URI and a PKCE-shaped verifier, and the rows stay otherwise; the response is a success exactly when that row answers the form |
| Oidc.LetThroughExactlyWhen | demo/nextjs/lib/scim-demo-oidc.ts:573-605 | the form check passes exactly the forms that present everything, first fields counting, and hands on the presented code, redirect URI and verifier |
| Oidc.RefusedFor | demo/nextjs/lib/scim-demo-oidc.ts:573-605 | any other form is refused with the error and status of the first thing that is wrong |
| Oidc.ExchangedExactlyWhen | demo/nextjs/lib/scim-demo-oidc.ts:573-661 | an exchange succeeds exactly when everything is presented and the row is unexpired, decodes, and was recorded for the client, for the presented redirect URI, which is the deployment's, and for the hash of the presented verifier; then it yields what was recorded, and else invalid_grant |
| Oidc.RedeemedAsRecorded | demo/nextjs/lib/scim-demo-oidc.ts:618-661 | a recorded code is redeemed exactly for the deployment's redirect URI and a verifier hashing to the challenge, and yields what was recorded |
| SignIn.KindsOfIdentifiers | demo/nextjs/lib/scim-demo-employee.ts:133-145 | access tokens, portal tokens and codes are never found under one identifier, whatever text is presented |
| SignIn.NextKeeps | demo/nextjs/lib/scim-demo-employee.ts:420-529 | every step of the composed system keeps the invariant on grants, portals, codes, responses and decisions |
| SignIn.RunHolds | demo/nextjs/lib/scim-demo-oidc.ts:486-661 | the invariant holds in every state of every run |
| SignIn.PortalsDescendFromGrants | demo/nextjs/lib/scim-demo-employee.ts:451-488 | in every run each portal token descends from one grant of its own, consumed exactly once and in time, for the same employee |
| SignIn.IdentityShownWithinFifteenMinutes | demo/nextjs/lib/scim-demo-employee.ts:497-529 | in every run a portal identity is returned less than 15 minutes after its grant, opened within five and shown within ten, while its connection and row are active and as its row names it |
| SignIn.ResponsesAreAsRecorded | demo/nextjs/lib/scim-demo-oidc.ts:573-661 | in every run a code yields at most one token response, within two minutes, to a form that presents the client secret, the deployment's redirect URI and a verifier hashing to the challenge, with the recorded subject, connection, email, granted scope and nonce |
| SignIn.LinkIsForGrantedIdentity | demo/nextjs/lib/scim-demo-employee.ts:582-641 | in every run the link a decision asks for is that of exactly the connection and subject of the originating access grant, made by the organization in whose domain they were |
| SignIn.PresentedCodeIsBurnt | demo/nextjs/lib/scim-demo-oidc.ts:606-617 | once a well-formed attempt has presented an issued code, presenting it again fails and changes nothing in the whole rest of the run |
| SignIn.PresentedGrantIsSpent | demo/nextjs/lib/scim-demo-employee.ts:451-488 | once a well-formed grant has been presented it opens no portal in the whole rest of the run |
| SignInCompletes.AcquiredIsValid | demo/nextjs/lib/scim-demo-employee.ts:297-405 | an identity that can be acquired also passes validation on the same directory, unchanged |
| SignInCompletes.UndisturbedSignInLinksTheEmployee | demo/nextjs/lib/scim-demo-employee.ts:420-641 | an undisturbed sign-in within its time limits ends by linking exactly the granted employee's user |
| SignInCompletes.RowSurvives | demo/nextjs/lib/scim-demo-oidc.ts:486-661 | a row of the sign-in is kept by every event that neither presents nor drops it |
| SignInCompletes.InterleavedSignInLinksTheEmployee | demo/nextjs/lib/scim-demo-employee.ts:420-641 | in any run, however many other sign-ins, look-ups and directory changes interleave, a sign-in whose own rows and directory entries are left alone ends by linking exactly the granted employee's user |
| ApiMethod.ScanLines | docs/lib/api-method.ts:99-196 | the parse loop over mutable path, sets and flags computes the specification scan, stopping early included; `ApiDocumented.ScanMeans` says what that scan has gathered |
| ApiMethod.ParseApiMethod | docs/lib/api-method.ts:99-216 | the parser as a whole equals the specification parse; `ApiDocumented.ParsedAsDocumented` says what that is of the lines |
| ApiDocumented.ScanMeans | docs/lib/api-method.ts:99-196 | before every line of a declaration the scan has gathered exactly the documented properties, the open path, the paths opened under each directive and what comments said since the last property |
| ApiDocumented.ParsedAsDocumented | docs/lib/api-method.ts:99-216 | a declaration parses to the declared name, the properties its lines document, its own lines, and the trimmed text before and behind |
| ApiDocumented.ParsedOnlyDeclarations | docs/lib/api-method.ts:193-201 | a text without a complete declaration parses to nothing but its trimmed self |
| ApiDocumented.PropertySaysWhatIsDocumented | docs/lib/api-method.ts:137-191 | each property is serverOnly or clientOnly exactly when a comment line since the previous property carries that directive or an object on its path was opened under one, nullable exactly when such a comment line is there, and has its own line's name, mark, type, example and path |
| ApiDocumented.CommentMeans | docs/lib/api-method.ts:137-160 | a comment line sets exactly the mark of the directive it carries and adds the rest to the description |
| ApiDocumented.DirectiveReadsBack | docs/lib/api-method.ts:84-90 | a directive written with a text behind it, with or without a dash, reads back as that text |
| ApiDocumented.LoneDirective | docs/lib/api-method.ts:84-90 | a directive alone reads back as the empty text |
| ApiDocumented.PropertyLineReadsBack | docs/lib/api-method.ts:55-82 | a line written from a name, a question mark, a type and an example reads back as those four |
| ApiDocumented.PropertyExactlyWhen | docs/lib/api-method.ts:53-82 | a line is a property exactly when it is a name, a question mark or none, a colon and a declaration on one line |
| ApiDocumented.DeclaredExactlyWhen | docs/lib/api-method.ts:52 | a line declares a name exactly when it is written as a type declaration of it with any white space in its four gaps |
| ApiDocumented.ClosesExactlyWhen | docs/lib/api-method.ts:124-131 | a line closes an object or the declaration exactly when it is a brace with or without a mark |
| ApiReparse.ReparseIsSame | docs/lib/api-method.ts:99-216 | re-parsing the returned type definition gives the same name and properties with empty prefix and suffix, for every input text, failing ones included |
| ApiTree.FilteringPrunes | docs/components/api-method.tsx:203-207 | filtering the flat list for a side is pruning whole subtrees, because restriction is inherited |
| ApiTree.PruneKeepsWellFormed | docs/components/api-method.tsx:203-207 | pruning keeps every path equal to its place in the tree |
| ApiTree.ScanRefinesTree | docs/lib/api-method.ts:163-191 | after every line the stack parser stands for the open nesting tree grown from the same lines |
| ApiTree.ParseRefinesForest | docs/lib/api-method.ts:99-216 | the parsed list is the pre-order of a well-formed forest whose restrictions are inherited by path |
| ApiExamples.FlatPrintsTree | docs/lib/api-method.ts:265-281 | printing a pre-order list from depths alone equals printing the nesting recursively and closing to the following depth |
| ApiExamples.TreeTokensBalance | docs/lib/api-method.ts:265-281 | in a recursive print every closing brace has its opener's indent and depth never goes negative |
| ApiExamples.PrintedBracesAreTheNesting | docs/lib/api-method.ts:265-341 | for every input text and side the flat loop's output equals the recursive print of the visible forest and is balanced |
| ApiExamples.CloseNestedProperties | docs/lib/api-method.ts:265-281 | the closing loop prints exactly the braces from one depth out to the next |
| ApiExamples.PrintProperties | docs/lib/api-method.ts:289-341 | the printing loops emit the text of the flat tokens of the whole list; `ApiBodies.TokensRead` says what that text reads as |
| ApiExamples.CreateClientBody | docs/lib/api-method.ts:283-311 | the client body is the flat print of what clients see; `ApiBodies.ClientReads` says what it reads as |
| ApiExamples.CreateServerBody | docs/lib/api-method.ts:313-377 | the server body is the flat print of what servers see, with its remarks and headers; `ApiBodies.ServerReads` says what it reads as |
| ApiExamples.ServerRemarkOnlyOutermost | docs/lib/api-method.ts:313-341 | a server-only remark stands exactly at the outermost properties, for every parsed text |
| ApiReading.EntryLineIsRead | docs/lib/api-method.ts:235-252 | a written entry line reads back as its indent, name, value and remark, and as opening exactly when it ends in an opening brace |
| ApiReading.BodyIsRead | docs/lib/api-method.ts:283-377 | lines between braces are read line by line |
| ApiBodies.TokensRead | docs/lib/api-method.ts:235-281 | the printed tokens are lines, an object reads as an entry that opens, any other property as one that does not, and a closer as closing at its indent, with examples and remarks as given |
| ApiBodies.TreeShapesNest | docs/lib/api-method.ts:265-341 | in what the nesting asks for, every line stands as deep as objects are open around it and every object closes where it opened |
| ApiBodies.ClientReads | docs/lib/api-method.ts:283-311 | the client text is empty when nothing is shown and otherwise reads as the nesting, under a query entry exactly when the call takes one |
| ApiBodies.ServerReads | docs/lib/api-method.ts:313-377 | the server text reads as the nesting under its query, params or body entry, followed by the remarks and header entries that the options ask for, and is empty when there is neither |
| ApiBodies.ParsedIsContent | docs/lib/api-method.ts:55-196 | parsed names are names, and parsed examples and descriptions hold no line break |
| ApiBodies.ShownExactlyWhen | docs/components/api-method.tsx:203-207 | clients are shown exactly the properties that are not serverOnly, servers those that are not clientOnly |
| ApiBodies.PrintExampleBodies | docs/lib/api-method.ts:379-394 | both bodies of a documented method, from text to text, are the recursive prints of the pruned forest; read back line by line they open, close and say what that nesting asks for, unless an example looks like a remark |
| PropertyList.GroupProperties | docs/components/api-method.tsx:271-298 | the nested grouping loops compute the specification groups |
| PropertyList.TakeChildren | docs/components/api-method.tsx:276-295 | the inner loop takes exactly the run of properties under the parent's path and moves the index past it |
| PropertyList.RenderPropertyList | docs/components/api-method.tsx:264-325 | the recursive list terminates and computes the specification nesting |
| PropertyList.NestShowsAllInOrder | docs/components/api-method.tsx:271-319 | for every list each property is shown exactly once, in the original order |
| PropertyList.NestRebuilds | docs/components/api-method.tsx:271-319 | grouping the pre-order of any well-formed forest gives that forest back |
| PropertyList.TableIsTheNesting | docs/components/api-method.tsx:203-319 | for every input text and side the table is the pruned nesting tree, each property at a depth equal to its path length |
| AuditCsv.CellEncodes | apps/account-portal/lib/organization-audit-export.ts:80-85 | an escaped cell is an RFC 4180 encoding of its normalised text |
| AuditCsv.RecordReadsBack | apps/account-portal/lib/organization-audit-export.ts:87-95 | a joined row of encoded cells reads back as exactly those cells |
| AuditCsv.CsvReadsBack | apps/account-portal/lib/organization-audit-export.ts:66-95 | reading the printed CSV gives the header and one row of eleven normalised cells per record, for all records |
| AuditCsv.CellIsTheNamedField | apps/account-portal/lib/organization-audit-export.ts:66-95 | read back from the printed file, the cell of a record under a header shows the record's field of that name, and there is no other header |
| AuditCsv.FormulaExactlyWhen | apps/account-portal/lib/organization-audit-export.ts:83 | a text looks like a formula exactly when one of four signs comes behind nothing but tabs, returns and spaces |
| AuditCsv.NormalizedCellsCollide | apps/account-portal/lib/organization-audit-export.ts:80-85 | no normalised cell looks like a formula, and two cells normalise alike exactly when equal or one is the other behind a guard quote |
| AuditCsv.GuardedTextsPrintAlike | apps/account-portal/lib/organization-audit-export.ts:80-85 | two concrete texts that print alike |
| AuthCapabilities.NormalizeIsNormal | apps/account-portal/lib/auth-capabilities.ts:146-226 | normalising any JSON value gives normal capabilities |
| AuthCapabilities.NormalizeFixedPoints | apps/account-portal/lib/auth-capabilities.ts:186-226 | the fixed points of normalising are exactly the normal capabilities |
| AuthCapabilities.NormalizedIsAcceptedAndFixed | apps/account-portal/lib/auth-capabilities.ts:75-226 | for every JSON value the normalised capabilities pass the validator and normalising again changes nothing |
| AuthCapabilities.AcceptedKeepsMeaning | apps/account-portal/lib/auth-capabilities.ts:75-236 | for every accepted value normalising keeps the protected endpoints, the providers and every method switch |
| AuthCapabilities.OfferedExactlyWhen | apps/account-portal/lib/auth-capabilities.ts:43-60 | for any payload a provider is offered exactly when a current payload lists it and it is a catalogue social provider or a generic one with a short plain identifier, and methods and billing are on exactly when a current payload switches them on |
| AuthCapabilities.OneTapExactlyWhen | apps/account-portal/lib/auth-capabilities.ts:199-222 | One Tap is on exactly when asked for with a filled client of at most 512 characters and a listed Google provider, and then goes by the trimmed client |
| AuthCapabilities.CaptchaExactlyWhen | apps/account-portal/lib/auth-capabilities.ts:146-184 | the captcha is on exactly when the payload's is complete, and then protects exactly its listed paths with the trimmed key and the named action |
| AuthCapabilities.AcceptedExactlyWhen | apps/account-portal/lib/auth-capabilities.ts:75-144 | a payload is accepted exactly when every field is there and of its kind and normalising it drops nothing it lists and switches off nothing it switches on |
| OrganizationRoles.ReadingsAgree | apps/account-portal/lib/organization-console.ts:124-131 | the two parsers of a role text name the same roles |
| OrganizationRoles.HasRoleJoin | apps/account-portal/lib/organization-console.ts:124-134 | a comma-joined text names exactly the roles that its parts name |
| OrganizationRoles.StoredAsSelected | apps/account-portal/lib/advanced-organization-console.ts:193-198 | an accepted selection of comma-free names is read back as selected, whatever white space and repetitions it had |
| OrganizationRoles.RoleChangeAcceptedExactlyWhen | apps/account-portal/lib/advanced-organization-console.ts:178-220 | a role change is accepted exactly when something is selected, all of it is available, the actor manages members by flag or by role, owners are spared and granted by owners only, and an owner remains; the first failing condition decides the error |
| OrganizationRoles.RemovalAcceptedExactlyWhen | apps/account-portal/lib/organization-console.ts:148-157 | a removal is accepted exactly of another member by an owner, or of a non-owner by an administrator or a holder of the permission |
| OrganizationRoles.LeaveAcceptedExactlyWhen | apps/account-portal/lib/organization-console.ts:170-175 | a member leaves exactly when it has some role and is not the only owner |
| OrganizationRoles.OwnerRemains | apps/account-portal/lib/advanced-organization-console.ts:178-220 | no accepted role change, leave or removal of another member takes away the last owner |
| OrganizationRoles.OnlyOwnersChangeOwners | apps/account-portal/lib/advanced-organization-console.ts:203-211 | an accepted request by someone who is not an owner leaves the owner set unchanged, whatever management rights are claimed |
| OrganizationRoles.SomeOwnerAlways | apps/account-portal/lib/organization-console.ts:148-175 | every run of accepted requests that starts with an owner has one in every state |
| OrganizationRoles.OwnersStay | apps/account-portal/lib/organization-console.ts:148-175 | over every run in which only others act the owners stay the same people |
| OrganizationRoles.RolesStayWithoutRights | apps/account-portal/lib/advanced-organization-console.ts:178-220 | over every run in which only members without management rights act no role text changes, and members are missed only where they left |
| OrganizationRoles.RefusedOnlyForTheLastOwner | apps/account-portal/lib/advanced-organization-console.ts:212-219 | an owner's change to an available selection is accepted exactly when somebody is an owner afterwards |
| OrganizationRoles.ManagedRemovalLosesTheLastOwner | apps/account-portal/lib/organization-console.ts:148-157 | a removal the management rule allows loses the last owner exactly when the only owner removes itself |
| OrganizationRoles.SoleOwnerCouldRemoveItself | apps/account-portal/lib/organization-console.ts:148-157 | a concrete organization in which the management rule alone allows the last owner's removal |
| RolePermissions.ToggleRolePermission | apps/account-portal/lib/advanced-organization-console.ts:87-109 | toggling through a local set computes the specification toggle |
| RolePermissions.ToRolePermissionPayload | apps/account-portal/lib/advanced-organization-console.ts:111-124 | the loop over the resources fills exactly the specification payload |
| RolePermissions.TogglesGrant | apps/account-portal/lib/advanced-organization-console.ts:87-109 | after any toggles of any draft a pair is granted as its last toggle said, or as before if it was never toggled |
| RolePermissions.PayloadHoldsLastEnabled | apps/account-portal/lib/advanced-organization-console.ts:72-124 | after any toggles of an empty draft the payload holds exactly the pairs whose last toggle enabled them |
| RolePermissions.PayloadIsCanonical | apps/account-portal/lib/advanced-organization-console.ts:111-124 | a payload has no empty resource, repeats no action and keeps the canonical order |
| RolePermissions.PayloadIsFixed | apps/account-portal/lib/advanced-organization-console.ts:111-124 | a payload is a fixed point of normalisation |
| RolePermissions.SavableExactlyWhen | apps/account-portal/lib/advanced-organization-console.ts:126-153 | a draft is accepted exactly when its trimmed name is a plain, unreserved name that is free or being edited and it grants some existing pair; each error is given exactly when its condition fails first |
| RolePermissions.SavedRoleAllows | apps/account-portal/lib/advanced-organization-console.ts:155-176 | a member bearing a newly saved role may do exactly the pairs whose last toggle enabled them |
| RolePermissions.RolesAllowExactly | apps/account-portal/lib/advanced-organization-console.ts:45-64 | an owner may do everything there is, an administrator all but deleting the organization, a member only read roles, and any other name what the first dynamic role of it grants |
| RolePermissions.TextAllowsExactly | apps/account-portal/lib/advanced-organization-console.ts:155-176 | a role text allows a pair exactly when one of the roles it names does |
| DocsVersions.StripUndoesVersioned | docs/lib/docs-versions.ts:59-150 | stripping undoes prefixing exactly on the pages below the root |
| DocsVersions.VersionedAs | docs/lib/docs-versions.ts:59-68 | on a release the root, with or without slash, query or hash, becomes the introduction with that query or hash, any other documentation path gets the release behind its beginning, and any other text in front |
| DocsVersions.NamesReleaseMeans | docs/lib/docs-versions.ts:123-177 | the segment test on links agrees with the path test on pages |
| DocsVersions.ScopedLinksStay | docs/lib/docs-versions.ts:160-180 | on a release every documentation link leads to a path of that release |
| DocsVersions.ScopingTwice | docs/lib/docs-versions.ts:160-180 | scoping twice equals scoping once, for every link and version |
| DocsVersions.ScopedExactlyWhen | docs/lib/docs-versions.ts:160-180 | a link changes exactly on a release, when it leads to documentation and its path is not the release's already |
| DocsVersions.DocsLinkExactlyWhen | docs/lib/docs-versions.ts:160-180 | a link leads to documentation exactly when it is `/docs` or goes on from there with a slash, a query or a hash |
| DocsVersions.SlugAgreesWithPath | docs/lib/docs-versions.ts:123-197 | route segments and path agree on the version, except exactly when the first segment itself holds a slash right behind the release |
| DocsVersions.SlugRestAgreesWithPath | docs/lib/docs-versions.ts:139-197 | stripping the path gives the path of the remaining route segments, except exactly when a single empty segment remains |
| DocsVersions.SharedIsUnique | docs/lib/docs-versions.ts:70-82 | the number of matching segments is the length of the longest common start, and only that |
| DocsVersions.MatchingPathSegments | docs/lib/docs-versions.ts:70-82 | the counting loop agrees on a length exactly when the slash-free segments that spell the two paths, past their first, agree on it |
| DocsVersions.ScoreCounts | docs/lib/docs-versions.ts:70-82 | for paths spelled by any non-empty slash-free segments, with slashes repeated at will, two paths share n segments past their first exactly when the score reaches n |
| DocsVersions.PathHolds | docs/lib/docs-versions.ts:70-82 | a path written plainly from such segments is spelled by them |
| DocsVersions.GetVersionTargetHref | docs/lib/docs-versions.ts:87-117 | the candidate loop and its fallbacks compute the specification target |
| DocsVersions.ClosestIsBest | docs/lib/docs-versions.ts:99-106 | the chosen candidate is available with a positive score that no other page exceeds |
| DocsVersions.SwitcherLandsOnClosest | docs/lib/docs-versions.ts:87-117 | with pages available the switcher returns the versioned form of an unbeaten available page, except exactly when it falls back on an empty first path |
| DocsVersions.SwitcherSharesMost | docs/lib/docs-versions.ts:87-117 | stated on the segments that spell the paths: the switcher leads to an available page with which the current one shares at least as long a beginning as with any other |
| DocsVersions.SwitcherPrefers | docs/lib/docs-versions.ts:87-117 | the same page comes first, then the first of the closest pages, then the introduction, then the first page, then the root |
| DocsVersions.EmptyPathIsReached | docs/lib/docs-versions.ts:109-116 | a concrete list of pages for which the switcher returns the empty text |
| DocsVersions.SwitchAwayAndBack | docs/lib/docs-versions.ts:87-150 | from a page below the root present in both versions, switching to the release and back returns to the start |
| DocsVersions.SwitchBackAndAway | docs/lib/docs-versions.ts:87-150 | the same starting from a page of the release |
| MarkdownLinks.ScopeMarkdownLinks | docs/lib/markdown-links.ts:34-111 | collecting into a shared list, sorting it and splicing equals the specification, with no change on the latest version |
| MarkdownLinks.AddedComesFrom | docs/lib/markdown-links.ts:15-32 | a replacement covers, inside its node, the first occurrence of the link's own address from where its destination is looked for, and brings that address scoped |
| MarkdownLinks.MarkdownDestination | docs/lib/markdown-links.ts:43-70 | in a link node exactly the address behind the last `](` is replaced, whatever the label says |
| MarkdownLinks.DefinitionDestination | docs/lib/markdown-links.ts:43-70 | in a definition exactly the address behind the first colon is replaced |
| MarkdownLinks.AttributeDestination | docs/lib/markdown-links.ts:72-103 | in an attribute exactly the quoted address is replaced |
| MarkdownLinks.SortKeeps | docs/lib/markdown-links.ts:105-106 | sorting keeps the replacements as a multiset and puts later starts first |
| MarkdownLinks.SortIsStable | docs/lib/markdown-links.ts:105-106 | replacements that begin at one place stay in the order in which they were found |
| MarkdownLinks.SpliceSubstitutes | docs/lib/markdown-links.ts:105-111 | for pairwise disjoint spans the right-to-left splice equals simultaneous substitution in one walk over the text |
| MarkdownLinks.TextOutsideIsKept | docs/lib/markdown-links.ts:105-111 | text outside the spans is kept verbatim and in order, each span holds its value at its shifted place, and the length changes by the sum of the differences |
| MarkdownLinks.ScopedPageSubstitutes | docs/lib/markdown-links.ts:34-111 | for links that stand apart, scoping a page substitutes, all at once, scoped addresses for the addresses found at the destinations of its links |
| ModalShim.NextKeeps | apps/account-portal/lib/reown-appkit-a11y.ts:61-181 | every event keeps the shim and the platform in step and the focus rules |
| ModalShim.ClosedLeavesNothing | apps/account-portal/lib/reown-appkit-a11y.ts:61-94 | in every run at most one frame is pending, the click listener is on exactly the wired button, and a closed modal has no frame, observer or listener |
| ModalShim.FocusMovesOncePerSession | apps/account-portal/lib/reown-appkit-a11y.ts:79-134 | in every run the dialog is focused at most once a session and focus is restored at most once, to that session's own trigger |
| ModalShim.LabelledBeforeUse | apps/account-portal/lib/reown-appkit-a11y.ts:112-150 | in every run the dialog is labelled before it takes the focus, and a close button before it is listened to |
| ModalShim.PatchKeeps | apps/account-portal/lib/reown-appkit-a11y.ts:96-150 | a patch attempt on an open modal keeps the invariant and leaves exactly the roots it found observed and exactly the button it found wired |
| ModalShim.PlatformFollowsTheEvents | apps/account-portal/lib/reown-appkit-a11y.ts:96-181 | in every run a frame is pending exactly when the events ask for one: from an opening or mutation until a frame finds the close button, eight have run or the modal closes; the observed roots and the wired button are those found last, and a dialog that was found has had the focus |
| ModalShim.ClickAsksToClose | apps/account-portal/lib/reown-appkit-a11y.ts:57-66 | after every run a click on the wired button asks the modal to close and does nothing else |
| ModalShim.ClosingReturnsFocus | apps/account-portal/lib/reown-appkit-a11y.ts:79-94 | in every run closing or disposing of an open modal focuses the trigger of its session exactly when that is still connected |
| ModalShim.AtMostEightFramesMore | apps/account-portal/lib/reown-appkit-a11y.ts:152-160 | after the last opening or mutation of any run at most eight frames run |
| ModalShim.CounterStaysWithin | apps/account-portal/lib/reown-appkit-a11y.ts:152-175 | from every state in step with a spare attempt, the counter stays within the limit throughout a run exactly when no opening announced again after the last attempt is followed by a frame before a mutation, closing or disposal |
| ModalShim.CounterWithinExactlyWhen | apps/account-portal/lib/reown-appkit-a11y.ts:152-175 | the same equivalence for every run of an installed shim |
| ModalShim.CounterCanPassTheLimit | apps/account-portal/lib/reown-appkit-a11y.ts:152-175 | a concrete run in which the counter reaches nine |
| ModalShim.InstalledShim.WireCloseButton | apps/account-portal/lib/reown-appkit-a11y.ts:61-66 | rewiring moves the listener from the old button to the new one and does nothing for the same button |
| ModalShim.InstalledShim.CancelPendingFrame | apps/account-portal/lib/reown-appkit-a11y.ts:68-72 | the update in place equals the step that the run claims are about |
| ModalShim.InstalledShim.DisconnectObserver | apps/account-portal/lib/reown-appkit-a11y.ts:74-77 | a started observer is stopped, once |
| ModalShim.InstalledShim.RestoreTriggerFocus | apps/account-portal/lib/reown-appkit-a11y.ts:79-83 | the trigger is forgotten, and focused only when still connected |
| ModalShim.InstalledShim.ObserveCurrentRoots | apps/account-portal/lib/reown-appkit-a11y.ts:96-110 | the one observer is stopped before it is started again, on the modal root and on those of header and close button that were found |
| ModalShim.InstalledShim.CloseModalSession | apps/account-portal/lib/reown-appkit-a11y.ts:85-94 | closing resets every variable and restores focus only if asked |
| ModalShim.InstalledShim.PatchOpenModal | apps/account-portal/lib/reown-appkit-a11y.ts:112-150 | one patch attempt in place: labels, focus, listener and observed roots as the specification says, and whether it found everything |
| ModalShim.InstalledShim.SchedulePatch | apps/account-portal/lib/reown-appkit-a11y.ts:152-160 | a frame is requested only for an open modal without a pending frame |
| ModalShim.InstalledShim.FrameCallback | apps/account-portal/lib/reown-appkit-a11y.ts:154-159 | a frame's update in place equals its step and keeps the invariant |
| ModalShim.InstalledShim.ObserverCallback | apps/account-portal/lib/reown-appkit-a11y.ts:102-105 | a mutation's update in place equals its step and keeps the invariant |
| ModalShim.InstalledShim.StateCallback | apps/account-portal/lib/reown-appkit-a11y.ts:162-175 | an opening or closing in place equals its step and keeps the invariant |
| ModalShim.InstalledShim.DisposeShim | apps/account-portal/lib/reown-appkit-a11y.ts:177-181 | disposing in place equals its step and keeps the invariant |

## Left out

- VerificationStore.Store.FindVerificationValue: keeps one row per identifier (the latest, which is all that is ever read) and does not model secondary storage, because the flow uses the database mode.
- Directory.LinkHasActiveSource: does not model link revision counters, external identifier keys and transaction retries, because the link is acquired in one step here.
- AuditCsv.CsvReadsBack: the reader accepts any character in a quoted field, where RFC 4180 lists ASCII only, because cells may hold any text.
- RolePermissions.ToRolePermissionPayload: does not model the order in which an object lists its resources, because a payload is a map; the order of the actions is modelled.
- ApiBodies.PrintExampleBodies: what the printed text reads as is stated for examples that hold no ` // ` and, on the server, for a headers comment on one line; of other content the exact text is still stated.
- Directory.LinkedExactlyWhen: the if-and-only-if claims on the directory take the uniqueness that the database's keys ensure (`Directory.WellKeyed`); the claims on runs do not.
- MarkdownLinks.ScopedPageSubstitutes: takes the places of links from the Markdown parser, which is not part of this model, and requires them to be disjoint.
- OrganizationRoles.SomeOwnerAlways: role names on offer contain no comma, as the role name pattern ensures; concurrent requests that were checked against an older member list are not modelled.
- DocsVersions.SwitchAwayAndBack: excludes the root page, which the code sends to the introduction on purpose.
- ModalShim.InstalledShim.PatchOpenModal: records that dialog and button are labelled, not the attribute names and texts, because those are constants.
- ModalShim.InstalledShim.ObserveCurrentRoots: takes the calls that observe the roots as one, because nothing happens between them.
- Cryptography, JSON text, base64url, UTF-8 and dates are functions with the stated assumptions; string lengths count characters, not UTF-16 units.
- The routes, cookies, rate limits and pages around the sign-in calls, the flow view and the inspection of verification records.
- The branch of identity acquisition that takes a record instead of an organization, which no caller uses.
- Missing configuration, signing keys, the issue and expiry times inside the ID token, and the constant fields of the ID token and the token response.
- The names of client methods, query selection and headers text beyond what the two example bodies print.
- Fetching, user interface, translations, team names, invitation links and the JSON form of the audit export.
