/** What the sign-in code takes from its surroundings: cryptography, dates and configuration. */
module Platform {
  import opened Wrappers
  import opened Text

  const CLIENT_ID := "scim-demo-client"
  const SSO_PROVIDER_ID := "scim-demo-sso"
  const CONNECTION_PREFIX := "ba_scim_connection_"

  /** The catalogue of demo users, and the names it displays for them. */
  const USER_KEYS: seq<string> := ["maya-chen", "julian-foster", "priya-shah"]

  function DisplayName(userKey: string): Option<string> {
    if userKey == "maya-chen" then Some("Maya Chen")
    else if userKey == "julian-foster" then Some("Julian Foster")
    else if userKey == "priya-shah" then Some("Priya Shah")
    else None
  }

  predicate IsBase64Url43(s: string) {
    |s| == 43 && forall i | 0 <= i < |s| :: IsBase64Url(s[i])
  }

  /** `/^ba_scim_connection_[A-Za-z0-9_-]{32}$/`. */
  predicate IsConnectionId(s: string) {
    && CONNECTION_PREFIX <= s
    && |s| == |CONNECTION_PREFIX| + 32
    && forall i | |CONNECTION_PREFIX| <= i < |s| :: IsBase64Url(s[i])
  }

  /** `/^[A-Za-z0-9._~-]{43,128}$/`. */
  predicate IsPkceValue(s: string) {
    && 43 <= |s| <= 128
    && forall i | 0 <= i < |s| :: IsBase64Url(s[i]) || s[i] == '.' || s[i] == '~'
  }

  type Byte = b: nat | b < 256

  datatype Platform = Platform(
    mac: string -> string,                // base64url of HMAC-SHA-256 under the deployment secret
    s256: string -> string,               // base64url of SHA-256 of the UTF-8 encoding
    utf8: string -> seq<Byte>,            // TextEncoder.encode
    isoDate: int -> string,               // Date.prototype.toISOString
    parseDate: string -> Option<int>,     // milliseconds of new Date(text), None when invalid
    baseUrl: string,
    clientSecret: string)
  {
    function Issuer(): string { baseUrl + "/api/scim-demo/idp" }

    function RedirectUri(): string { baseUrl + "/api/auth/sso/callback/" + SSO_PROVIDER_ID }
  }

  /** The two kinds of employee token. Records and identifiers of one kind carry its name. */
  datatype Audience = Access | Portal {
    function Name(): string {
      match this
      case Access => "cinaauth:scim-demo:employee-access:v2"
      case Portal => "cinaauth:scim-demo:employee-portal:v2"
    }
  }

  /** The message whose MAC identifies a token in the verification store. */
  function TokenMessage(audience: Audience, token: string): string {
    audience.Name() + ":" + token
  }

  /** The message whose MAC is the directory subject of a user on a connection. */
  function SubjectMessage(connectionId: string, userKey: string): string {
    Join(["cinaauth:scim-demo:oidc-subject:v2", CLIENT_ID, Decimal(|connectionId|), connectionId, userKey], ":")
  }

  /** The MAC has no collision among the messages that the program signs, its output has the
      length of a SHA-256 MAC, ASCII texts encode differently, and dates survive printing. */
  ghost predicate Sound(p: Platform) {
    && (forall a: Audience, t: string, u: string ::
          (IsBase64Url43(t) && IsBase64Url43(u)
           && p.mac(TokenMessage(a, t)) == p.mac(TokenMessage(a, u))) ==> t == u)
    && (forall c: string, k: string, d: string, l: string ::
          (IsConnectionId(c) && IsConnectionId(d) && k in USER_KEYS && l in USER_KEYS
           && p.mac(SubjectMessage(c, k)) == p.mac(SubjectMessage(d, l))) ==>
            SubjectMessage(c, k) == SubjectMessage(d, l))
    && (forall c: string, k: string :: IsConnectionId(c) && k in USER_KEYS ==>
          IsBase64Url43(p.mac(SubjectMessage(c, k))))
    && (forall s: string :: IsBase64Url43(p.s256(s)))
    && (forall s: string, t: string :: (IsPkceValue(s) && IsPkceValue(t) && p.utf8(s) == p.utf8(t)) ==> s == t)
    && (forall at: int :: p.parseDate(p.isoDate(at)) == Some(at))
  }
}
