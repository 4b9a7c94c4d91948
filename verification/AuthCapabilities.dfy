/** The capability snapshot that the login pages trust: a validator that rejects payloads and a
    normalizer that turns every payload into a snapshot. */
module AuthCapabilities {
  import opened Wrappers
  import opened Text
  import opened Json

  const SOCIAL_PROVIDERS: set<string> :=
    {"google", "github", "apple", "discord", "microsoft-entra-id", "facebook", "twitter"}

  const METHOD_KEYS: seq<string> :=
    ["emailPassword", "emailOtp", "magicLink", "phoneOtp", "username", "passkey", "anonymous", "twoFactor",
     "siwe", "sso"]

  datatype Methods = Methods(
    emailPassword: bool, emailOtp: bool, magicLink: bool, phoneOtp: bool, username: bool, passkey: bool,
    anonymous: bool, twoFactor: bool, siwe: bool, sso: bool)

  datatype Captcha = Captcha(
    enabled: bool, provider: Option<string>, siteKey: Option<string>, action: Option<string>,
    protectedEndpoints: seq<string>)

  /** Providers stay the payload's own objects. */
  datatype Capabilities = Capabilities(
    methods: Methods, oauthProviders: seq<Json>, oneTap: bool, oneTapClientId: Option<string>, captcha: Captcha,
    billing: bool)

  const TURNSTILE := "cloudflare-turnstile"

  const CORE_CAPTCHA := Captcha(false, None, None, None, [])

  const CORE := Capabilities(
    Methods(false, false, false, false, false, false, true, true, false, true), [], false, None, CORE_CAPTCHA, false)

  /** `/^[a-zA-Z0-9._-]{1,64}$/`. */
  predicate IsProviderId(s: string) {
    1 <= |s| <= 64 && forall i | 0 <= i < |s| :: IsBase64Url(s[i]) || s[i] == '.'
  }

  /** `/^[a-zA-Z0-9_-]{1,32}$/`. */
  predicate IsAction(s: string) { 1 <= |s| <= 32 && forall i | 0 <= i < |s| :: IsBase64Url(s[i]) }

  predicate IsPublicProvider(value: Json) {
    && IsObjectLike(value)
    && (var id := GetString(value, "id");
        if Get(value, "type") == Some(String("social")) then id.Some? && id.value in SOCIAL_PROVIDERS
        else Get(value, "type") == Some(String("generic-oauth")) && id.Some? && IsProviderId(id.value))
  }

  predicate IsGoogle(value: Json) {
    Get(value, "type") == Some(String("social")) && Get(value, "id") == Some(String("google"))
  }

  predicate HasGoogle(providers: seq<Json>) { exists p | p in providers :: IsGoogle(p) }

  predicate IsEndpoint(value: Json) { value.String? && "/" <= value.text && |value.text| <= 128 }

  /** A text that is not blank and not too long. */
  predicate IsFilled(text: Option<string>, limit: nat) {
    text.Some? && Trim(text.value) != "" && |text.value| <= limit
  }

  predicate IsCaptchaSnapshot(captcha: Json) {
    var provider, siteKey := Get(captcha, "provider"), Get(captcha, "siteKey");
    var action, endpoints := Get(captcha, "action"), Get(captcha, "protectedEndpoints");
    && IsObjectLike(captcha)
    && IsBool(Get(captcha, "enabled"))
    && (IsNull(provider) || provider == Some(String(TURNSTILE)))
    && (IsNull(siteKey) || IsString(siteKey))
    && (IsNull(action) || IsString(action))
    && endpoints.Some? && endpoints.value.Array?
    && (forall e | e in endpoints.value.items :: IsEndpoint(e))
    && (Get(captcha, "enabled") == Some(Bool(false)) ||
        (&& provider == Some(String(TURNSTILE))
         && IsFilled(GetString(captcha, "siteKey"), 256)
         && IsString(action) && IsAction(action.value.text)
         && endpoints.value.items != []))
  }

  /** The validator: which payloads are complete snapshots. */
  predicate IsSnapshot(value: Json) {
    var clientId, providers := Get(value, "oneTapClientId"), Get(value, "oauthProviders");
    var methods, captcha := Get(value, "methods"), Get(value, "captcha");
    && IsObjectLike(value)
    && Get(value, "version") == Some(Number(5.0))
    && IsBool(Get(value, "billing"))
    && IsBool(Get(value, "oneTap"))
    && (IsNull(clientId) || IsFilled(GetString(value, "oneTapClientId"), 512))
    && providers.Some? && providers.value.Array?
    && (forall p | p in providers.value.items :: IsPublicProvider(p))
    && methods.Some? && IsObjectLike(methods.value)
    && (forall key | key in METHOD_KEYS :: IsBool(Get(methods.value, key)))
    && captcha.Some? && IsCaptchaSnapshot(captcha.value)
    && (Get(value, "oneTap") == Some(Bool(false)) || (IsString(clientId) && HasGoogle(providers.value.items)))
  }

  function PublicProviders(items: seq<Json>): seq<Json> {
    if items == [] then []
    else (if IsPublicProvider(items[0]) then [items[0]] else []) + PublicProviders(items[1..])
  }

  function Endpoints(items: seq<Json>): seq<string> {
    if items == [] then []
    else (if IsEndpoint(items[0]) then [items[0].text] else []) + Endpoints(items[1..])
  }

  function Items(value: Option<Json>): seq<Json> {
    if value.Some? && value.value.Array? then value.value.items else []
  }

  /** A filled text, trimmed. */
  function Filled(text: Option<string>, limit: nat): Option<string> {
    if IsFilled(text, limit) then Some(Trim(text.value)) else None
  }

  function NormalizeCaptcha(value: Option<Json>): Captcha {
    if value.None? || !IsObjectLike(value.value) then CORE_CAPTCHA else
    var candidate := value.value;
    var siteKey := Filled(GetString(candidate, "siteKey"), 256);
    var action := GetString(candidate, "action");
    var endpoints := Endpoints(Items(Get(candidate, "protectedEndpoints")));
    if && IsTrue(Get(candidate, "enabled")) && Get(candidate, "provider") == Some(String(TURNSTILE))
       && siteKey.Some? && action.Some? && IsAction(action.value) && endpoints != []
    then Captcha(true, Some(TURNSTILE), siteKey, action, endpoints)
    else CORE_CAPTCHA
  }

  /** The normalizer: what the application goes by, for any payload. */
  function Normalize(value: Json): Capabilities {
    if !IsObjectLike(value) || Get(value, "version") != Some(Number(5.0)) then CORE else
    var providers := PublicProviders(Items(Get(value, "oauthProviders")));
    var methods := match Get(value, "methods") case Some(m) => m case None => Null;
    var clientId := Filled(GetString(value, "oneTapClientId"), 512);
    var oneTap := IsTrue(Get(value, "oneTap")) && clientId.Some? && HasGoogle(providers);
    Capabilities(
      CORE.methods.(
        emailPassword := IsTrue(Get(methods, "emailPassword")), emailOtp := IsTrue(Get(methods, "emailOtp")),
        magicLink := false, phoneOtp := IsTrue(Get(methods, "phoneOtp")), username := false,
        passkey := IsTrue(Get(methods, "passkey")), siwe := IsTrue(Get(methods, "siwe"))),
      providers, oneTap, if oneTap then clientId else None, NormalizeCaptcha(Get(value, "captcha")),
      IsTrue(Get(value, "billing")))
  }

  // The normalized value as the JSON object it is.

  function Nullable(text: Option<string>): Json { if text.Some? then String(text.value) else Null }

  function Texts(texts: seq<string>): (items: seq<Json>)
    ensures |items| == |texts| && forall i | 0 <= i < |texts| :: items[i] == String(texts[i])
  {
    if texts == [] then [] else [String(texts[0])] + Texts(texts[1..])
  }

  function MethodsJson(m: Methods): Json {
    Object(map[
      "emailPassword" := Bool(m.emailPassword), "emailOtp" := Bool(m.emailOtp), "magicLink" := Bool(m.magicLink),
      "phoneOtp" := Bool(m.phoneOtp), "username" := Bool(m.username), "passkey" := Bool(m.passkey),
      "anonymous" := Bool(m.anonymous), "twoFactor" := Bool(m.twoFactor), "siwe" := Bool(m.siwe),
      "sso" := Bool(m.sso)])
  }

  function CaptchaJson(c: Captcha): Json {
    Object(map[
      "enabled" := Bool(c.enabled), "provider" := Nullable(c.provider), "siteKey" := Nullable(c.siteKey),
      "action" := Nullable(c.action), "protectedEndpoints" := Array(Texts(c.protectedEndpoints))])
  }

  function ToJson(c: Capabilities): Json {
    Object(map[
      "version" := Number(5.0), "methods" := MethodsJson(c.methods), "oauthProviders" := Array(c.oauthProviders),
      "oneTap" := Bool(c.oneTap), "oneTapClientId" := Nullable(c.oneTapClientId),
      "captcha" := CaptchaJson(c.captcha), "billing" := Bool(c.billing)])
  }

  lemma MethodKeysDiffer()
    ensures |"emailPassword"| == 13 && |"emailOtp"| == 8 && |"magicLink"| == 9 && |"phoneOtp"| == 8
    ensures |"username"| == 8 && |"passkey"| == 7 && |"anonymous"| == 9 && |"twoFactor"| == 9
    ensures |"siwe"| == 4 && |"sso"| == 3
    ensures "emailOtp"[0] == 'e' && "phoneOtp"[0] == 'p' && "username"[0] == 'u'
    ensures "magicLink"[0] == 'm' && "anonymous"[0] == 'a' && "twoFactor"[0] == 't'
  {}

  lemma MethodsReadBack(m: Methods)
    ensures var j := MethodsJson(m);
            && Get(j, "emailPassword") == Some(Bool(m.emailPassword)) && Get(j, "emailOtp") == Some(Bool(m.emailOtp))
            && Get(j, "phoneOtp") == Some(Bool(m.phoneOtp)) && Get(j, "passkey") == Some(Bool(m.passkey))
            && Get(j, "siwe") == Some(Bool(m.siwe))
  {
    MethodKeysDiffer();
  }

  lemma MethodsAreComplete(m: Methods)
    ensures forall key | key in METHOD_KEYS :: IsBool(Get(MethodsJson(m), key))
  {
    AllBools(m);
    AllKeys(m);
  }

  lemma AllBools(m: Methods)
    ensures forall key | key in MethodsJson(m).fields :: MethodsJson(m).fields[key].Bool?
  {}

  lemma AllKeys(m: Methods)
    ensures forall key | key in METHOD_KEYS :: key in MethodsJson(m).fields
  {
    var keys := MethodsJson(m).fields.Keys;
    assert forall i | 0 <= i < |METHOD_KEYS| :: METHOD_KEYS[i] in keys;
  }

  lemma CaptchaReadsBack(c: Captcha)
    ensures var j := CaptchaJson(c);
            && Get(j, "enabled") == Some(Bool(c.enabled)) && Get(j, "provider") == Some(Nullable(c.provider))
            && Get(j, "siteKey") == Some(Nullable(c.siteKey)) && Get(j, "action") == Some(Nullable(c.action))
            && Get(j, "protectedEndpoints") == Some(Array(Texts(c.protectedEndpoints)))
  {
    assert |"enabled"| == 7 && |"provider"| == 8 && |"siteKey"| == 7 && |"action"| == 6 && |"protectedEndpoints"| == 18;
    assert "enabled"[0] == 'e' && "siteKey"[0] == 's';
  }

  lemma SnapshotReadsBack(c: Capabilities)
    ensures var j := ToJson(c);
            && Get(j, "version") == Some(Number(5.0)) && Get(j, "methods") == Some(MethodsJson(c.methods))
            && Get(j, "oauthProviders") == Some(Array(c.oauthProviders)) && Get(j, "oneTap") == Some(Bool(c.oneTap))
            && Get(j, "oneTapClientId") == Some(Nullable(c.oneTapClientId))
            && Get(j, "captcha") == Some(CaptchaJson(c.captcha)) && Get(j, "billing") == Some(Bool(c.billing))
  {
    hide MethodsJson, CaptchaJson, Nullable;
    assert |"version"| == 7 && |"methods"| == 7 && |"oauthProviders"| == 14 && |"oneTap"| == 6;
    assert |"oneTapClientId"| == 14 && |"captcha"| == 7 && |"billing"| == 7;
    assert "version"[0] == 'v' && "methods"[0] == 'm' && "captcha"[0] == 'c' && "billing"[0] == 'b';
    assert "oauthProviders"[1] == 'a' && "oneTapClientId"[1] == 'n';
  }

  // The values that normalizing leaves alone.

  /** A text as it is left by trimming a filled one. */
  ghost predicate IsClean(text: Option<string>, limit: nat) {
    text.Some? && text.value != "" && IsTrimmed(text.value) && |text.value| <= limit
  }

  ghost predicate IsActiveCaptcha(c: Captcha) {
    && c.enabled && c.provider == Some(TURNSTILE) && IsClean(c.siteKey, 256)
    && c.action.Some? && IsAction(c.action.value)
    && c.protectedEndpoints != [] && forall e | e in c.protectedEndpoints :: IsEndpoint(String(e))
  }

  ghost predicate IsNormal(c: Capabilities) {
    && !c.methods.magicLink && !c.methods.username && c.methods.anonymous && c.methods.twoFactor && c.methods.sso
    && (forall p | p in c.oauthProviders :: IsPublicProvider(p))
    && (if c.oneTap then IsClean(c.oneTapClientId, 512) && HasGoogle(c.oauthProviders) else c.oneTapClientId.None?)
    && (c.captcha == CORE_CAPTCHA || IsActiveCaptcha(c.captcha))
  }

  lemma {:induction false} PublicProvidersKeep(items: seq<Json>)
    ensures forall p | p in PublicProviders(items) :: p in items && IsPublicProvider(p)
    ensures (forall p | p in items :: IsPublicProvider(p)) ==> PublicProviders(items) == items
  {
    hide IsPublicProvider;
    if items == [] {
    } else {
      PublicProvidersKeep(items[1..]);
      assert items == [items[0]] + items[1..];
      assert items[0] in items;
    }
  }

  lemma {:induction false} EndpointsKeep(items: seq<Json>)
    ensures forall e | e in Endpoints(items) :: IsEndpoint(String(e)) && String(e) in items
    ensures forall e | String(e) in items && IsEndpoint(String(e)) :: e in Endpoints(items)
  {
    hide IsEndpoint;
    if items == [] {
    } else {
      EndpointsKeep(items[1..]);
      assert items == [items[0]] + items[1..];
      forall e | e in Endpoints(items) ensures IsEndpoint(String(e)) && String(e) in items {
        if e !in Endpoints(items[1..]) { assert items[0] == String(e) by { EndpointIsText(items[0]); } }
      }
    }
  }

  lemma EndpointIsText(value: Json)
    ensures IsEndpoint(value) ==> value.String?
  {}

  lemma {:induction false} EndpointsOfTexts(texts: seq<string>)
    requires forall e | e in texts :: IsEndpoint(String(e))
    ensures Endpoints(Texts(texts)) == texts
    ensures forall item | item in Texts(texts) :: IsEndpoint(item)
  {
    hide IsEndpoint;
    if texts == [] {
    } else {
      assert texts[0] in texts && forall e | e in texts[1..] :: e in texts;
      EndpointsOfTexts(texts[1..]);
      assert Texts(texts)[1..] == Texts(texts[1..]);
    }
  }

  lemma FilledIsClean(text: Option<string>, limit: nat)
    ensures Filled(text, limit).Some? ==> IsClean(Filled(text, limit), limit)
    ensures IsClean(text, limit) ==> Filled(text, limit) == text && IsFilled(text, limit)
  {
    hide Trim;
    if IsClean(text, limit) {
      TrimOfTrimmed(text.value);
    }
  }

  /** Whatever the payload, what is normalized from it is a normal value. */
  lemma NormalizeIsNormal(value: Json)
    ensures IsNormal(Normalize(value))
  {
    hide IsPublicProvider, IsEndpoint, Filled, IsClean, NormalizeCaptcha, IsActiveCaptcha, PublicProviders,
         HasGoogle;
    PublicProvidersKeep(Items(Get(value, "oauthProviders")));
    FilledIsClean(GetString(value, "oneTapClientId"), 512);
    CaptchaIsNormal(Get(value, "captcha"));
  }

  lemma CaptchaIsNormal(value: Option<Json>)
    ensures NormalizeCaptcha(value) == CORE_CAPTCHA || IsActiveCaptcha(NormalizeCaptcha(value))
  {
    hide IsEndpoint, Filled, IsClean, Endpoints;
    if value.Some? {
      EndpointsKeep(Items(Get(value.value, "protectedEndpoints")));
      FilledIsClean(GetString(value.value, "siteKey"), 256);
    }
  }

  lemma NormalCaptchaIsFixed(c: Captcha)
    requires c == CORE_CAPTCHA || IsActiveCaptcha(c)
    ensures NormalizeCaptcha(Some(CaptchaJson(c))) == c
    ensures IsCaptchaSnapshot(CaptchaJson(c))
  {
    hide IsEndpoint, Filled, IsTrimmed, Endpoints, CaptchaJson, IsFilled, IsAction;
    CaptchaReadsBack(c);
    CaptchaIsObject(c);
    EndpointsOfTexts(c.protectedEndpoints);
    FilledIsClean(c.siteKey, 256);
    NullableReadsBack(CaptchaJson(c), "siteKey", c.siteKey);
    NullableReadsBack(CaptchaJson(c), "action", c.action);
  }

  lemma CaptchaIsObject(c: Captcha)
    ensures IsObjectLike(CaptchaJson(c))
  {}

  lemma NullableReadsBack(value: Json, key: string, text: Option<string>)
    requires Get(value, key) == Some(Nullable(text))
    ensures GetString(value, key) == text
  {}

  /** The values that normalizing leaves alone are exactly the normal ones. */
  lemma NormalizeFixedPoints(c: Capabilities)
    ensures Normalize(ToJson(c)) == c <==> IsNormal(c)
  {
    if IsNormal(c) {
      NormalIsFixed(c);
    } else {
      NormalizeIsNormal(ToJson(c));
    }
  }

  lemma NormalIsFixed(c: Capabilities)
    requires IsNormal(c)
    ensures Normalize(ToJson(c)) == c
  {
    hide ToJson, MethodsJson, CaptchaJson, Filled, IsClean, NormalizeCaptcha, PublicProviders, HasGoogle,
         IsPublicProvider;
    SnapshotReadsBack(c);
    MethodsReadBack(c.methods);
    NormalCaptchaIsFixed(c.captcha);
    PublicProvidersKeep(c.oauthProviders);
    FilledIsClean(c.oneTapClientId, 512);
    NullableReadsBack(ToJson(c), "oneTapClientId", c.oneTapClientId);
    SnapshotIsObject(c);
  }

  lemma SnapshotIsObject(c: Capabilities)
    ensures IsObjectLike(ToJson(c)) && IsObjectLike(MethodsJson(c.methods))
  {}

  lemma NormalIsAccepted(c: Capabilities)
    requires IsNormal(c)
    ensures IsSnapshot(ToJson(c))
  {
    hide ToJson, MethodsJson, CaptchaJson, IsCaptchaSnapshot, IsActiveCaptcha, IsPublicProvider, HasGoogle,
         IsFilled, IsClean, Get, GetString, IsObjectLike, NormalizeCaptcha, Trim;
    SnapshotReadsBack(c);
    SnapshotIsObject(c);
    MethodsAreComplete(c.methods);
    NormalCaptchaIsFixed(c.captcha);
    FilledIsClean(c.oneTapClientId, 512);
    NullableReadsBack(ToJson(c), "oneTapClientId", c.oneTapClientId);
  }

  /** For every payload the normalized value passes the validator, and normalizing it again changes nothing. */
  lemma NormalizedIsAcceptedAndFixed(value: Json)
    ensures IsSnapshot(ToJson(Normalize(value)))
    ensures Normalize(ToJson(Normalize(value))) == Normalize(value)
  {
    hide Normalize, ToJson, IsSnapshot, IsNormal;
    NormalizeIsNormal(value);
    NormalIsFixed(Normalize(value));
    NormalIsAccepted(Normalize(value));
  }

  /** `isCaptchaEndpointProtected` on a payload that has not been normalized. */
  predicate ProtectsRaw(value: Json, endpoint: string) {
    match Get(value, "captcha")
    case Some(captcha) =>
      IsTrue(Get(captcha, "enabled")) && String(endpoint) in Items(Get(captcha, "protectedEndpoints"))
    case None => false
  }

  predicate IsEndpointProtected(c: Capabilities, endpoint: string) {
    c.captcha.enabled && endpoint in c.captcha.protectedEndpoints
  }

  /** Normalizing an accepted payload changes neither which endpoints need a captcha, nor the
      providers, nor One Tap, nor billing, nor any method that payloads can switch. */
  lemma AcceptedKeepsMeaning(value: Json, endpoint: string)
    requires IsSnapshot(value)
    ensures var c := Normalize(value);
            var methods := Get(value, "methods").value;
            && (IsEndpointProtected(c, endpoint) <==> ProtectsRaw(value, endpoint))
            && Get(value, "oauthProviders") == Some(Array(c.oauthProviders))
            && Get(value, "oneTap") == Some(Bool(c.oneTap)) && Get(value, "billing") == Some(Bool(c.billing))
            && Get(methods, "emailPassword") == Some(Bool(c.methods.emailPassword))
            && Get(methods, "emailOtp") == Some(Bool(c.methods.emailOtp))
            && Get(methods, "phoneOtp") == Some(Bool(c.methods.phoneOtp))
            && Get(methods, "passkey") == Some(Bool(c.methods.passkey))
            && Get(methods, "siwe") == Some(Bool(c.methods.siwe))
  {
    hide IsPublicProvider, HasGoogle, PublicProviders, NormalizeCaptcha, IsCaptchaSnapshot, Trim;
    PublicProvidersKeep(Get(value, "oauthProviders").value.items);
    AcceptedCaptchaKeepsMeaning(Get(value, "captcha").value, endpoint);
    SwitchableMethods();
  }

  lemma SwitchableMethods()
    ensures "emailPassword" in METHOD_KEYS && "emailOtp" in METHOD_KEYS && "phoneOtp" in METHOD_KEYS
    ensures "passkey" in METHOD_KEYS && "siwe" in METHOD_KEYS
  {
    assert METHOD_KEYS[0] == "emailPassword" && METHOD_KEYS[1] == "emailOtp" && METHOD_KEYS[3] == "phoneOtp";
    assert METHOD_KEYS[5] == "passkey" && METHOD_KEYS[8] == "siwe";
  }

  lemma AcceptedCaptchaKeepsMeaning(captcha: Json, endpoint: string)
    requires IsCaptchaSnapshot(captcha)
    ensures var c := NormalizeCaptcha(Some(captcha));
            (c.enabled && endpoint in c.protectedEndpoints) <==>
              (IsTrue(Get(captcha, "enabled")) && String(endpoint) in Items(Get(captcha, "protectedEndpoints")))
  {
    hide IsEndpoint, IsAction, Trim, Endpoints;
    var items := Items(Get(captcha, "protectedEndpoints"));
    EndpointsKeep(items);
    if items != [] {
      assert items[0] in items;
      EndpointIsText(items[0]);
      assert items[0].text in Endpoints(items);
    }
  }

  // What is switched on, said of the payload's own fields.

  /** The payload has a field of this value. */
  predicate Says(value: Json, key: string, said: Json) {
    value.Object? && key in value.fields && value.fields[key] == said
  }

  predicate Lists(value: Json, key: string, item: Json) {
    value.Object? && key in value.fields && value.fields[key].Array? && item in value.fields[key].items
  }

  /** A text with something else than white space in it, of a limited length. */
  ghost predicate HasText(value: Json, key: string, limit: nat) {
    && value.Object? && key in value.fields && value.fields[key].String?
    && var text := value.fields[key].text;
       |text| <= limit && exists i | 0 <= i < |text| :: !IsSpace(text[i])
  }

  predicate IsCurrent(value: Json) { Says(value, "version", Number(5.0)) }

  /** A social provider of the catalogue, or a generic one with a short plain name. */
  predicate IsKnownProvider(p: Json) {
    && p.Object? && "id" in p.fields && p.fields["id"].String?
    && var id := p.fields["id"].text;
       || (Says(p, "type", String("social")) &&
           id in ["google", "github", "apple", "discord", "microsoft-entra-id", "facebook", "twitter"])
       || (Says(p, "type", String("generic-oauth")) && id != "" && |id| <= 64 &&
           forall c | c in id :: IsLetter(c) || IsDigit(c) || c in "._-")
  }

  predicate IsPath(item: Json) { item.String? && item.text != "" && item.text[0] == '/' && |item.text| <= 128 }

  predicate IsMethodOn(value: Json, key: string) {
    IsCurrent(value) && "methods" in value.fields && Says(value.fields["methods"], key, Bool(true))
  }

  ghost predicate IsOneTapOn(value: Json) {
    && IsCurrent(value) && Says(value, "oneTap", Bool(true)) && HasText(value, "oneTapClientId", 512)
    && exists p | Lists(value, "oauthProviders", p) ::
         Says(p, "type", String("social")) && Says(p, "id", String("google"))
  }

  /** A captcha that is complete: its provider, a key, an action and something to protect. */
  ghost predicate IsCaptchaOn(value: Json) {
    && IsCurrent(value) && "captcha" in value.fields
    && var captcha := value.fields["captcha"];
       && Says(captcha, "enabled", Bool(true)) && Says(captcha, "provider", String("cloudflare-turnstile"))
       && HasText(captcha, "siteKey", 256) && IsActionNamed(captcha)
       && exists item :: Lists(captcha, "protectedEndpoints", item) && IsPath(item)
  }

  predicate IsActionNamed(captcha: Json) {
    && captcha.Object? && "action" in captcha.fields && captcha.fields["action"].String?
    && var action := captcha.fields["action"].text;
       action != "" && |action| <= 32 && forall c | c in action :: IsLetter(c) || IsDigit(c) || c in "-_"
  }

  lemma KnownIsPublic(p: Json)
    ensures IsPublicProvider(p) <==> IsKnownProvider(p)
  {
    CatalogueIsList();
    if p.Object? && "id" in p.fields && p.fields["id"].String? {
      var id := p.fields["id"].text;
      PlainNames(id);
      assert String("social") != String("generic-oauth") by { assert |"social"| != |"generic-oauth"|; }
    }
  }

  lemma PlainNames(id: string)
    ensures IsProviderId(id) <==>
            id != "" && |id| <= 64 && forall c | c in id :: IsLetter(c) || IsDigit(c) || c in "._-"
    ensures IsAction(id) <==> id != "" && |id| <= 32 && forall c | c in id :: IsLetter(c) || IsDigit(c) || c in "-_"
  {
    assert forall c :: (IsBase64Url(c) || c == '.') <==> (IsLetter(c) || IsDigit(c) || c in "._-");
    assert forall c :: IsBase64Url(c) <==> (IsLetter(c) || IsDigit(c) || c in "-_");
  }

  lemma CatalogueIsList()
    ensures forall id :: id in SOCIAL_PROVIDERS <==>
              id in ["google", "github", "apple", "discord", "microsoft-entra-id", "facebook", "twitter"]
  {}

  lemma FilledExactlyWhen(value: Json, key: string, limit: nat)
    ensures IsFilled(GetString(value, key), limit) <==> HasText(value, key, limit)
  {
    hide Trim;
    if value.Object? && key in value.fields && value.fields[key].String? {
      BlankExactlyWhen(value.fields[key].text);
    }
  }

  lemma BlankExactlyWhen(s: string)
    ensures Trim(s) == "" <==> forall i | 0 <= i < |s| :: IsSpace(s[i])
  {
    hide Trim, IsSpace;
    assert s + "" + "" == s;
    if AllSpace(s) {
      TrimSurrounded(s, "", "");
    }
    if Trim(s) == "" {
      var a, b := TrimParts(s);
      assert s == a + b;
    }
  }

  lemma {:induction false} ProvidersAreThePublic(items: seq<Json>, p: Json)
    ensures p in PublicProviders(items) <==> p in items && IsPublicProvider(p)
  {
    hide IsPublicProvider;
    if items == [] {
    } else {
      ProvidersAreThePublic(items[1..], p);
      assert items == [items[0]] + items[1..];
    }
  }

  /** For every payload: a provider is offered exactly when a current payload lists it and it is known, and a
      method or billing is on exactly when a current payload switches it on. */
  lemma OfferedExactlyWhen(value: Json, p: Json)
    ensures var c := Normalize(value);
            && (p in c.oauthProviders <==> IsCurrent(value) && Lists(value, "oauthProviders", p) && IsKnownProvider(p))
            && (c.methods.emailPassword <==> IsMethodOn(value, "emailPassword"))
            && (c.methods.emailOtp <==> IsMethodOn(value, "emailOtp"))
            && (c.methods.phoneOtp <==> IsMethodOn(value, "phoneOtp"))
            && (c.methods.passkey <==> IsMethodOn(value, "passkey"))
            && (c.methods.siwe <==> IsMethodOn(value, "siwe"))
            && (c.billing <==> IsCurrent(value) && Says(value, "billing", Bool(true)))
  {
    hide IsPublicProvider, IsKnownProvider, HasGoogle, NormalizeCaptcha, PublicProviders, Filled;
    ProvidersAreThePublic(Items(Get(value, "oauthProviders")), p);
    KnownIsPublic(p);
    assert PublicProviders([]) == [] by { NoProviders(); }
  }

  lemma NoProviders()
    ensures PublicProviders([]) == []
  {}

  /** One Tap is on exactly when it is asked for with a client that Google's listed provider can serve, and then
      goes by the trimmed client. */
  lemma OneTapExactlyWhen(value: Json)
    ensures Normalize(value).oneTap <==> IsOneTapOn(value)
    ensures Normalize(value).oneTapClientId
         == if IsOneTapOn(value) then Some(Trim(value.fields["oneTapClientId"].text)) else None
  {
    hide IsPublicProvider, NormalizeCaptcha, PublicProviders, Trim;
    FilledExactlyWhen(value, "oneTapClientId", 512);
    var items := Items(Get(value, "oauthProviders"));
    assert HasGoogle(PublicProviders(items)) <==> exists p | p in items :: IsGoogle(p) by { GoogleIsKept(items); }
    assert forall p :: Lists(value, "oauthProviders", p) <==> p in items;
    assert forall p :: IsGoogle(p) <==> Says(p, "type", String("social")) && Says(p, "id", String("google"));
  }

  lemma GoogleIsKept(items: seq<Json>)
    ensures HasGoogle(PublicProviders(items)) <==> exists p | p in items :: IsGoogle(p)
  {
    hide IsPublicProvider, PublicProviders, IsGoogle;
    forall p ensures p in PublicProviders(items) <==> p in items && IsPublicProvider(p) {
      ProvidersAreThePublic(items, p);
    }
    forall p | IsGoogle(p) ensures IsPublicProvider(p) { GoogleIsPublic(p); }
  }

  lemma GoogleIsPublic(p: Json)
    requires IsGoogle(p)
    ensures IsPublicProvider(p)
  {}

  /** The captcha is on exactly when the payload's is complete, and then protects exactly its listed paths with
      the trimmed key and the named action. */
  lemma CaptchaExactlyWhen(value: Json, endpoint: string)
    ensures var c := Normalize(value).captcha;
            && (c.enabled <==> IsCaptchaOn(value))
            && (IsEndpointProtected(Normalize(value), endpoint) <==>
                  && IsCaptchaOn(value) && Lists(value.fields["captcha"], "protectedEndpoints", String(endpoint))
                  && IsPath(String(endpoint)))
            && (IsCaptchaOn(value) ==>
                  && c.siteKey == Some(Trim(value.fields["captcha"].fields["siteKey"].text))
                  && c.action == Some(value.fields["captcha"].fields["action"].text))
  {
    hide PublicProviders, HasGoogle, Filled, IsEndpoint, IsPath, IsFilled, Trim, NormalizeCaptcha, IsActionNamed,
         HasText, IsEndpointProtected;
    if IsCurrent(value) && "captcha" in value.fields {
      CaptchaOnExactlyWhen(value.fields["captcha"], endpoint);
    }
    assert Normalize(value).captcha
        == if IsCurrent(value) then NormalizeCaptcha(Get(value, "captcha")) else CORE_CAPTCHA;
    assert NormalizeCaptcha(None) == CORE_CAPTCHA by { NoCaptcha(); }
    assert IsEndpointProtected(Normalize(value), endpoint) <==>
           Normalize(value).captcha.enabled && endpoint in Normalize(value).captcha.protectedEndpoints by {
      ProtectedMeans(Normalize(value), endpoint);
    }
  }

  lemma NoCaptcha()
    ensures NormalizeCaptcha(None) == CORE_CAPTCHA
  {}

  lemma ProtectedMeans(c: Capabilities, endpoint: string)
    ensures IsEndpointProtected(c, endpoint) <==> c.captcha.enabled && endpoint in c.captcha.protectedEndpoints
  {}

  lemma CaptchaOnExactlyWhen(captcha: Json, endpoint: string)
    ensures var c := NormalizeCaptcha(Some(captcha));
            var on := && Says(captcha, "enabled", Bool(true)) && Says(captcha, "provider", String(TURNSTILE))
                      && HasText(captcha, "siteKey", 256) && IsActionNamed(captcha)
                      && exists item :: Lists(captcha, "protectedEndpoints", item) && IsPath(item);
            && (c.enabled <==> on) && (!on ==> c.protectedEndpoints == [])
            && (on ==> (endpoint in c.protectedEndpoints <==>
                          Lists(captcha, "protectedEndpoints", String(endpoint)) && IsPath(String(endpoint))))
            && (on ==> c.siteKey == Some(Trim(captcha.fields["siteKey"].text)))
            && (on ==> c.action == Some(captcha.fields["action"].text))
  {
    hide Trim, IsEndpoint, IsPath, Endpoints, IsAction, HasText, IsActionNamed;
    FilledExactlyWhen(captcha, "siteKey", 256);
    ActionExactlyWhen(captcha);
    var items := Items(Get(captcha, "protectedEndpoints"));
    forall e ensures IsEndpoint(e) <==> IsPath(e) { PathIsEndpoint(e); }
    forall e | IsPath(e) ensures e.String? { PathIsText(e); }
    EndpointsKeep(items);
    assert forall e :: Lists(captcha, "protectedEndpoints", e) <==> e in items;
    if Endpoints(items) != [] {
      assert String(Endpoints(items)[0]) in items;
    }
    HasTextIsText(captcha, "siteKey", 256);
  }

  lemma HasTextIsText(value: Json, key: string, limit: nat)
    ensures HasText(value, key, limit) ==> value.Object? && key in value.fields && value.fields[key].String?
  {}

  lemma PathIsEndpoint(e: Json)
    ensures IsEndpoint(e) <==> IsPath(e)
  {}

  lemma PathIsText(e: Json)
    requires IsPath(e)
    ensures e.String?
  {}

  lemma ActionExactlyWhen(captcha: Json)
    ensures var action := GetString(captcha, "action");
            && (action.Some? && IsAction(action.value) <==> IsActionNamed(captcha))
            && (action.Some? ==> captcha.Object? && "action" in captcha.fields
                                 && captcha.fields["action"] == String(action.value))
  {
    hide IsAction;
    var action := GetString(captcha, "action");
    if action.Some? { PlainNames(action.value); }
  }

  // What the validator asks for.

  predicate SaysBool(value: Json, key: string) { Says(value, key, Bool(true)) || Says(value, key, Bool(false)) }

  predicate SaysTextOrNull(value: Json, key: string) {
    value.Object? && key in value.fields && (value.fields[key].String? || value.fields[key].Null?)
  }

  predicate HasList(value: Json, key: string) { value.Object? && key in value.fields && value.fields[key].Array? }

  /** Every field is there and of its kind. */
  ghost predicate IsComplete(value: Json) {
    && IsCurrent(value) && SaysBool(value, "billing") && SaysBool(value, "oneTap")
    && (Says(value, "oneTapClientId", Null) || HasText(value, "oneTapClientId", 512))
    && HasList(value, "oauthProviders") && "methods" in value.fields && "captcha" in value.fields
    && (forall key | key in ["emailPassword", "emailOtp", "magicLink", "phoneOtp", "username", "passkey", "anonymous",
                             "twoFactor", "siwe", "sso"] :: SaysBool(value.fields["methods"], key))
    && IsCompleteCaptcha(value.fields["captcha"])
  }

  predicate IsCompleteCaptcha(captcha: Json) {
    && SaysBool(captcha, "enabled") && HasList(captcha, "protectedEndpoints")
    && (Says(captcha, "provider", Null) || Says(captcha, "provider", String("cloudflare-turnstile")))
    && SaysTextOrNull(captcha, "siteKey") && SaysTextOrNull(captcha, "action")
  }

  /** Normalizing drops nothing that the payload lists and switches off nothing that it switches on. */
  ghost predicate DropsNothing(value: Json)
    requires IsComplete(value)
  {
    && (forall p | Lists(value, "oauthProviders", p) :: p in Normalize(value).oauthProviders)
    && (forall e | Lists(value.fields["captcha"], "protectedEndpoints", e) :: IsPath(e))
    && (Says(value, "oneTap", Bool(true)) ==> Normalize(value).oneTap)
    && (Says(value.fields["captcha"], "enabled", Bool(true)) ==> Normalize(value).captcha.enabled)
  }

  /** A payload is accepted exactly when it is complete and normalizing it drops nothing. */
  lemma AcceptedExactlyWhen(value: Json)
    ensures IsSnapshot(value) <==> IsComplete(value) && DropsNothing(value)
  {
    hide *;
    FieldsAgree(value);
    if IsComplete(value) { DropsExactlyWhen(value); }
    SnapshotAgrees(value);
  }

  lemma SnapshotAgrees(value: Json)
    requires IsComplete(value) ==>
               (DropsNothing(value) <==>
                  && (forall p | Lists(value, "oauthProviders", p) :: IsPublicProvider(p))
                  && (forall e | Lists(value.fields["captcha"], "protectedEndpoints", e) :: IsPath(e))
                  && (Says(value, "oneTap", Bool(true)) ==>
                        HasText(value, "oneTapClientId", 512) && HasGoogle(value.fields["oauthProviders"].items))
                  && (Says(value.fields["captcha"], "enabled", Bool(true)) ==> IsCaptchaOn(value)))
    ensures IsSnapshot(value) <==> IsComplete(value) && DropsNothing(value)
  {
    hide IsSnapshot, IsComplete, DropsNothing, IsCaptchaSnapshot, IsCompleteCaptcha, IsPublicProvider, HasGoogle,
         HasText, IsPath, IsActionNamed;
    FieldsAgree(value);
    if HasFields(value) { CaptchaAcceptedExactlyWhen(value.fields["captcha"]); }
  }

  /** The fields apart from what is inside the captcha. */
  ghost predicate HasFields(value: Json) {
    && IsCurrent(value) && SaysBool(value, "billing") && SaysBool(value, "oneTap")
    && (Says(value, "oneTapClientId", Null) || HasText(value, "oneTapClientId", 512))
    && HasList(value, "oauthProviders") && "methods" in value.fields && "captcha" in value.fields
    && forall key | key in METHOD_KEYS :: SaysBool(value.fields["methods"], key)
  }

  lemma FieldsAgree(value: Json)
    ensures IsComplete(value) <==> HasFields(value) && IsCompleteCaptcha(value.fields["captcha"])
    ensures IsSnapshot(value) <==>
            && HasFields(value) && IsCaptchaSnapshot(value.fields["captcha"])
            && (forall p | Lists(value, "oauthProviders", p) :: IsPublicProvider(p))
            && (Says(value, "oneTap", Bool(true)) ==>
                  HasText(value, "oneTapClientId", 512) && HasGoogle(value.fields["oauthProviders"].items))
  {
    hide IsPublicProvider, HasGoogle, IsFilled, HasText, IsCaptchaSnapshot, IsCompleteCaptcha, METHOD_KEYS;
    KeysAreListed();
    FilledExactlyWhen(value, "oneTapClientId", 512);
    TextIsText(value, "oneTapClientId", 512);
    assert "emailPassword" in METHOD_KEYS;
    if value.Object? && "methods" in value.fields {
      forall key ensures IsBool(Get(value.fields["methods"], key)) <==> SaysBool(value.fields["methods"], key) {
        BoolSays(value.fields["methods"], key);
      }
    }
    CaptchaIsAnObject(value);
  }

  lemma BoolSays(value: Json, key: string)
    ensures IsBool(Get(value, key)) <==> SaysBool(value, key)
    ensures SaysBool(value, key) ==> IsObjectLike(value)
  {}

  lemma TextIsText(value: Json, key: string, limit: nat)
    ensures IsFilled(GetString(value, key), limit) ==> IsString(Get(value, key))
  {}

  lemma CaptchaIsAnObject(value: Json)
    ensures value.Object? && "captcha" in value.fields && IsCaptchaSnapshot(value.fields["captcha"]) ==>
              IsObjectLike(value.fields["captcha"])
  {
    hide IsFilled, IsAction, IsEndpoint;
  }

  lemma DropsExactlyWhen(value: Json)
    requires IsComplete(value)
    ensures DropsNothing(value) <==>
            && (forall p | Lists(value, "oauthProviders", p) :: IsPublicProvider(p))
            && (forall e | Lists(value.fields["captcha"], "protectedEndpoints", e) :: IsPath(e))
            && (Says(value, "oneTap", Bool(true)) ==>
                  HasText(value, "oneTapClientId", 512) && HasGoogle(value.fields["oauthProviders"].items))
            && (Says(value.fields["captcha"], "enabled", Bool(true)) ==> IsCaptchaOn(value))
  {
    hide Normalize, IsPublicProvider, IsKnownProvider, IsPath, HasText, IsActionNamed, IsCompleteCaptcha, IsGoogle,
         SaysBool;
    OneTapExactlyWhen(value);
    CaptchaExactlyWhen(value, "");
    forall p ensures (p in Normalize(value).oauthProviders <==>
                        IsCurrent(value) && Lists(value, "oauthProviders", p) && IsPublicProvider(p))
                     && (IsGoogle(p) <==> Says(p, "type", String("social")) && Says(p, "id", String("google")))
    {
      OfferedExactlyWhen(value, p);
      KnownIsPublic(p);
      GoogleSays(p);
    }
  }

  lemma KeysAreListed()
    ensures METHOD_KEYS == ["emailPassword", "emailOtp", "magicLink", "phoneOtp", "username", "passkey", "anonymous",
                            "twoFactor", "siwe", "sso"]
  {}

  lemma GoogleSays(p: Json)
    ensures IsGoogle(p) <==> Says(p, "type", String("social")) && Says(p, "id", String("google"))
  {}

  lemma CaptchaAcceptedExactlyWhen(captcha: Json)
    ensures IsCaptchaSnapshot(captcha) <==>
            && IsCompleteCaptcha(captcha)
            && (forall e | Lists(captcha, "protectedEndpoints", e) :: IsPath(e))
            && (Says(captcha, "enabled", Bool(true)) ==>
                  && Says(captcha, "provider", String(TURNSTILE)) && HasText(captcha, "siteKey", 256)
                  && IsActionNamed(captcha)
                  && exists item :: Lists(captcha, "protectedEndpoints", item) && IsPath(item))
  {
    hide IsEndpoint, IsPath, IsFilled, HasText, IsAction, IsActionNamed;
    FilledExactlyWhen(captcha, "siteKey", 256);
    ActionExactlyWhen(captcha);
    forall e ensures IsEndpoint(e) <==> IsPath(e) { PathIsEndpoint(e); }
    var items := Items(Get(captcha, "protectedEndpoints"));
    if items != [] { assert items[0] in items; }
  }
}
