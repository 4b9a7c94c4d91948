/** The assumptions on the platform hold together: a platform that meets them all. */
module SoundPlatform {
  import opened Wrappers
  import opened Text
  import opened Platform

  ghost predicate IsSubjectMessage(m: string, c: string, k: string) {
    IsConnectionId(c) && k in USER_KEYS && m == SubjectMessage(c, k)
  }

  function KeyMark(userKey: string): char {
    if userKey == USER_KEYS[0] then 'A' else if userKey == USER_KEYS[1] then 'B' else 'C'
  }

  /** The identifier part of the connection, a mark for the user, and padding. */
  function Packed(c: string, k: string): string
    requires IsConnectionId(c)
  {
    c[|CONNECTION_PREFIX|..] + [KeyMark(k)] + "AAAAAAAAAA"
  }

  ghost function SampleMac(m: string): string {
    if exists c, k :: IsSubjectMessage(m, c, k) then
      var c, k :| IsSubjectMessage(m, c, k);
      Packed(c, k)
    else m
  }

  ghost function SampleDate(at: int): string { if at < 0 then "-" + Decimal(-at) else Decimal(at) }

  ghost function SampleParse(text: string): Option<int> {
    if exists at :: SampleDate(at) == text then
      var at :| SampleDate(at) == text;
      Some(at)
    else None
  }

  ghost function SampleBytes(s: string): seq<Byte> { seq(|s|, i requires 0 <= i < |s| => (s[i] as int) % 256) }

  lemma PackedApart(c: string, k: string, d: string, l: string)
    requires IsConnectionId(c) && IsConnectionId(d) && k in USER_KEYS && l in USER_KEYS
    ensures IsBase64Url43(Packed(c, k))
    ensures Packed(c, k) == Packed(d, l) ==> c == d && k == l
  {
    var a, b := Packed(c, k), Packed(d, l);
    assert c == CONNECTION_PREFIX + a[..32] && d == CONNECTION_PREFIX + b[..32];
    assert a[32] == KeyMark(k) && b[32] == KeyMark(l);
  }

  lemma TokenMessageIsNoSubjectMessage(a: Audience, token: string, c: string, k: string)
    ensures TokenMessage(a, token) != SubjectMessage(c, k)
  {
    var m := TokenMessage(a, token);
    assert m[19] == 'e';
    JoinFive("cinaauth:scim-demo:oidc-subject:v2", CLIENT_ID, Decimal(|c|), c, k, ":");
    assert SubjectMessage(c, k)[19] == 'o';
  }

  lemma SampleDatesApart(at: int, other: int)
    requires SampleDate(at) == SampleDate(other)
    ensures at == other
  {
    assert IsDigit(Decimal(if at < 0 then -at else at)[0]) && IsDigit(Decimal(if other < 0 then -other else other)[0]);
    assert (at < 0 <==> SampleDate(at)[0] == '-') && (other < 0 <==> SampleDate(other)[0] == '-');
    if at < 0 {
      PrefixCancel("-", Decimal(-at), Decimal(-other));
      DecimalInjective(-at, -other);
    } else {
      DecimalInjective(at, other);
    }
  }

  lemma SampleParseReads(at: int)
    ensures SampleParse(SampleDate(at)) == Some(at)
  {
    hide Decimal;
    SampleDatesApart(at, SampleParse(SampleDate(at)).value);
  }

  lemma SampleBytesApart(s: string, t: string)
    requires IsPkceValue(s) && IsPkceValue(t) && SampleBytes(s) == SampleBytes(t)
    ensures s == t
  {
    assert |s| == |SampleBytes(s)| == |t|;
    forall i | 0 <= i < |s| ensures s[i] == t[i] {
      assert SampleBytes(s)[i] == s[i] as int && SampleBytes(t)[i] == t[i] as int;
    }
  }

  lemma SampleMacOfToken(a: Audience, token: string)
    ensures SampleMac(TokenMessage(a, token)) == TokenMessage(a, token)
  {
    forall c, k ensures !IsSubjectMessage(TokenMessage(a, token), c, k) {
      TokenMessageIsNoSubjectMessage(a, token, c, k);
    }
  }

  lemma SampleMacOfSubject(m: string, c: string, k: string) returns (d: string, l: string)
    requires IsSubjectMessage(m, c, k)
    ensures IsSubjectMessage(m, d, l) && SampleMac(m) == Packed(d, l)
  {
    d, l :| IsSubjectMessage(m, d, l) && SampleMac(m) == Packed(d, l);
  }

  lemma SampleMacApart(c: string, k: string, d: string, l: string)
    requires IsConnectionId(c) && IsConnectionId(d) && k in USER_KEYS && l in USER_KEYS
    ensures IsBase64Url43(SampleMac(SubjectMessage(c, k)))
    ensures SampleMac(SubjectMessage(c, k)) == SampleMac(SubjectMessage(d, l)) ==>
             SubjectMessage(c, k) == SubjectMessage(d, l)
  {
    hide SampleMac, SubjectMessage, Packed, IsBase64Url43, IsConnectionId;
    var e, m := SampleMacOfSubject(SubjectMessage(c, k), c, k);
    var f, n := SampleMacOfSubject(SubjectMessage(d, l), d, l);
    PackedApart(e, m, f, n);
  }

  lemma SoundPlatformExists() returns (p: Platform)
    ensures Sound(p)
  {
    hide TokenMessage, SubjectMessage, Packed, IsConnectionId, IsPkceValue, SampleMac, SampleDate, SampleBytes,
         Decimal;
    p := Platform(m => SampleMac(m), _ => seq(43, _ => 'A'), s => SampleBytes(s), at => SampleDate(at),
        text => SampleParse(text), "", "");
    forall a: Audience, t: string, u: string
      | IsBase64Url43(t) && IsBase64Url43(u) && p.mac(TokenMessage(a, t)) == p.mac(TokenMessage(a, u))
      ensures t == u
    {
      SampleMacOfToken(a, t);
      SampleMacOfToken(a, u);
      TokenMessageApart(a, t, u);
    }
    forall c: string, k: string, d: string, l: string
      | IsConnectionId(c) && IsConnectionId(d) && k in USER_KEYS && l in USER_KEYS
      ensures IsBase64Url43(p.mac(SubjectMessage(c, k)))
      ensures p.mac(SubjectMessage(c, k)) == p.mac(SubjectMessage(d, l)) ==>
               SubjectMessage(c, k) == SubjectMessage(d, l)
    {
      SampleMacApart(c, k, d, l);
    }
    forall s: string, t: string | IsPkceValue(s) && IsPkceValue(t) && p.utf8(s) == p.utf8(t) ensures s == t {
      SampleBytesApart(s, t);
    }
    forall at: int ensures p.parseDate(p.isoDate(at)) == Some(at) {
      SampleParseReads(at);
    }
  }

  lemma TokenMessageApart(a: Audience, t: string, u: string)
    requires TokenMessage(a, t) == TokenMessage(a, u)
    ensures t == u
  {
    PrefixCancel(a.Name() + ":", t, u);
  }
}
