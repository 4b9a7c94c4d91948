/** Directory subjects: an opaque identifier bound to one connection and one user. */
module Identity {
  import opened Wrappers
  import opened Text
  import opened Platform

  const SUBJECT_PREFIX := "scim-demo:v2:"

  predicate IsSubject(s: string) {
    SUBJECT_PREFIX <= s && IsBase64Url43(s[|SUBJECT_PREFIX|..])
  }

  function CreateSubject(p: Platform, connectionId: string, userKey: string): Result<string, string> {
    if !IsConnectionId(connectionId) then Failure("Invalid SCIM demo connection identifier")
    else Success(SUBJECT_PREFIX + p.mac(SubjectMessage(connectionId, userKey)))
  }

  function ResolveSubject(p: Platform, connectionId: string, subject: string): Option<string> {
    if !IsConnectionId(connectionId) || !IsSubject(subject) then None
    else FindUser(p, connectionId, subject, USER_KEYS)
  }

  function FindUser(p: Platform, connectionId: string, subject: string, keys: seq<string>): Option<string> {
    if keys == [] then None
    else if CreateSubject(p, connectionId, keys[0]) == Success(subject) then Some(keys[0])
    else FindUser(p, connectionId, subject, keys[1..])
  }

  lemma {:induction false} FindUserFinds(p: Platform, connectionId: string, subject: string, keys: seq<string>)
    ensures var found := FindUser(p, connectionId, subject, keys);
            if found.Some? then
              found.value in keys && CreateSubject(p, connectionId, found.value) == Success(subject)
            else
              forall k | k in keys :: CreateSubject(p, connectionId, k) != Success(subject)
  {
    if keys == [] {
    } else {
      FindUserFinds(p, connectionId, subject, keys[1..]);
    }
  }

  /** The length field makes the message unambiguous although identifiers may contain its separator. */
  lemma SubjectMessageInjective(c: string, k: string, d: string, l: string)
    ensures SubjectMessage(c, k) == SubjectMessage(d, l) <==> c == d && k == l
  {
    if SubjectMessage(c, k) == SubjectMessage(d, l) {
      var context := "cinaauth:scim-demo:oidc-subject:v2";
      var m, n := Decimal(|c|), Decimal(|d|);
      var s, t := m + ":" + (c + ":" + k), n + ":" + (d + ":" + l);
      JoinFive(context, CLIENT_ID, m, c, k, ":");
      JoinFive(context, CLIENT_ID, n, d, l, ":");
      PrefixCancel(context + ":", CLIENT_ID + ":" + s, CLIENT_ID + ":" + t);
      PrefixCancel(CLIENT_ID + ":", s, t);
      SplitAt(m, c + ":" + k, ':');
      SplitAt(n, d + ":" + l, ':');
      assert m == Split(s, ':')[0] == n;
      DecimalInjective(|c|, |d|);
      PrefixCancel(m + ":", c + ":" + k, d + ":" + l);
      assert c == (c + ":" + k)[..|c|] == (d + ":" + l)[..|d|] == d;
      PrefixCancel(c + ":", k, l);
    }
  }

  /** Subjects are made for well-formed connections only. A subject resolves to the user it was made for on
      its own connection, and on no other connection to anyone. */
  lemma SubjectResolvesOnlyAtHome(p: Platform, home: string, userKey: string, visited: string)
    requires Sound(p) && userKey in USER_KEYS
    ensures CreateSubject(p, home, userKey).Success? <==> IsConnectionId(home)
    ensures IsConnectionId(home) ==>
              var subject := CreateSubject(p, home, userKey).value;
              ResolveSubject(p, visited, subject) == if visited == home then Some(userKey) else None
  {
    hide IsConnectionId;
    if IsConnectionId(home) {
      ResolvesOnlyAtHome(p, home, userKey, visited);
    }
  }

  lemma ResolvesOnlyAtHome(p: Platform, home: string, userKey: string, visited: string)
    requires Sound(p) && IsConnectionId(home) && userKey in USER_KEYS
    ensures var subject := CreateSubject(p, home, userKey).value;
            ResolveSubject(p, visited, subject) == if visited == home then Some(userKey) else None
  {
    var subject := CreateSubject(p, home, userKey).value;
    assert subject[|SUBJECT_PREFIX|..] == p.mac(SubjectMessage(home, userKey));
    if IsConnectionId(visited) {
      FindUserFinds(p, visited, subject, USER_KEYS);
      forall k | k in USER_KEYS && CreateSubject(p, visited, k) == Success(subject)
        ensures visited == home && k == userKey
      {
        assert CreateSubject(p, visited, k).value[|SUBJECT_PREFIX|..] == p.mac(SubjectMessage(visited, k));
        SubjectMessageInjective(visited, k, home, userKey);
      }
      assert visited == home ==> CreateSubject(p, visited, userKey) == Success(subject);
    }
  }
}
