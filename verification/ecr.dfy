/** The ECR helpers of `receiver/aws/ecr/ecr.go`: the registry domain and the
    split of a decoded authorization token into user name and password. Go
    strings are byte strings; here each byte is the character with the same
    code. */
module Ecr {
  import opened Wrappers
  import opened GoStrings
  import opened Base64
  import opened ImageRef

  /** A Go string made of 8-bit characters. */
  predicate IsByteString(s: string)
  {
    forall i | 0 <= i < |s| :: s[i] as int < 256
  }

  /** `string(b)` for a byte slice. */
  function BytesToString(b: seq<byte>): (s: string)
    ensures |s| == |b| && IsByteString(s)
    ensures forall i | 0 <= i < |b| :: s[i] as int == b[i]
  {
    seq(|b|, i requires 0 <= i < |b| => b[i] as char)
  }

  /** `[]byte(s)` for a string of 8-bit characters. */
  function StringToBytes(s: string): (b: seq<byte>)
    requires IsByteString(s)
    ensures BytesToString(b) == s
  {
    seq(|s|, i requires 0 <= i < |s| => s[i] as int)
  }

  /** `GetRegistryDomain`. */
  function RegistryDomain(accountId: string, region: string): (d: string)
    ensures HasSuffix(d, EcrDomainSuffix)
    ensures accountId <= d
  {
    accountId + ".dkr.ecr." + region + ".amazonaws.com"
  }

  /** An image named under the registry domain is parsed with that domain as
      its registry. */
  lemma RegistryDomainIsRegistry(accountId: string, region: string, name: string, tag: string)
    requires ':' !in accountId && ':' !in region && ':' !in name && ':' !in tag
    requires '/' !in accountId && '/' !in region
    ensures FromString(RegistryDomain(accountId, region) + "/" + name + ":" + tag)
         == Ok(Image(RegistryDomain(accountId, region), name, tag))
  {
    var d := RegistryDomain(accountId, region);
    assert d == accountId + ".dkr.ecr." + region + ".amazonaws.com";
    assert ':' !in d;
    assert '/' !in d;
    assert d != "";
    RoundTrip(Image(d, name, tag));
  }

  /** `extractToken`: decode the token, then split it at the first `:` into
      user name and password (which may itself hold `:`). A decoded token
      without `:` would index past the end of the split in Go, so callers
      must not pass one. */
  function ExtractToken(token: string): (r: Result<(string, string)>)
    requires Decode(token).Ok? ==> ':' in BytesToString(Decode(token).value)
    ensures Decode(token).Err? ==> r == Err(Decode(token).msg)
    ensures r.Ok? ==> Decode(token).Ok?
    ensures r.Ok? ==> ':' !in r.value.0
    ensures r.Ok? ==> r.value.0 + ":" + r.value.1 == BytesToString(Decode(token).value)
  {
    var decoded :- Decode(token);
    var parts := SplitN2(BytesToString(decoded), ':');
    Ok((parts[0], parts[1]))
  }

  /** Encoding `user:password` and extracting it gives both back. */
  lemma ExtractTokenRoundTrip(user: string, password: string)
    requires IsByteString(user) && IsByteString(password) && ':' !in user
    ensures IsByteString(user + ":" + password)
    ensures Decode(Encode(StringToBytes(user + ":" + password))) == Ok(StringToBytes(user + ":" + password))
    ensures ExtractToken(Encode(StringToBytes(user + ":" + password))) == Ok((user, password))
  {
    var s := user + ":" + password;
    assert IsByteString(s) by {
      forall i | 0 <= i < |s|
        ensures s[i] as int < 256
      {
        if i < |user| {
          assert s[i] == user[i];
        } else if i > |user| {
          assert s[i] == password[i - |user| - 1];
        }
      }
    }
    DecodeEncode(StringToBytes(s));
    assert s == user + [':'] + password;
    FirstSplitUnique(user, password, ':');
  }

  /** What `GetAuthorizationToken` hands to Docker. */
  datatype AuthConfiguration = AuthConfiguration(username: string, password: string, email: string, serverAddress: string)

  /** The tail of `GetAuthorizationToken`: the user name and password come
      from the token; e-mail and server address are left empty. */
  function AuthConfigurationFrom(token: string): (r: Result<AuthConfiguration>)
    requires Decode(token).Ok? ==> ':' in BytesToString(Decode(token).value)
    ensures r.Ok? <==> Decode(token).Ok?
    ensures r.Ok? ==> r.value.email == "" && r.value.serverAddress == ""
    ensures r.Ok? ==> r.value.username + ":" + r.value.password == BytesToString(Decode(token).value)
    ensures r.Ok? ==> ':' !in r.value.username
  {
    var (username, password) :- ExtractToken(token);
    Ok(AuthConfiguration(username, password, "", ""))
  }
}

/** The same helpers as they appear again in `receiver/service/ecr.go`. */
module EcrService {
  import opened Wrappers
  import opened GoStrings
  import opened Base64
  import Ecr

  /** `GetRegistryDomain`. */
  function RegistryDomain(accountId: string, region: string): (d: string)
    ensures d == Ecr.RegistryDomain(accountId, region)
    ensures HasSuffix(d, ".amazonaws.com") && accountId <= d
  {
    accountId + ".dkr.ecr." + region + ".amazonaws.com"
  }

  /** `extractToken`, identical in behaviour to the ECR client's. */
  function ExtractToken(token: string): (r: Result<(string, string)>)
    requires Decode(token).Ok? ==> ':' in Ecr.BytesToString(Decode(token).value)
    ensures Decode(token).Err? ==> r.Err?
    ensures r.Ok? ==> Decode(token).Ok? && ':' !in r.value.0
    ensures r.Ok? ==> r.value.0 + ":" + r.value.1 == Ecr.BytesToString(Decode(token).value)
  {
    var decoded :- Decode(token);
    var parts := SplitN2(Ecr.BytesToString(decoded), ':');
    Ok((parts[0], parts[1]))
  }

  /** The authorization handed to Docker: e-mail and server address empty. */
  function AuthConfigurationFrom(token: string): (r: Result<Ecr.AuthConfiguration>)
    requires Decode(token).Ok? ==> ':' in Ecr.BytesToString(Decode(token).value)
    ensures r.Ok? <==> Decode(token).Ok?
    ensures r.Ok? ==> r.value.email == "" && r.value.serverAddress == ""
    ensures r.Ok? ==> r.value.username + ":" + r.value.password == Ecr.BytesToString(Decode(token).value)
  {
    var (username, password) :- ExtractToken(token);
    Ok(Ecr.AuthConfiguration(username, password, "", ""))
  }
}
