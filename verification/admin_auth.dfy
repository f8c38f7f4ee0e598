/**
 * The HTTP Basic guard of the admin routes (backend/middleware/adminAuth.js),
 * after section 2 of RFC 7617: the header is `Basic ` and a Base64 token,
 * the decoded value is split at its first colon into user-id and password,
 * and both must equal the configured ones.  Base64 decoding (section 4 of
 * RFC 4648) is a parameter of the model.
 */
module AdminAuth {
  import opened Common

  const DefaultUsername: string := "admin"
  const DefaultPassword: string := "admin123"
  const Scheme: string := "Basic "

  /** The refusal: status 401, this message, and this challenge header. */
  const UnauthorizedStatus: int := 401
  const UnauthorizedMessage: string := "Unauthorized admin access."
  const Challenge: string := "Basic realm=\"Admin Panel\""

  /** `process.env.X || fallback`: an unset or empty variable falls back. */
  function Configured(env: Option<string>, fallback: string): (v: string)
    ensures Truthy(env) ==> v == env.value
    ensures !Truthy(env) ==> v == fallback
  {
    if Truthy(env) then env.value else fallback
  }

  datatype AuthResult = Unauthorized | Authorized(adminUser: string)

  predicate StartsWith(s: string, prefix: string) {
    |prefix| <= |s| && s[..|prefix|] == prefix
  }

  /** `indexOf`: the first position of `c`, or -1. */
  function IndexOf(s: string, c: char): (i: int)
    ensures -1 <= i < |s|
    ensures i == -1 <==> c !in s
    ensures i >= 0 ==> s[i] == c && c !in s[..i]
  {
    if |s| == 0 then -1
    else if s[0] == c then 0
    else
      var j := IndexOf(s[1..], c);
      assert s[1..] == s[1..|s|];
      if j == -1 then -1
      else
        assert s[..j + 1] == [s[0]] + s[1..][..j];
        j + 1
  }

  /** The decoded value split at its first colon; no colon, no credentials. */
  function SplitCredentials(decoded: string): (r: Option<(string, string)>)
    ensures r.None? <==> ':' !in decoded
    ensures r.Some? ==> ':' !in r.value.0 && decoded == r.value.0 + ":" + r.value.1
  {
    var sep := IndexOf(decoded, ':');
    if sep == -1 then None
    else
      assert decoded == decoded[..sep] + ":" + decoded[sep + 1..];
      Some((decoded[..sep], decoded[sep + 1..]))
  }

  /**
   * `requireAdminAuth`.  `decode` stands for Base64 decoding to UTF-8 text;
   * `envUser` and `envPass` are the two environment variables.
   */
  function RequireAdminAuth(header: Option<string>, decode: string -> string,
                            envUser: Option<string>, envPass: Option<string>): (r: AuthResult)
    ensures !Truthy(header) ==> r == Unauthorized
    ensures Truthy(header) && !StartsWith(header.value, Scheme) ==> r == Unauthorized
    ensures r.Authorized? ==>
      && Truthy(header) && StartsWith(header.value, Scheme)
      && r.adminUser == Configured(envUser, DefaultUsername)
      && decode(header.value[|Scheme|..]) == r.adminUser + ":" + Configured(envPass, DefaultPassword)
  {
    var user := Configured(envUser, DefaultUsername);
    var pass := Configured(envPass, DefaultPassword);
    var authHeader := if Truthy(header) then header.value else "";
    if !StartsWith(authHeader, Scheme) then Unauthorized
    else
      match SplitCredentials(decode(authHeader[|Scheme|..]))
      case None => Unauthorized
      case Some((username, password)) =>
        if username != user || password != pass then Unauthorized
        else Authorized(username)
  }

  /**
   * Splitting undoes joining with a colon exactly when the user-id has no
   * colon; the password may contain any number of them.
   */
  lemma SplitJoinRoundTrip(user: string, pass: string)
    ensures SplitCredentials(user + ":" + pass) == Some((user, pass)) <==> ':' !in user
  {
    var s := user + ":" + pass;
    if ':' !in user {
      assert s[|user|] == ':';
      assert s[..|user|] == user;
      assert IndexOf(s, ':') == |user|;
      assert s[|user| + 1..] == pass;
    }
  }

  /**
   * A request is let through exactly when its header is `Basic ` followed by
   * a token that decodes to the configured user-id, a colon and the
   * configured password; the admin user is then the configured user-id.
   * A configured user-id containing a colon can never be matched.
   */
  lemma AcceptsExactlyConfigured(token: string, decode: string -> string, envUser: Option<string>, envPass: Option<string>)
    ensures var user := Configured(envUser, DefaultUsername);
      var pass := Configured(envPass, DefaultPassword);
      (RequireAdminAuth(Some(Scheme + token), decode, envUser, envPass).Authorized? <==>
       ':' !in user && decode(token) == user + ":" + pass)
  {
    var user := Configured(envUser, DefaultUsername);
    var pass := Configured(envPass, DefaultPassword);
    var h := Scheme + token;
    assert StartsWith(h, Scheme) && h[|Scheme|..] == token;
    SplitJoinRoundTrip(user, pass);
  }

  /** With no environment variables set, `admin:admin123` is the one accepted credential. */
  lemma DefaultCredentials(token: string, decode: string -> string)
    ensures RequireAdminAuth(Some(Scheme + token), decode, None, None) == Authorized("admin") <==>
            decode(token) == "admin:admin123"
  {
    var user := Configured(None, DefaultUsername);
    var pass := Configured(None, DefaultPassword);
    assert user == "admin" && pass == "admin123";
    AcceptsExactlyConfigured(token, decode, None, None);
    var r := RequireAdminAuth(Some(Scheme + token), decode, None, None);
    assert (r == Authorized("admin")) == r.Authorized?;
    assert ':' !in user by {
      assert forall k | 0 <= k < |user| :: user[k] != ':';
    }
    assert r.Authorized? == (decode(token) == user + ":" + pass);
    assert user + ":" + pass == "admin:admin123";
  }
}
