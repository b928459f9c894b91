/** Token bundles and their two validators (src/external/oauth_tokens.py). */
module OAuthTokens {
  import opened Wrappers
  import opened Text

  /** A URL together with the parts the validator looks at. */
  datatype Endpoint = Endpoint(
    text: string, scheme: string, hostname: string, path: string, username: string, password: string)

  datatype Bundle = Bundle(
    accessToken: string, refreshToken: string, tokenType: string, scopes: set<string>,
    expiresAt: int, tokenEndpoint: Endpoint, clientId: string, resource: Endpoint)

  /** A field of the server's JSON reply; `Missing` also stands for null. */
  datatype Field = Missing | NonText | Text(text: string)

  /** What converting `expires_in` to an integer gives. */
  datatype Lifetime = NotANumber | Flag | Seconds(n: int)

  datatype Reply = Reply(accessToken: Field, tokenType: Field, expiresIn: Lifetime, scope: Field, refreshToken: Field)

  datatype TokenError =
    | AccessTokenMissing
    | TokenTypeInvalid
    | LifetimeInvalid
    | ScopeInvalid
    | RefreshTokenInvalid
    | RefreshTokenMissing

  const READ_SCOPE := "mcp:read"
  const WRITE_SCOPE := "mcp:write"
  const DAY_SECONDS := 86_400

  function LowerChar(c: char): char {
    if 'A' <= c <= 'Z' then (c as int + 32) as char else c
  }

  /** Lower-casing as far as the letters of "bearer" are concerned. */
  function Lower(s: string): string {
    seq(|s|, i requires 0 <= i < |s| => LowerChar(s[i]))
  }

  predicate IsBearer(s: string) {
    Lower(s) == "bearer"
  }

  function DropSlashes(path: string): string {
    if path != [] && path[|path| - 1] == '/' then DropSlashes(path[..|path| - 1]) else path
  }

  predicate TrustedHost(u: Endpoint) {
    && u.scheme == "https"
    && u.hostname == "cockroachlabs.cloud"
    && u.username == []
    && u.password == []
  }

  /** `validate_stored_bundle` at time `now`. */
  predicate ValidStored(b: Bundle, now: int) {
    && IsBearer(b.tokenType)
    && b.scopes == {READ_SCOPE}
    && TrustedHost(b.tokenEndpoint) && b.tokenEndpoint.path == "/mcp/oauth/token"
    && TrustedHost(b.resource) && DropSlashes(b.resource.path) == "/mcp"
    && b.expiresAt <= now + DAY_SECONDS
  }

  /** What `TokenBundle.from_json` accepts: no empty text field, and a valid stored bundle. */
  predicate Loadable(b: Bundle, now: int) {
    && b.accessToken != [] && b.refreshToken != [] && b.tokenType != []
    && b.tokenEndpoint.text != [] && b.clientId != [] && b.resource.text != []
    && ValidStored(b, now)
  }

  /** Python's `str.split()`: the maximal runs of non-space characters. */
  function Words(s: string, word: string): set<string> {
    if s == [] then (if word == [] then {} else {word})
    else if IsSpace(s[0]) then (if word == [] then {} else {word}) + Words(s[1..], [])
    else Words(s[1..], word + [s[0]])
  }

  function GrantedScopes(scope: Field, requested: set<string>): set<string> {
    if scope.Text? && !Blank(scope.text) then Words(scope.text, []) else requested
  }

  /** `validated_token_bundle`. */
  function ValidatedBundle(
    reply: Reply, requested: set<string>, endpoint: Endpoint, clientId: string, resource: Endpoint,
    prior: Option<string>, now: int): Result<Bundle, TokenError>
  {
    if !reply.accessToken.Text? || reply.accessToken.text == [] then Failure(AccessTokenMissing)
    else if !reply.tokenType.Text? || !IsBearer(reply.tokenType.text) then Failure(TokenTypeInvalid)
    else if !reply.expiresIn.Seconds? || !(0 < reply.expiresIn.n <= DAY_SECONDS) then Failure(LifetimeInvalid)
    else if reply.scope.NonText? then Failure(ScopeInvalid)
    else
      var scopes := GrantedScopes(reply.scope, requested);
      if READ_SCOPE !in scopes || WRITE_SCOPE in scopes || !(scopes <= requested) then Failure(ScopeInvalid)
      else if reply.refreshToken.NonText? || reply.refreshToken == Text([]) then Failure(RefreshTokenInvalid)
      else if reply.refreshToken.Missing? && (prior.None? || prior.value == []) then Failure(RefreshTokenMissing)
      else
        var refresh := if reply.refreshToken.Text? then reply.refreshToken.text else prior.value;
        Success(Bundle(reply.accessToken.text, refresh, "Bearer", scopes, now + reply.expiresIn.n, endpoint, clientId, resource))
  }

  /** The refresh of one bundle: everything but the tokens, the lifetime and the scope is carried over. */
  function Refreshed(current: Bundle, reply: Reply, now: int): Result<Bundle, TokenError> {
    ValidatedBundle(reply, current.scopes, current.tokenEndpoint, current.clientId, current.resource,
                    Some(current.refreshToken), now)
  }

  /** Two bundles of the same client, for the same resource, read-only. */
  predicate SameGrant(a: Bundle, b: Bundle) {
    && a.tokenEndpoint == b.tokenEndpoint
    && a.clientId == b.clientId
    && a.resource == b.resource
    && a.scopes == b.scopes == {READ_SCOPE}
  }

  // ---------------------------------------------------------------- what a word is, and "bearer" in any case

  /** The text from `a` to `b` is a maximal run of non-space characters. */
  predicate IsWord(s: string, a: nat, b: nat) {
    && a < b <= |s|
    && (forall i :: a <= i < b ==> !IsSpace(s[i]))
    && (a == 0 || IsSpace(s[a - 1])) && (b == |s| || IsSpace(s[b]))
  }

  /** `w` is a word of the text that starts at `i` or later. */
  ghost predicate WordFrom(s: string, i: nat, w: string) {
    exists a: nat, b: nat :: i <= a && IsWord(s, a, b) && s[a..b] == w
  }

  /** Between `i` and `k` there is no space, and a word can start at `i`. */
  predicate OneRun(s: string, i: nat, k: nat) {
    i <= k <= |s| && (i == 0 || IsSpace(s[i - 1])) && forall j :: i <= j < k ==> !IsSpace(s[j])
  }

  /** A run that ends at `k` is a word unless it is empty, and the other words start after `k`. */
  lemma RunEnds(s: string, i: nat, k: nat, w: string)
    requires OneRun(s, i, k) && (k == |s| || IsSpace(s[k]))
    ensures WordFrom(s, i, w) <==> (i < k && s[i..k] == w) || WordFrom(s, k + 1, w)
  {
    assert i < k ==> IsWord(s, i, k);
    forall a: nat, b: nat | i <= a && IsWord(s, a, b)
      ensures k + 1 <= a || (a == i && b == k && i < k)
    {
      if a <= k {
        assert a == i;
        assert b == k;
      }
    }
  }

  /** With the run that started at `i` read up to `k`, the words still to come are those starting from `i` on. */
  lemma {:induction false} WordsFrom(s: string, i: nat, k: nat, w: string)
    requires OneRun(s, i, k)
    ensures w in Words(s[k..], s[i..k]) <==> WordFrom(s, i, w)
    decreases |s| - k
  {
    if k == |s| {
      RunEnds(s, i, k, w);
    } else if IsSpace(s[k]) {
      WordsFrom(s, k + 1, k + 1, w);
      assert s[k..][1..] == s[k + 1..] && s[k + 1..k + 1] == [];
      RunEnds(s, i, k, w);
    } else {
      WordsFrom(s, i, k + 1, w);
      assert s[k..][1..] == s[k + 1..] && s[i..k] + [s[k]] == s[i..k + 1];
    }
  }

  /** `str.split()` gives exactly the maximal runs of non-space characters. */
  lemma WordsExactly(s: string, w: string)
    ensures w in Words(s, []) <==> exists a: nat, b: nat :: IsWord(s, a, b) && s[a..b] == w
  {
    WordsFrom(s, 0, 0, w);
    assert s[0..] == s && s[0..0] == [];
  }

  /** The token type is compared letter by letter, each in either case. */
  lemma BearerExactly(s: string)
    ensures IsBearer(s) <==> |s| == 6 && forall i :: 0 <= i < 6 ==> s[i] == "bearer"[i] || s[i] == "BEARER"[i]
  {
    if |s| == 6 {
      forall i | 0 <= i < 6
        ensures LowerChar(s[i]) == "bearer"[i] <==> s[i] == "bearer"[i] || s[i] == "BEARER"[i]
      {
      }
      assert IsBearer(s) <==> forall i :: 0 <= i < 6 ==> Lower(s)[i] == "bearer"[i];
    }
  }

  // ---------------------------------------------------------------- what can be stored and loaded

  /** The path is the resource's, with any number of slashes after it. */
  predicate IsResourcePath(path: string) {
    |path| >= 4 && path[..4] == "/mcp" && forall i :: 4 <= i < |path| ==> path[i] == '/'
  }

  lemma {:induction false} ResourcePathExactly(path: string)
    ensures DropSlashes(path) == "/mcp" <==> IsResourcePath(path)
    decreases |path|
  {
    var n := |path|;
    if path != [] && path[n - 1] == '/' {
      var front := path[..n - 1];
      ResourcePathExactly(front);
      if n > 4 {
        assert front[..4] == path[..4];
        assert IsResourcePath(path) <==> IsResourcePath(front);
      } else if n == 4 {
        assert path[..4][3] == '/' && "/mcp"[3] == 'p';
      }
    } else if |path| >= 4 {
      assert path == "/mcp" ==> path[..4] == "/mcp";
      assert n == 4 ==> path[..4] == path;
    }
  }

  /** An HTTPS endpoint of the one trusted host, without user name or password. */
  predicate IsTrusted(u: Endpoint) {
    && u.scheme == "https" && u.hostname == "cockroachlabs.cloud" && |u.username| == 0 && |u.password| == 0
  }

  /**
   * A bundle can be loaded exactly when no text of it is empty, it is a read-only bearer token for the one trusted
   * host's token endpoint and resource, and it expires at most a day from now.
   */
  lemma LoadableExactly(b: Bundle, now: int)
    ensures Loadable(b, now) <==>
              && |b.accessToken| > 0 && |b.refreshToken| > 0 && |b.clientId| > 0
              && |b.tokenEndpoint.text| > 0 && |b.resource.text| > 0
              && IsBearer(b.tokenType) && b.scopes == {"mcp:read"} && b.expiresAt - now <= 24 * 60 * 60
              && IsTrusted(b.tokenEndpoint) && b.tokenEndpoint.path == "/mcp/oauth/token"
              && IsTrusted(b.resource) && IsResourcePath(b.resource.path)
  {
    BearerExactly(b.tokenType);
    ResourcePathExactly(b.resource.path);
  }

  // ---------------------------------------------------------------- what a refresh accepts and yields

  /** The scope a reply states, if any, is reading and nothing else. */
  predicate StatesReading(scope: Field) {
    match scope
    case Missing => true
    case NonText => false
    case Text(t) => Blank(t) || Words(t, []) == {READ_SCOPE}
  }

  /**
   * The reply has an access token, is of type bearer, lives from one second to a day, states no scope or just
   * reading, and has no unusable refresh token.
   */
  predicate Acceptable(reply: Reply) {
    && reply.accessToken.Text? && reply.accessToken.text != []
    && reply.tokenType.Text? && IsBearer(reply.tokenType.text)
    && reply.expiresIn.Seconds? && 0 < reply.expiresIn.n <= 86_400
    && StatesReading(reply.scope)
    && (reply.refreshToken.Missing? || (reply.refreshToken.Text? && reply.refreshToken.text != []))
  }

  /** A refresh of a bundle that could be loaded is accepted exactly when the reply's own fields are as they should be. */
  lemma RefreshedExactly(current: Bundle, reply: Reply, before: int, now: int)
    requires Loadable(current, before)
    ensures Refreshed(current, reply, now).Success? <==> Acceptable(reply)
  {
    var scopes := GrantedScopes(reply.scope, current.scopes);
    assert READ_SCOPE in scopes && scopes <= {READ_SCOPE} <==> scopes == {READ_SCOPE};
    assert WRITE_SCOPE != READ_SCOPE by {
      assert WRITE_SCOPE[4] != READ_SCOPE[4];
    }
  }

  /** The bundle is what the reply grants at `now`: its access token for its lifetime, the refresh token it has or else the prior one. */
  predicate Yields(current: Bundle, reply: Reply, now: int, b: Bundle) {
    && reply.accessToken.Text? && b.accessToken == reply.accessToken.text
    && reply.expiresIn.Seconds? && b.expiresAt == now + reply.expiresIn.n
    && b.tokenType == "Bearer"
    && b.refreshToken == (if reply.refreshToken.Text? then reply.refreshToken.text else current.refreshToken)
    && SameGrant(b, current)
  }

  /** So a refresh of a loadable bundle gives this bundle and no other, exactly when the reply is acceptable. */
  lemma YieldsExactly(current: Bundle, reply: Reply, before: int, now: int, b: Bundle)
    requires Loadable(current, before)
    ensures Refreshed(current, reply, now) == Success(b) <==> Acceptable(reply) && Yields(current, reply, now, b)
  {
    RefreshedExactly(current, reply, before, now);
    var scopes := GrantedScopes(reply.scope, current.scopes);
    assert READ_SCOPE in scopes && scopes <= {READ_SCOPE} <==> scopes == {READ_SCOPE};
  }

  /**
   * Whatever the server replies, a refresh that is accepted yields the reply's own tokens and lifetime within the
   * read-only grant, and can be stored and loaded from then on.
   */
  lemma RefreshKeepsGrant(current: Bundle, reply: Reply, before: int, now: int, later: int)
    requires Loadable(current, before) && now <= later
    requires Refreshed(current, reply, now).Success?
    ensures var b := Refreshed(current, reply, now).value;
            && Yields(current, reply, now, b)
            && b.accessToken != [] && now < b.expiresAt <= now + 86_400
            && Loadable(b, later)
  {
    var b := Refreshed(current, reply, now).value;
    assert READ_SCOPE in b.scopes && b.scopes <= {READ_SCOPE};
    assert b.scopes == {READ_SCOPE};
    assert Lower("Bearer") == "bearer";
  }

  /** The error is that of the first field, in this order, that is not as it should be. */
  lemma RefusedExactly(current: Bundle, reply: Reply, before: int, now: int)
    requires Loadable(current, before)
    ensures var r := Refreshed(current, reply, now);
            var token := reply.accessToken.Text? && reply.accessToken.text != [];
            var bearer := reply.tokenType.Text? && IsBearer(reply.tokenType.text);
            var lifetime := reply.expiresIn.Seconds? && 0 < reply.expiresIn.n <= 86_400;
            && (r == Failure(AccessTokenMissing) <==> !token)
            && (r == Failure(TokenTypeInvalid) <==> token && !bearer)
            && (r == Failure(LifetimeInvalid) <==> token && bearer && !lifetime)
            && (r == Failure(ScopeInvalid) <==> token && bearer && lifetime && !StatesReading(reply.scope))
            && (r == Failure(RefreshTokenInvalid) <==>
                  token && bearer && lifetime && StatesReading(reply.scope) &&
                  (reply.refreshToken.NonText? || (reply.refreshToken.Text? && reply.refreshToken.text == [])))
            && r != Failure(RefreshTokenMissing)
  {
    RefreshedExactly(current, reply, before, now);
    var scopes := GrantedScopes(reply.scope, current.scopes);
    assert READ_SCOPE in scopes && scopes <= {READ_SCOPE} <==> scopes == {READ_SCOPE};
  }

  /** A reply whose stated scope is anything but reading is refused. */
  lemma WiderScopeRefused(current: Bundle, reply: Reply, before: int, now: int)
    requires Loadable(current, before)
    requires reply.scope.Text? && !Blank(reply.scope.text) && Words(reply.scope.text, []) != {READ_SCOPE}
    ensures Refreshed(current, reply, now).Failure?
  {
    var scopes := Words(reply.scope.text, []);
    assert READ_SCOPE in scopes && scopes <= {READ_SCOPE} ==> scopes == {READ_SCOPE};
  }
}
