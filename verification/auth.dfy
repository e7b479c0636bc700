/**
 * `vidaas_agent/auth.py`: the authorization URL of section 4.1.1 of RFC 6749
 * with the PKCE parameters of section 4.3 of RFC 7636, the authentication
 * poll, and the authorization-code token request of section 4.1.3 of
 * RFC 6749. The HTTP exchange itself is a `transport` parameter.
 */
module Auth {
  import opened Wrappers
  import opened Dicts
  import opened Http
  import Query
  import Decimal

  const AuthorizePath: string := "/v0/oauth/authorize"
  const AuthenticationsPath: string := "/valid/api/v1/trusted-services/authentications"
  const TokenPath: string := "/v0/oauth/token"

  const DefaultScope: string := "single_signature"
  const ChallengeMethod: string := "S256"
  const ResponseType: string := "code"
  const AuthorizationCodeGrant: string := "authorization_code"

  /** Python truthiness of an optional string: present and non-empty. */
  predicate Truthy(s: Option<string>) {
    s.Some? && s.value != ""
  }

  /** Python truthiness of an optional integer: present and non-zero. */
  predicate TruthyInt(n: Option<int>) {
    n.Some? && n.value != 0
  }

  /** The five parameters every authorization request carries, as the dict display writes them. */
  function BaseEntries(clientId: string, challenge: string, scope: string): Dict<string> {
    [("client_id", clientId),
     ("code_challenge", challenge),
     ("code_challenge_method", ChallengeMethod),
     ("response_type", ResponseType),
     ("scope", scope)]
  }

  /** `query_params` after the three conditional assignments. */
  function AuthorizationParams(
    clientId: string, challenge: string, scope: string,
    loginHint: Option<string>, lifetime: Option<int>, redirectUri: Option<string>
  ): Dict<string> {
    var p0 := Literal(BaseEntries(clientId, challenge, scope));
    var p1 := PutIf(p0, Truthy(loginHint), "login_hint", loginHint.GetOr(""));
    var p2 := PutIf(p1, TruthyInt(lifetime), "lifetime", Decimal.IntToString(lifetime.GetOr(0)));
    PutIf(p2, Truthy(redirectUri), "redirect_uri", redirectUri.GetOr(""))
  }

  /** The query string: `key=value` pairs joined by `&`, values verbatim. */
  function AuthorizationQuery(
    clientId: string, challenge: string, scope: string,
    loginHint: Option<string>, lifetime: Option<int>, redirectUri: Option<string>
  ): string {
    Query.Encode(AuthorizationParams(clientId, challenge, scope, loginHint, lifetime, redirectUri))
  }

  /** `authorizations_qrcode`. */
  function AuthorizationUrl(
    baseUri: string, clientId: string, challenge: string, scope: string,
    loginHint: Option<string>, lifetime: Option<int>, redirectUri: Option<string>
  ): string {
    baseUri + AuthorizePath + "?"
      + AuthorizationQuery(clientId, challenge, scope, loginHint, lifetime, redirectUri)
  }

  // ---------------------------------------------------------------------
  // Reference description of the URL, pair by pair.

  /** One optional pair, present only when its argument is truthy. */
  function OptionalPair(present: bool, key: string, value: string): seq<(string, string)> {
    if present then [(key, value)] else []
  }

  /** The optional pairs that are present, in the fixed order login_hint, lifetime, redirect_uri. */
  function OptionalPairs(loginHint: Option<string>, lifetime: Option<int>, redirectUri: Option<string>)
    : seq<(string, string)>
  {
    OptionalPair(Truthy(loginHint), "login_hint", loginHint.GetOr(""))
    + OptionalPair(TruthyInt(lifetime), "lifetime", Decimal.IntToString(lifetime.GetOr(0)))
    + OptionalPair(Truthy(redirectUri), "redirect_uri", redirectUri.GetOr(""))
  }

  /** `&key=value` when the parameter is present, nothing otherwise. */
  function OptionalText(key: string, present: bool, value: string): string {
    if present then "&" + key + "=" + value else ""
  }

  function Count(b: bool): nat {
    if b then 1 else 0
  }

  const BaseKeyList: seq<string> :=
    ["client_id", "code_challenge", "code_challenge_method", "response_type", "scope"]

  lemma BaseKeys(clientId: string, challenge: string, scope: string)
    ensures Keys(BaseEntries(clientId, challenge, scope)) == BaseKeyList
  {
  }

  lemma BaseEntriesDistinct(clientId: string, challenge: string, scope: string)
    ensures Distinct(Keys(BaseEntries(clientId, challenge, scope)))
  {
    BaseKeys(clientId, challenge, scope);
  }

  /** No optional key collides with a key assigned before it. */
  lemma OptionalKeysFresh(hint: bool, life: bool)
    ensures "login_hint" !in BaseKeyList
    ensures "lifetime" !in BaseKeyList + (if hint then ["login_hint"] else [])
    ensures "redirect_uri"
              !in BaseKeyList + (if hint then ["login_hint"] else []) + (if life then ["lifetime"] else [])
  {
  }

  /** One conditional assignment of a fresh key appends the optional pair. */
  lemma PutIfStep(d: Dict<string>, cond: bool, k: string, v: string)
    requires k !in Keys(d)
    ensures PutIf(d, cond, k, v) == d + OptionalPair(cond, k, v)
    ensures Keys(d + OptionalPair(cond, k, v)) == Keys(d) + (if cond then [k] else [])
  {
    PutIfNew(d, cond, k, v);
    assert Keys(d + OptionalPair(cond, k, v)) == Keys(d) + Keys(OptionalPair(cond, k, v));
  }

  /** The parameter dict is the five fixed pairs followed by the present optional ones. */
  lemma AuthorizationParamsOrder(
    clientId: string, challenge: string, scope: string,
    loginHint: Option<string>, lifetime: Option<int>, redirectUri: Option<string>
  )
    ensures AuthorizationParams(clientId, challenge, scope, loginHint, lifetime, redirectUri)
            == BaseEntries(clientId, challenge, scope) + OptionalPairs(loginHint, lifetime, redirectUri)
  {
    var base := BaseEntries(clientId, challenge, scope);
    BaseEntriesDistinct(clientId, challenge, scope);
    LiteralOfDistinct(base);
    BaseKeys(clientId, challenge, scope);
    var h, l, r := Truthy(loginHint), TruthyInt(lifetime), Truthy(redirectUri);
    var hv, lv, rv := loginHint.GetOr(""), Decimal.IntToString(lifetime.GetOr(0)), redirectUri.GetOr("");
    var o1, o2, o3 := OptionalPair(h, "login_hint", hv), OptionalPair(l, "lifetime", lv), OptionalPair(r, "redirect_uri", rv);
    OptionalKeysFresh(h, l);
    PutIfStep(base, h, "login_hint", hv);
    var p1 := base + o1;
    PutIfStep(p1, l, "lifetime", lv);
    var p2 := p1 + o2;
    PutIfStep(p2, r, "redirect_uri", rv);
    assert AuthorizationParams(clientId, challenge, scope, loginHint, lifetime, redirectUri) == p2 + o3;
    AppendFour(base, o1, o2, o3);
  }

  /** Regrouping kept out of the caller's context, where it is expensive to find. */
  lemma AppendFour<T>(a: seq<T>, b: seq<T>, c: seq<T>, d: seq<T>)
    ensures a + (b + c + d) == a + b + c + d
  {
  }

  /** The number of query pairs is five plus the number of optional arguments present. */
  lemma AuthorizationParamCount(
    clientId: string, challenge: string, scope: string,
    loginHint: Option<string>, lifetime: Option<int>, redirectUri: Option<string>
  )
    ensures |AuthorizationParams(clientId, challenge, scope, loginHint, lifetime, redirectUri)|
            == 5 + Count(Truthy(loginHint)) + Count(TruthyInt(lifetime)) + Count(Truthy(redirectUri))
  {
    AuthorizationParamsOrder(clientId, challenge, scope, loginHint, lifetime, redirectUri);
  }

  // Literal text of the fixed pairs, merged piece by piece.
  lemma FixedPairsLiterals(clientId: string, challenge: string, scope: string)
    ensures Query.Field("client_id", clientId) == "client_id=" + clientId
    ensures "&" + Query.Field("code_challenge", challenge) == "&code_challenge=" + challenge
  {
    assert "&" + ("code_challenge" + [Query.Eq]) == "&code_challenge=";
  }

  lemma FixedTailLiterals(scope: string)
    ensures "&" + Query.Field("code_challenge_method", ChallengeMethod)
            + ("&" + Query.Field("response_type", ResponseType) + ("&" + Query.Field("scope", scope) + ""))
            == "&code_challenge_method=S256&response_type=code&scope=" + scope
  {
    var m := "&" + Query.Field("code_challenge_method", ChallengeMethod);
    var r := "&" + Query.Field("response_type", ResponseType);
    var c := "&" + Query.Field("scope", scope) + "";
    MethodAndTypeLiteral();
    ScopeFieldLiteral(scope);
    Query.Assoc(m, r, c);
    Query.Assoc("&code_challenge_method=S256&response_type=code", "&scope=", scope);
  }

  lemma MethodAndTypeLiteral()
    ensures "&" + Query.Field("code_challenge_method", ChallengeMethod) + ("&" + Query.Field("response_type", ResponseType))
            == "&code_challenge_method=S256&response_type=code"
  {
    MethodFieldLiteral();
    ResponseTypeFieldLiteral();
    MethodAndTypeJoined();
  }

  lemma MethodFieldLiteral()
    ensures "&" + Query.Field("code_challenge_method", ChallengeMethod) == "&code_challenge_method=S256"
  {
    assert "code_challenge_method" + [Query.Eq] + "S256" == "code_challenge_method=S256";
  }

  lemma ResponseTypeFieldLiteral()
    ensures "&" + Query.Field("response_type", ResponseType) == "&response_type=code"
  {
    assert "response_type" + [Query.Eq] + "code" == "response_type=code";
  }

  lemma MethodAndTypeJoined()
    ensures "&code_challenge_method=S256" + "&response_type=code" == "&code_challenge_method=S256&response_type=code"
  {
  }

  lemma ScopeFieldLiteral(scope: string)
    ensures "&" + Query.Field("scope", scope) + "" == "&scope=" + scope
    ensures "&code_challenge_method=S256&response_type=code" + "&scope="
            == "&code_challenge_method=S256&response_type=code&scope="
  {
    assert "&" + ("scope" + [Query.Eq]) == "&scope=";
  }

  /** The five fixed pairs as text. */
  lemma BaseQueryText(clientId: string, challenge: string, scope: string)
    ensures Query.Encode(BaseEntries(clientId, challenge, scope))
            == "client_id=" + clientId + "&code_challenge=" + challenge
               + "&code_challenge_method=S256&response_type=code&scope=" + scope
  {
    var p1, p2, p3, p4 := ("code_challenge", challenge), ("code_challenge_method", ChallengeMethod),
                          ("response_type", ResponseType), ("scope", scope);
    assert BaseEntries(clientId, challenge, scope) == [("client_id", clientId)] + [p1, p2, p3, p4];
    Query.EncodeConcat([("client_id", clientId)], [p1, p2, p3, p4]);
    assert Query.Encode([("client_id", clientId)]) == Query.Field("client_id", clientId);
    Query.TrailFour(p1, p2, p3, p4);
    FixedPairsLiterals(clientId, challenge, scope);
    FixedTailLiterals(scope);
  }

  lemma OptionalPairText(present: bool, key: string, value: string)
    ensures Query.Trail(OptionalPair(present, key, value)) == OptionalText(key, present, value)
  {
  }

  /** The optional pairs as text. */
  lemma OptionalQueryText(loginHint: Option<string>, lifetime: Option<int>, redirectUri: Option<string>)
    ensures Query.Trail(OptionalPairs(loginHint, lifetime, redirectUri))
            == OptionalText("login_hint", Truthy(loginHint), loginHint.GetOr(""))
               + OptionalText("lifetime", TruthyInt(lifetime), Decimal.IntToString(lifetime.GetOr(0)))
               + OptionalText("redirect_uri", Truthy(redirectUri), redirectUri.GetOr(""))
  {
    var o1 := OptionalPair(Truthy(loginHint), "login_hint", loginHint.GetOr(""));
    var o2 := OptionalPair(TruthyInt(lifetime), "lifetime", Decimal.IntToString(lifetime.GetOr(0)));
    var o3 := OptionalPair(Truthy(redirectUri), "redirect_uri", redirectUri.GetOr(""));
    Query.TrailConcat(o1 + o2, o3);
    Query.TrailConcat(o1, o2);
    OptionalPairText(Truthy(loginHint), "login_hint", loginHint.GetOr(""));
    OptionalPairText(TruthyInt(lifetime), "lifetime", Decimal.IntToString(lifetime.GetOr(0)));
    OptionalPairText(Truthy(redirectUri), "redirect_uri", redirectUri.GetOr(""));
  }

  /** The query string, written out pair by pair. */
  lemma AuthorizationQueryText(
    clientId: string, challenge: string, scope: string,
    loginHint: Option<string>, lifetime: Option<int>, redirectUri: Option<string>
  )
    ensures AuthorizationQuery(clientId, challenge, scope, loginHint, lifetime, redirectUri)
            == "client_id=" + clientId
               + ("&code_challenge=" + challenge + "&code_challenge_method=S256&response_type=code&scope=" + scope)
               + (OptionalText("login_hint", Truthy(loginHint), loginHint.GetOr(""))
                  + OptionalText("lifetime", TruthyInt(lifetime), Decimal.IntToString(lifetime.GetOr(0)))
                  + OptionalText("redirect_uri", Truthy(redirectUri), redirectUri.GetOr("")))
  {
    var base := BaseEntries(clientId, challenge, scope);
    var opts := OptionalPairs(loginHint, lifetime, redirectUri);
    AuthorizationParamsOrder(clientId, challenge, scope, loginHint, lifetime, redirectUri);
    Query.EncodeConcat(base, opts);
    BaseQueryText(clientId, challenge, scope);
    OptionalQueryText(loginHint, lifetime, redirectUri);
    var pre := "client_id=" + clientId;
    Query.Assoc(pre, "&code_challenge=" + challenge + "&code_challenge_method=S256&response_type=code&scope=", scope);
    Query.Assoc(pre, "&code_challenge=" + challenge, "&code_challenge_method=S256&response_type=code&scope=");
    Query.Assoc(pre, "&code_challenge=", challenge);
  }

  lemma AuthorizePathLiteral()
    ensures AuthorizePath + ("?" + "client_id=") == "/v0/oauth/authorize?client_id="
  {
  }

  /**
   * The URL, written out: the fixed prefix and five pairs, then each optional
   * pair only when its argument is truthy, in the order login_hint, lifetime,
   * redirect_uri; `lifetime` as its decimal text.
   */
  lemma AuthorizationUrlText(
    baseUri: string, clientId: string, challenge: string, scope: string,
    loginHint: Option<string>, lifetime: Option<int>, redirectUri: Option<string>
  )
    ensures AuthorizationUrl(baseUri, clientId, challenge, scope, loginHint, lifetime, redirectUri)
            == baseUri + "/v0/oauth/authorize?client_id=" + clientId
               + "&code_challenge=" + challenge
               + "&code_challenge_method=S256&response_type=code&scope=" + scope
               + OptionalText("login_hint", Truthy(loginHint), loginHint.GetOr(""))
               + OptionalText("lifetime", TruthyInt(lifetime), Decimal.IntToString(lifetime.GetOr(0)))
               + OptionalText("redirect_uri", Truthy(redirectUri), redirectUri.GetOr(""))
  {
    AuthorizationQueryText(clientId, challenge, scope, loginHint, lifetime, redirectUri);
    AuthorizePathLiteral();
    var o1 := OptionalText("login_hint", Truthy(loginHint), loginHint.GetOr(""));
    var o2 := OptionalText("lifetime", TruthyInt(lifetime), Decimal.IntToString(lifetime.GetOr(0)));
    var o3 := OptionalText("redirect_uri", Truthy(redirectUri), redirectUri.GetOr(""));
    var cc := "&code_challenge=";
    var lit := "&code_challenge_method=S256&response_type=code&scope=";
    var f := cc + challenge + lit + scope;
    var pre := "client_id=" + clientId;
    var x := baseUri + AuthorizePath + "?";
    // Reassociate the prefix.
    Query.Assoc(baseUri + AuthorizePath, "?", "client_id=");
    Query.Assoc(baseUri, AuthorizePath, "?" + "client_id=");
    assert x + "client_id=" == baseUri + "/v0/oauth/authorize?client_id=";
    Query.Assoc(x, "client_id=", clientId);
    var y := baseUri + "/v0/oauth/authorize?client_id=" + clientId;
    assert x + pre == y;
    // Reassociate the fixed pairs.
    Query.Assoc(x, pre, f);
    Query.Assoc(y, cc + challenge + lit, scope);
    Query.Assoc(y, cc + challenge, lit);
    Query.Assoc(y, cc, challenge);
    var z := y + cc + challenge + lit + scope;
    assert x + (pre + f) == z;
    // Reassociate the optional pairs.
    Query.Assoc(x, pre + f, o1 + o2 + o3);
    Query.Assoc(z, o1 + o2, o3);
    Query.Assoc(z, o1, o2);
  }

  lemma DefaultScopeLiteral()
    ensures "&code_challenge_method=S256&response_type=code&scope=" + DefaultScope
            == "&code_challenge_method=S256&response_type=code&scope=single_signature"
  {
  }

  /** With no optional argument and the default scope, the URL is exactly this text. */
  lemma AuthorizationUrlDefaults(baseUri: string, clientId: string, challenge: string)
    ensures AuthorizationUrl(baseUri, clientId, challenge, DefaultScope, None, None, None)
            == baseUri + "/v0/oauth/authorize?client_id=" + clientId + "&code_challenge=" + challenge
               + "&code_challenge_method=S256&response_type=code&scope=single_signature"
  {
    AuthorizationUrlText(baseUri, clientId, challenge, DefaultScope, None, None, None);
    var y := baseUri + "/v0/oauth/authorize?client_id=" + clientId + "&code_challenge=" + challenge;
    var lit := "&code_challenge_method=S256&response_type=code&scope=";
    DefaultScopeLiteral();
    Query.Assoc(y, lit, DefaultScope);
    assert y + lit + DefaultScope + "" == y + lit + DefaultScope;
  }

  /** A login hint alone appends `&login_hint=` and its value, and nothing else. */
  lemma AuthorizationUrlLoginHint(baseUri: string, clientId: string, challenge: string, hint: string)
    requires hint != ""
    ensures AuthorizationUrl(baseUri, clientId, challenge, DefaultScope, Some(hint), None, None)
            == AuthorizationUrl(baseUri, clientId, challenge, DefaultScope, None, None, None)
               + "&login_hint=" + hint
  {
    AuthorizationUrlText(baseUri, clientId, challenge, DefaultScope, Some(hint), None, None);
    AuthorizationUrlText(baseUri, clientId, challenge, DefaultScope, None, None, None);
    var u := baseUri + "/v0/oauth/authorize?client_id=" + clientId + "&code_challenge=" + challenge
             + "&code_challenge_method=S256&response_type=code&scope=" + DefaultScope;
    var lifeText := OptionalText("lifetime", false, Decimal.IntToString(0));
    var redirectText := OptionalText("redirect_uri", false, "");
    assert lifeText == "" && redirectText == "";
    var hintText := OptionalText("login_hint", true, hint);
    LoginHintText(hint);
    assert AuthorizationUrl(baseUri, clientId, challenge, DefaultScope, None, None, None)
           == u + OptionalText("login_hint", false, "") + lifeText + redirectText;
    assert AuthorizationUrl(baseUri, clientId, challenge, DefaultScope, Some(hint), None, None)
           == u + hintText + lifeText + redirectText;
    assert u + "" == u;
    assert u + hintText + "" == u + hintText;
    Query.Assoc(u, "&login_hint=", hint);
  }

  lemma LoginHintText(hint: string)
    ensures OptionalText("login_hint", true, hint) == "&login_hint=" + hint
  {
    assert "&" + "login_hint" + "=" == "&login_hint=";
  }

  /**
   * Falsy optional arguments are dropped: a lifetime of 0 and empty strings
   * give the same URL as leaving the arguments out.
   */
  lemma FalsyOptionalsOmitted(baseUri: string, clientId: string, challenge: string, scope: string)
    ensures AuthorizationUrl(baseUri, clientId, challenge, scope, Some(""), Some(0), Some(""))
            == AuthorizationUrl(baseUri, clientId, challenge, scope, None, None, None)
  {
    AuthorizationParamsOrder(clientId, challenge, scope, Some(""), Some(0), Some(""));
    AuthorizationParamsOrder(clientId, challenge, scope, None, None, None);
  }

  /**
   * Each optional key is in the dict exactly when its argument is truthy,
   * holding the value verbatim, and `lifetime` as its decimal text.
   */
  lemma AuthorizationOptionalLookup(
    clientId: string, challenge: string, scope: string,
    loginHint: Option<string>, lifetime: Option<int>, redirectUri: Option<string>
  )
    ensures var params := AuthorizationParams(clientId, challenge, scope, loginHint, lifetime, redirectUri);
            && Lookup(params, "login_hint") == (if Truthy(loginHint) then Some(loginHint.value) else None)
            && Lookup(params, "lifetime")
               == (if TruthyInt(lifetime) then Some(Decimal.IntToString(lifetime.value)) else None)
            && Lookup(params, "redirect_uri") == (if Truthy(redirectUri) then Some(redirectUri.value) else None)
  {
    var base := BaseEntries(clientId, challenge, scope);
    BaseEntriesDistinct(clientId, challenge, scope);
    LiteralOfDistinct(base);
    BaseKeys(clientId, challenge, scope);
    OptionalKeysFresh(false, false);
    OptionalKeysFresh(true, true);
    var p0 := Literal(base);
    var h, t, r := loginHint.GetOr(""), Decimal.IntToString(lifetime.GetOr(0)), redirectUri.GetOr("");
    var p1 := PutIf(p0, Truthy(loginHint), "login_hint", h);
    var p2 := PutIf(p1, TruthyInt(lifetime), "lifetime", t);
    var p3 := PutIf(p2, Truthy(redirectUri), "redirect_uri", r);
    assert Lookup(p0, "login_hint") == None && Lookup(p0, "lifetime") == None && Lookup(p0, "redirect_uri") == None;
    LookupPut(p0, "login_hint", h, "login_hint");
    LookupPut(p0, "login_hint", h, "lifetime");
    LookupPut(p0, "login_hint", h, "redirect_uri");
    LookupPut(p1, "lifetime", t, "login_hint");
    LookupPut(p1, "lifetime", t, "lifetime");
    LookupPut(p1, "lifetime", t, "redirect_uri");
    LookupPut(p2, "redirect_uri", r, "login_hint");
    LookupPut(p2, "redirect_uri", r, "lifetime");
    LookupPut(p2, "redirect_uri", r, "redirect_uri");
  }

  /** A present lifetime reads back from the dict as the same integer. */
  lemma LifetimeReadBack(
    clientId: string, challenge: string, scope: string,
    loginHint: Option<string>, lifetime: Option<int>, redirectUri: Option<string>
  )
    requires TruthyInt(lifetime)
    ensures Decimal.ParseInt(
              Lookup(AuthorizationParams(clientId, challenge, scope, loginHint, lifetime, redirectUri),
                     "lifetime").GetOr("")) == lifetime
  {
    AuthorizationOptionalLookup(clientId, challenge, scope, loginHint, lifetime, redirectUri);
    Decimal.ParseIntToString(lifetime.value);
  }

  lemma BasePairsPlain(clientId: string, challenge: string, scope: string)
    requires Query.Amp !in clientId && Query.Amp !in challenge && Query.Amp !in scope
    ensures forall i | 0 <= i < 5 :: Query.Plain(BaseEntries(clientId, challenge, scope)[i])
  {
  }

  lemma OptionalPairsPlain(loginHint: Option<string>, lifetime: Option<int>, redirectUri: Option<string>)
    requires Query.Amp !in loginHint.GetOr("") && Query.Amp !in redirectUri.GetOr("")
    ensures forall i | 0 <= i < |OptionalPairs(loginHint, lifetime, redirectUri)| ::
              Query.Plain(OptionalPairs(loginHint, lifetime, redirectUri)[i])
  {
    var t := Decimal.IntToString(lifetime.GetOr(0));
    assert Query.Amp !in t by {
      forall i | 0 <= i < |t| ensures t[i] != Query.Amp {
      }
    }
    assert Query.Plain(("login_hint", loginHint.GetOr("")));
    assert Query.Plain(("lifetime", t));
    assert Query.Plain(("redirect_uri", redirectUri.GetOr("")));
  }

  /**
   * Reading the query back gives exactly the parameter pairs, in order and
   * with values unchanged, whenever no value contains `&`.
   */
  lemma AuthorizationQueryReadBack(
    clientId: string, challenge: string, scope: string,
    loginHint: Option<string>, lifetime: Option<int>, redirectUri: Option<string>
  )
    requires Query.Amp !in clientId && Query.Amp !in challenge && Query.Amp !in scope
    requires Query.Amp !in loginHint.GetOr("") && Query.Amp !in redirectUri.GetOr("")
    ensures Query.Parse(AuthorizationQuery(clientId, challenge, scope, loginHint, lifetime, redirectUri))
            == BaseEntries(clientId, challenge, scope) + OptionalPairs(loginHint, lifetime, redirectUri)
  {
    var base := BaseEntries(clientId, challenge, scope);
    var opts := OptionalPairs(loginHint, lifetime, redirectUri);
    AuthorizationParamsOrder(clientId, challenge, scope, loginHint, lifetime, redirectUri);
    BasePairsPlain(clientId, challenge, scope);
    OptionalPairsPlain(loginHint, lifetime, redirectUri);
    var ps := base + opts;
    assert forall i | 0 <= i < |ps| :: Query.Plain(ps[i]) by {
      forall i | 0 <= i < |ps| ensures Query.Plain(ps[i]) {
        if i >= 5 {
          assert ps[i] == opts[i - 5];
        }
      }
    }
    Query.ParseEncode(ps);
  }

  // ---------------------------------------------------------------------
  // `authentication`: GET with the code in the query, check-and-null.

  /** The request `authentication` sends. */
  function AuthenticationRequest(baseUri: string, code: string): (req: Request)
    ensures req.verb == Get && req.body == NoBody
    ensures req.headers == [(Accept, ApplicationJson)]
    ensures req.url == baseUri + AuthenticationsPath + "?" + Query.Encode([("code", code)])
  {
    Query.EncodeStep("code", code, []);
    Query.Assoc(baseUri + AuthenticationsPath, "?", "code=" + code);
    Request(Get, baseUri + AuthenticationsPath + "?code=" + code, [(Accept, ApplicationJson)], NoBody)
  }

  /** The code travels verbatim: the query after the path reads back as the single `code` pair. */
  lemma AuthenticationQueryReadBack(baseUri: string, code: string)
    requires Query.Amp !in code
    ensures Query.Parse(AuthenticationRequest(baseUri, code).url[|baseUri + AuthenticationsPath| + 1..])
            == [("code", code)]
  {
    var url := AuthenticationRequest(baseUri, code).url;
    assert url[|baseUri + AuthenticationsPath| + 1..] == Query.Encode([("code", code)]);
    Query.ParseEncode([("code", code)]);
  }

  /**
   * `authentication`, with the HTTP exchange as a parameter: the decoded
   * body when the status is 200, `None` for every other status whatever the
   * body.
   */
  function Authentication(transport: Request -> Response, baseUri: string, code: string): (r: Option<Json>)
    ensures r.Some? <==> transport(AuthenticationRequest(baseUri, code)).status == StatusOk
    ensures r.Some? ==> r.value == transport(AuthenticationRequest(baseUri, code)).body
  {
    BodyIfOk(transport(AuthenticationRequest(baseUri, code)))
  }

  // ---------------------------------------------------------------------
  // `get_token`: authorization-code grant with PKCE, form body, no status check.

  /** The form fields of the token request, in the order the payload writes them. */
  function TokenPairs(
    clientId: string, clientSecret: string, code: string, codeVerifier: string, redirectUri: string
  ): seq<(string, string)> {
    [("grant_type", AuthorizationCodeGrant),
     ("client_id", clientId),
     ("client_secret", clientSecret),
     ("code_verifier", codeVerifier),
     ("code", code),
     ("redirect_uri", redirectUri)]
  }

  /** The payload f-string of `get_token`. */
  function TokenPayload(
    clientId: string, clientSecret: string, code: string, codeVerifier: string, redirectUri: string
  ): string {
    "grant_type=authorization_code&client_id=" + clientId + "&client_secret=" + clientSecret
      + "&code_verifier=" + codeVerifier + "&code=" + code + "&redirect_uri=" + redirectUri
  }

  lemma TokenLiterals()
    ensures "grant_type" + "=" + AuthorizationCodeGrant + ("&" + "client_id" + "=")
            == "grant_type=authorization_code&client_id="
    ensures "&" + "client_secret" + "=" == "&client_secret="
    ensures "&" + "code_verifier" + "=" == "&code_verifier="
    ensures "&" + "code" + "=" == "&code="
    ensures "&" + "redirect_uri" + "=" == "&redirect_uri="
  {
    AuthorizationCodeGrantLiteral();
    Query.ClientIdSeparator();
    AuthorizationCodePrefix();
    Query.ClientSecretSeparator();
    TokenKeyLiterals();
  }

  lemma AuthorizationCodeGrantLiteral()
    ensures "grant_type" + "=" + AuthorizationCodeGrant == "grant_type=authorization_code"
  {
  }

  lemma AuthorizationCodePrefix()
    ensures "grant_type=authorization_code" + "&client_id=" == "grant_type=authorization_code&client_id="
  {
  }

  lemma TokenKeyLiterals()
    ensures "&" + "code_verifier" + "=" == "&code_verifier="
    ensures "&" + "code" + "=" == "&code="
    ensures "&" + "redirect_uri" + "=" == "&redirect_uri="
  {
  }

  /** The payload is the form encoding of the six token fields, in order. */
  lemma TokenPayloadIsForm(
    clientId: string, clientSecret: string, code: string, codeVerifier: string, redirectUri: string
  )
    ensures TokenPayload(clientId, clientSecret, code, codeVerifier, redirectUri)
            == Query.Encode(TokenPairs(clientId, clientSecret, code, codeVerifier, redirectUri))
  {
    var ps := TokenPairs(clientId, clientSecret, code, codeVerifier, redirectUri);
    TokenLiterals();
    Query.EncodeStep("grant_type", AuthorizationCodeGrant, ps[1..]);
    assert ps == [ps[0]] + ps[1..];
    var p0 := "grant_type" + "=" + AuthorizationCodeGrant;
    Query.TrailStep(p0, "client_id", clientId, ps[2..]);
    assert ps[1..] == [ps[1]] + ps[2..];
    Query.Assoc(p0, "&" + "client_id" + "=", clientId);
    var p1 := "grant_type=authorization_code&client_id=" + clientId;
    Query.TrailStep(p1, "client_secret", clientSecret, ps[3..]);
    assert ps[2..] == [ps[2]] + ps[3..];
    var p2 := p1 + "&client_secret=" + clientSecret;
    Query.TrailStep(p2, "code_verifier", codeVerifier, ps[4..]);
    assert ps[3..] == [ps[3]] + ps[4..];
    var p3 := p2 + "&code_verifier=" + codeVerifier;
    Query.TrailStep(p3, "code", code, ps[5..]);
    assert ps[4..] == [ps[4]] + ps[5..];
    var p4 := p3 + "&code=" + code;
    Query.TrailStep(p4, "redirect_uri", redirectUri, []);
    assert ps[5..] == [ps[5]] + [];
    assert p4 + "&redirect_uri=" + redirectUri + Query.Trail([]) == p4 + "&redirect_uri=" + redirectUri;
  }

  /** The request `get_token` sends. */
  function TokenRequest(
    baseUri: string, clientId: string, clientSecret: string, code: string, codeVerifier: string, redirectUri: string
  ): (req: Request)
    ensures req.verb == Post && req.url == baseUri + TokenPath
    ensures req.headers == [(ContentType, FormUrlEncoded)]
    ensures req.body == Form(Query.Encode(TokenPairs(clientId, clientSecret, code, codeVerifier, redirectUri)))
  {
    TokenPayloadIsForm(clientId, clientSecret, code, codeVerifier, redirectUri);
    Request(Post, baseUri + TokenPath, [(ContentType, FormUrlEncoded)],
            Form(TokenPayload(clientId, clientSecret, code, codeVerifier, redirectUri)))
  }

  /**
   * Reading the form body back gives the six fields in order with values
   * unchanged, whenever no value contains `&`.
   */
  lemma TokenBodyReadBack(
    clientId: string, clientSecret: string, code: string, codeVerifier: string, redirectUri: string
  )
    requires Query.Amp !in clientId && Query.Amp !in clientSecret && Query.Amp !in code
    requires Query.Amp !in codeVerifier && Query.Amp !in redirectUri
    ensures Query.Parse(TokenPayload(clientId, clientSecret, code, codeVerifier, redirectUri))
            == TokenPairs(clientId, clientSecret, code, codeVerifier, redirectUri)
  {
    TokenPayloadIsForm(clientId, clientSecret, code, codeVerifier, redirectUri);
    Query.ParseEncode(TokenPairs(clientId, clientSecret, code, codeVerifier, redirectUri));
  }

  /**
   * `get_token`, with the HTTP exchange as a parameter: the decoded body is
   * returned for every status, so two responses that differ only in their
   * status give the same result.
   */
  function GetToken(
    transport: Request -> Response,
    baseUri: string, clientId: string, clientSecret: string, code: string, codeVerifier: string, redirectUri: string
  ): (r: Json)
    ensures r == transport(TokenRequest(baseUri, clientId, clientSecret, code, codeVerifier, redirectUri)).body
  {
    BodyAlways(transport(TokenRequest(baseUri, clientId, clientSecret, code, codeVerifier, redirectUri)))
  }
}
