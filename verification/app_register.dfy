/**
 * `vidaas_agent/app_register.py`: registering a client application and the
 * client-credentials token request of section 4.4.2 of RFC 6749. The HTTP
 * exchange is a `transport` parameter and the decoded body is returned for
 * every status.
 */
module AppRegister {
  import opened Wrappers
  import opened Dicts
  import opened Http
  import Query

  const ApplicationPath: string := "/v0/oauth/application"
  const ClientTokenPath: string := "/v0/oauth/client_token"
  const ClientCredentialsGrant: string := "client_credentials"

  // ---------------------------------------------------------------------
  // `register_application`: JSON body, JSON headers.

  /** The dict display of the registration payload, in source order. */
  function RegistrationEntries(name: string, comments: string, redirectUris: seq<string>, email: string)
    : seq<(string, Json)>
  {
    [("name", JString(name)),
     ("comments", JString(comments)),
     ("redirect_uris", StringArray(redirectUris)),
     ("email", JString(email))]
  }

  /** Both headers of the registration request. */
  const JsonHeaders: Dict<string> := [(ContentType, ApplicationJson), (Accept, ApplicationJson)]

  /** The request `register_application` sends. */
  function RegisterRequest(url: string, name: string, comments: string, redirectUris: seq<string>, email: string)
    : (req: Request)
    ensures req.verb == Post && req.url == url + ApplicationPath
    ensures Header(req, ContentType) == Some(ApplicationJson)
    ensures Header(req, Accept) == Some(ApplicationJson)
    ensures |req.headers| == 2
    ensures req.body.JsonBody? && req.body.value.JObject?
  {
    assert ContentType[0] != Accept[0];
    LookupPair(JsonHeaders[0], JsonHeaders[1], ContentType);
    LookupPair(JsonHeaders[0], JsonHeaders[1], Accept);
    Request(Post, url + ApplicationPath, JsonHeaders,
            JsonBody(JObject(Literal(RegistrationEntries(name, comments, redirectUris, email)))))
  }

  lemma RegistrationKeysDistinct(name: string, comments: string, redirectUris: seq<string>, email: string)
    ensures Keys(RegistrationEntries(name, comments, redirectUris, email))
            == ["name", "comments", "redirect_uris", "email"]
    ensures Distinct(Keys(RegistrationEntries(name, comments, redirectUris, email)))
  {
  }

  /**
   * The payload has exactly the four fields, in source order, and reading
   * it back gives every argument unchanged: the redirect URIs as the same
   * list, in the same order.
   */
  lemma RegistrationBodyReadBack(url: string, name: string, comments: string, redirectUris: seq<string>, email: string)
    ensures var body := RegisterRequest(url, name, comments, redirectUris, email).body.value;
      && Keys(body.members) == ["name", "comments", "redirect_uris", "email"]
      && Member(body, "name") == Some(JString(name))
      && Member(body, "comments") == Some(JString(comments))
      && Member(body, "email") == Some(JString(email))
      && Member(body, "redirect_uris").Some?
      && Strings(Member(body, "redirect_uris").value) == Some(redirectUris)
  {
    var es := RegistrationEntries(name, comments, redirectUris, email);
    RegistrationKeysDistinct(name, comments, redirectUris, email);
    LiteralOfDistinct(es);
    LookupDistinct(es, 0);
    LookupDistinct(es, 1);
    LookupDistinct(es, 2);
    LookupDistinct(es, 3);
    StringsOfStringArray(redirectUris);
  }

  /** `register_application`: the decoded body, for any status. */
  function RegisterApplication(
    transport: Request -> Response,
    url: string, name: string, comments: string, redirectUris: seq<string>, email: string
  ): (r: Json)
    ensures r == transport(RegisterRequest(url, name, comments, redirectUris, email)).body
  {
    BodyAlways(transport(RegisterRequest(url, name, comments, redirectUris, email)))
  }

  // ---------------------------------------------------------------------
  // `app_token`: client-credentials grant, form body.

  /** The form fields of the client-token request, in payload order. */
  function ClientTokenPairs(clientId: string, clientSecret: string): seq<(string, string)> {
    [("grant_type", ClientCredentialsGrant),
     ("client_id", clientId),
     ("client_secret", clientSecret)]
  }

  /** The payload f-string of `app_token`. */
  function ClientTokenPayload(clientId: string, clientSecret: string): string {
    "grant_type=client_credentials&client_id=" + clientId + "&client_secret=" + clientSecret
  }

  lemma ClientTokenLiterals()
    ensures "grant_type" + "=" + ClientCredentialsGrant + ("&" + "client_id" + "=")
            == "grant_type=client_credentials&client_id="
    ensures "&" + "client_secret" + "=" == "&client_secret="
  {
    ClientCredentialsGrantLiteral();
    Query.ClientIdSeparator();
    ClientCredentialsPrefix();
    Query.ClientSecretSeparator();
  }

  lemma ClientCredentialsGrantLiteral()
    ensures "grant_type" + "=" + ClientCredentialsGrant == "grant_type=client_credentials"
  {
  }

  lemma ClientCredentialsPrefix()
    ensures "grant_type=client_credentials" + "&client_id=" == "grant_type=client_credentials&client_id="
  {
  }

  /** The payload is the form encoding of the three fields, in order. */
  lemma ClientTokenPayloadIsForm(clientId: string, clientSecret: string)
    ensures ClientTokenPayload(clientId, clientSecret) == Query.Encode(ClientTokenPairs(clientId, clientSecret))
  {
    var ps := ClientTokenPairs(clientId, clientSecret);
    ClientTokenLiterals();
    Query.EncodeStep("grant_type", ClientCredentialsGrant, ps[1..]);
    assert ps == [ps[0]] + ps[1..];
    var p0 := "grant_type" + "=" + ClientCredentialsGrant;
    Query.TrailStep(p0, "client_id", clientId, ps[2..]);
    assert ps[1..] == [ps[1]] + ps[2..];
    Query.Assoc(p0, "&" + "client_id" + "=", clientId);
    var p1 := "grant_type=client_credentials&client_id=" + clientId;
    Query.TrailStep(p1, "client_secret", clientSecret, []);
    assert ps[2..] == [ps[2]] + [];
    assert p1 + "&client_secret=" + clientSecret + Query.Trail([]) == p1 + "&client_secret=" + clientSecret;
  }

  /** The headers of the client-token request. */
  const FormHeaders: Dict<string> := [(ContentType, FormUrlEncoded), (Accept, ApplicationJson)]

  /** The request `app_token` sends. */
  function ClientTokenRequest(url: string, clientId: string, clientSecret: string): (req: Request)
    ensures req.verb == Post && req.url == url + ClientTokenPath
    ensures Header(req, ContentType) == Some(FormUrlEncoded)
    ensures Header(req, Accept) == Some(ApplicationJson)
    ensures |req.headers| == 2
    ensures req.body == Form(Query.Encode(ClientTokenPairs(clientId, clientSecret)))
  {
    assert ContentType[0] != Accept[0];
    LookupPair(FormHeaders[0], FormHeaders[1], ContentType);
    LookupPair(FormHeaders[0], FormHeaders[1], Accept);
    ClientTokenPayloadIsForm(clientId, clientSecret);
    Request(Post, url + ClientTokenPath, FormHeaders, Form(ClientTokenPayload(clientId, clientSecret)))
  }

  /** Reading the form back gives the grant type and both credentials, unless a credential contains `&`. */
  lemma ClientTokenReadBack(clientId: string, clientSecret: string)
    requires Query.Amp !in clientId && Query.Amp !in clientSecret
    ensures Query.Parse(ClientTokenPayload(clientId, clientSecret)) == ClientTokenPairs(clientId, clientSecret)
  {
    ClientTokenPayloadIsForm(clientId, clientSecret);
    Query.ParseEncode(ClientTokenPairs(clientId, clientSecret));
  }

  /** `app_token`: the decoded body, for any status. */
  function AppToken(transport: Request -> Response, url: string, clientId: string, clientSecret: string): (r: Json)
    ensures r == transport(ClientTokenRequest(url, clientId, clientSecret)).body
  {
    BodyAlways(transport(ClientTokenRequest(url, clientId, clientSecret)))
  }
}
