/**
 * `vidaas_agent/user.py`: user discovery by CPF or CNPJ. The four arguments
 * are copied into the JSON body as they are; the document type and number
 * are not checked, so any text reaches the server.
 */
module User {
  import opened Wrappers
  import opened Dicts
  import opened Http

  const UserDiscoveryPath: string := "/v0/oauth/user-discovery"

  /** The dict display of the discovery payload, in source order. */
  function DiscoveryEntries(clientId: string, clientSecret: string, documentType: string, documentNumber: string)
    : seq<(string, Json)>
  {
    [("client_id", JString(clientId)),
     ("client_secret", JString(clientSecret)),
     ("user_cpf_cnpj", JString(documentType)),
     ("val_cpf_cnpj", JString(documentNumber))]
  }

  /** The request `user_discover` sends: one header only, no `Accept`. */
  function DiscoveryRequest(
    baseUri: string, clientId: string, clientSecret: string, documentType: string, documentNumber: string
  ): (req: Request)
    ensures req.verb == Post && req.url == baseUri + UserDiscoveryPath
    ensures Header(req, ContentType) == Some(ApplicationJson)
    ensures Header(req, Accept) == None
    ensures |req.headers| == 1
    ensures req.body.JsonBody? && req.body.value.JObject?
  {
    assert ContentType[0] != Accept[0];
    LookupCons((ContentType, ApplicationJson), [], Accept);
    assert [(ContentType, ApplicationJson)] == [(ContentType, ApplicationJson)] + [];
    Request(Post, baseUri + UserDiscoveryPath, [(ContentType, ApplicationJson)],
            JsonBody(JObject(Literal(DiscoveryEntries(clientId, clientSecret, documentType, documentNumber)))))
  }

  lemma DiscoveryKeysDistinct(clientId: string, clientSecret: string, documentType: string, documentNumber: string)
    ensures Keys(DiscoveryEntries(clientId, clientSecret, documentType, documentNumber))
            == ["client_id", "client_secret", "user_cpf_cnpj", "val_cpf_cnpj"]
    ensures Distinct(Keys(DiscoveryEntries(clientId, clientSecret, documentType, documentNumber)))
  {
  }

  /**
   * The payload has exactly the four fields, in source order, and each
   * reads back the argument it was given, whatever its text: no format
   * check is made on the document type or number.
   */
  lemma DiscoveryBodyReadBack(
    baseUri: string, clientId: string, clientSecret: string, documentType: string, documentNumber: string
  )
    ensures var body := DiscoveryRequest(baseUri, clientId, clientSecret, documentType, documentNumber).body.value;
      && Keys(body.members) == ["client_id", "client_secret", "user_cpf_cnpj", "val_cpf_cnpj"]
      && Member(body, "client_id") == Some(JString(clientId))
      && Member(body, "client_secret") == Some(JString(clientSecret))
      && Member(body, "user_cpf_cnpj") == Some(JString(documentType))
      && Member(body, "val_cpf_cnpj") == Some(JString(documentNumber))
  {
    var es := DiscoveryEntries(clientId, clientSecret, documentType, documentNumber);
    DiscoveryKeysDistinct(clientId, clientSecret, documentType, documentNumber);
    LiteralOfDistinct(es);
    LookupDistinct(es, 0);
    LookupDistinct(es, 1);
    LookupDistinct(es, 2);
    LookupDistinct(es, 3);
  }

  /** `user_discover`: the decoded body, for any status. */
  function UserDiscover(
    transport: Request -> Response,
    baseUri: string, clientId: string, clientSecret: string, documentType: string, documentNumber: string
  ): (r: Json)
    ensures r == transport(DiscoveryRequest(baseUri, clientId, clientSecret, documentType, documentNumber)).body
  {
    BodyAlways(transport(DiscoveryRequest(baseUri, clientId, clientSecret, documentType, documentNumber)))
  }
}
