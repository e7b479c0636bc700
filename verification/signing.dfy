/**
 * `vidaas_agent/signing.py`: the signature request. The hash element is a
 * Python dict display whose sixth entry uses the `pdf_signature_page`
 * argument as both key and value, so the element carries a key equal to the
 * flag's value, and a flag that equals another key name overwrites that
 * entry.
 */
module Signing {
  import opened Wrappers
  import opened Dicts
  import opened Http

  const SignaturesPath: string := "/valid/api/v1/trusted-services/signatures"
  const DefaultPdfSignaturePage: string := "true"
  const DefaultSignatureFormat: string := "CAdES_AD_RB"

  /** The caller-supplied description of one content digest to sign. */
  datatype HashToSign = HashToSign(
    id: string,
    alias: string,
    value: string,
    algorithm: string,
    base64Content: string,
    pdfSignaturePage: string,
    signatureFormat: string)

  /** The seven entries of the dict display, in source order. */
  function ElementEntries(h: HashToSign): seq<(string, Json)> {
    [("id", JString(h.id)),
     ("alias", JString(h.alias)),
     ("hash", JString(h.value)),
     ("hash_algorithm", JString(h.algorithm)),
     ("signature_format", JString(h.signatureFormat)),
     (h.pdfSignaturePage, JString(h.pdfSignaturePage)),
     ("base64_content", JString(h.base64Content))]
  }

  /** The six key names written literally in the display. */
  const FixedKeys: seq<string> :=
    ["id", "alias", "hash", "hash_algorithm", "signature_format", "base64_content"]

  /** The single element of `hashes`, after dict-display evaluation. */
  function Element(h: HashToSign): Dict<Json> {
    Literal(ElementEntries(h))
  }

  /** The JSON body of the request. */
  function SignBody(h: HashToSign): Json {
    JObject([("hashes", JArray([JObject(Element(h))]))])
  }

  /** The request `sign` sends. */
  function SignRequest(baseUri: string, accessToken: string, h: HashToSign): (req: Request)
    ensures req.verb == Post && req.url == baseUri + SignaturesPath
    ensures Header(req, Authorization) == Some("Bearer " + accessToken)
    ensures Header(req, ContentType) == Some(ApplicationJson)
    ensures |req.headers| == 2
    ensures req.body == JsonBody(JObject([("hashes", JArray([JObject(Element(h))]))]))
    ensures Member(req.body.value, "hashes") == Some(JArray([JObject(Element(h))]))
  {
    assert Authorization[0] != ContentType[0];
    LookupPair((Authorization, "Bearer " + accessToken), (ContentType, ApplicationJson), ContentType);
    LookupPair((Authorization, "Bearer " + accessToken), (ContentType, ApplicationJson), Authorization);
    Request(Post, baseUri + SignaturesPath,
            [(Authorization, "Bearer " + accessToken), (ContentType, ApplicationJson)],
            JsonBody(SignBody(h)))
  }

  /** `sign`, with the HTTP exchange as a parameter: the decoded body for any status. */
  function Sign(transport: Request -> Response, baseUri: string, accessToken: string, h: HashToSign): (r: Json)
    ensures r == transport(SignRequest(baseUri, accessToken, h)).body
  {
    BodyAlways(transport(SignRequest(baseUri, accessToken, h)))
  }

  // ---------------------------------------------------------------------
  // Properties of the element.

  lemma ElementKeys(h: HashToSign)
    ensures Keys(ElementEntries(h))
            == ["id", "alias", "hash", "hash_algorithm", "signature_format", h.pdfSignaturePage, "base64_content"]
  {
  }

  lemma FixedKeysDistinct()
    ensures Distinct(FixedKeys)
  {
  }

  /**
   * The element has seven keys exactly when the flag's value is not one of
   * the six literal key names, and six otherwise.
   */
  lemma ElementSize(h: HashToSign)
    ensures |Element(h)| == if h.pdfSignaturePage in FixedKeys then 6 else 7
  {
    LiteralSizeIsKeyCount(ElementEntries(h));
    ElementKeySet(h);
    FixedKeysDistinct();
    DistinctCard(FixedKeys);
  }

  lemma ElementKeySet(h: HashToSign)
    ensures KeySet(Keys(ElementEntries(h))) == KeySet(FixedKeys) + {h.pdfSignaturePage}
    ensures h.pdfSignaturePage in FixedKeys <==> h.pdfSignaturePage in KeySet(FixedKeys)
  {
    ElementKeys(h);
  }

  /**
   * What each key reads: the flag's value reads the flag unless it is
   * `base64_content`, whose later entry wins; a literal key reads its
   * argument unless the flag names it, in which case the flag wins.
   */
  lemma ElementLookup(h: HashToSign)
    ensures Lookup(Element(h), h.pdfSignaturePage)
            == Some(JString(if h.pdfSignaturePage == "base64_content" then h.base64Content else h.pdfSignaturePage))
    ensures Lookup(Element(h), "base64_content") == Some(JString(h.base64Content))
    ensures Lookup(Element(h), "id") == Some(JString(if h.pdfSignaturePage == "id" then "id" else h.id))
    ensures Lookup(Element(h), "alias") == Some(JString(if h.pdfSignaturePage == "alias" then "alias" else h.alias))
    ensures Lookup(Element(h), "hash") == Some(JString(if h.pdfSignaturePage == "hash" then "hash" else h.value))
    ensures Lookup(Element(h), "hash_algorithm")
            == Some(JString(if h.pdfSignaturePage == "hash_algorithm" then "hash_algorithm" else h.algorithm))
    ensures Lookup(Element(h), "signature_format")
            == Some(JString(if h.pdfSignaturePage == "signature_format" then "signature_format" else h.signatureFormat))
  {
    var es := ElementEntries(h);
    LookupLiteral(es, h.pdfSignaturePage);
    LookupLiteral(es, "base64_content");
    LookupLiteral(es, "id");
    LookupLiteral(es, "alias");
    LookupLiteral(es, "hash");
    LookupLiteral(es, "hash_algorithm");
    LookupLiteral(es, "signature_format");
    ElementLastValue(h, h.pdfSignaturePage);
    ElementLastValue(h, "base64_content");
    ElementLastValue(h, "id");
    ElementLastValue(h, "alias");
    ElementLastValue(h, "hash");
    ElementLastValue(h, "hash_algorithm");
    ElementLastValue(h, "signature_format");
  }

  /** The last value given to a key in the display, read from the end. */
  lemma ElementLastValue(h: HashToSign, k: string)
    ensures LastValue(ElementEntries(h), k)
            == if k == "base64_content" then Some(JString(h.base64Content))
               else if k == h.pdfSignaturePage then Some(JString(h.pdfSignaturePage))
               else if k == "signature_format" then Some(JString(h.signatureFormat))
               else if k == "hash_algorithm" then Some(JString(h.algorithm))
               else if k == "hash" then Some(JString(h.value))
               else if k == "alias" then Some(JString(h.alias))
               else if k == "id" then Some(JString(h.id))
               else None
  {
    var es := ElementEntries(h);
    var x0, x1, x2, x3, x4, x5, x6 := es[0], es[1], es[2], es[3], es[4], es[5], es[6];
    assert es == [x0, x1, x2, x3, x4, x5] + [x6];
    LastValueSnoc([x0, x1, x2, x3, x4, x5], x6, k);
    assert [x0, x1, x2, x3, x4, x5] == [x0, x1, x2, x3, x4] + [x5];
    LastValueSnoc([x0, x1, x2, x3, x4], x5, k);
    assert [x0, x1, x2, x3, x4] == [x0, x1, x2, x3] + [x4];
    LastValueSnoc([x0, x1, x2, x3], x4, k);
    assert [x0, x1, x2, x3] == [x0, x1, x2] + [x3];
    LastValueSnoc([x0, x1, x2], x3, k);
    assert [x0, x1, x2] == [x0, x1] + [x2];
    LastValueSnoc([x0, x1], x2, k);
    assert [x0, x1] == [x0] + [x1];
    LastValueSnoc([x0], x1, k);
    assert [x0] == [] + [x0];
    LastValueSnoc([], x0, k);
  }

  /** There is no literal `pdf_signature_page` key: it appears only when the flag's value is that very text. */
  lemma NoLiteralPdfKey(h: HashToSign)
    ensures "pdf_signature_page" in Keys(Element(h)) <==> h.pdfSignaturePage == "pdf_signature_page"
  {
    var es := ElementEntries(h);
    ElementKeys(h);
    assert "pdf_signature_page" !in FixedKeys;
    assert "pdf_signature_page" in Keys(es) <==> h.pdfSignaturePage == "pdf_signature_page";
  }

  /** With the default flag and format the element is exactly these seven entries, `"true": "true"` included. */
  lemma DefaultElement(id: string, alias: string, value: string, algorithm: string, content: string)
    ensures Element(HashToSign(id, alias, value, algorithm, content, DefaultPdfSignaturePage, DefaultSignatureFormat))
            == [("id", JString(id)),
                ("alias", JString(alias)),
                ("hash", JString(value)),
                ("hash_algorithm", JString(algorithm)),
                ("signature_format", JString("CAdES_AD_RB")),
                ("true", JString("true")),
                ("base64_content", JString(content))]
  {
    var h := HashToSign(id, alias, value, algorithm, content, DefaultPdfSignaturePage, DefaultSignatureFormat);
    DefaultElementDistinct(h);
    LiteralOfDistinct(ElementEntries(h));
  }

  lemma DefaultElementDistinct(h: HashToSign)
    requires h.pdfSignaturePage == DefaultPdfSignaturePage
    ensures Distinct(Keys(ElementEntries(h)))
  {
    assert DefaultPdfSignaturePage !in FixedKeys;
    ElementSize(h);
    LiteralSize(ElementEntries(h));
  }

  // ---------------------------------------------------------------------
  // The element as the parameter's documentation describes it: a flag
  // stored under the key `pdf_signature_page`.

  const PdfSignaturePageKey: string := "pdf_signature_page"

  /** The element with a literal `pdf_signature_page` key. */
  function IntendedElement(h: HashToSign): Dict<Json> {
    Literal(ElementEntries(h)[5 := (PdfSignaturePageKey, JString(h.pdfSignaturePage))])
  }

  /**
   * Whatever the flag's text, the corrected element has seven distinct keys
   * in source order and every key reads back the argument it was given.
   */
  lemma IntendedElementFields(h: HashToSign)
    ensures Keys(IntendedElement(h))
            == ["id", "alias", "hash", "hash_algorithm", "signature_format", PdfSignaturePageKey, "base64_content"]
    ensures Lookup(IntendedElement(h), PdfSignaturePageKey) == Some(JString(h.pdfSignaturePage))
    ensures Lookup(IntendedElement(h), "id") == Some(JString(h.id))
    ensures Lookup(IntendedElement(h), "alias") == Some(JString(h.alias))
    ensures Lookup(IntendedElement(h), "hash") == Some(JString(h.value))
    ensures Lookup(IntendedElement(h), "hash_algorithm") == Some(JString(h.algorithm))
    ensures Lookup(IntendedElement(h), "signature_format") == Some(JString(h.signatureFormat))
    ensures Lookup(IntendedElement(h), "base64_content") == Some(JString(h.base64Content))
  {
    var es := ElementEntries(h)[5 := (PdfSignaturePageKey, JString(h.pdfSignaturePage))];
    ElementKeys(h.(pdfSignaturePage := PdfSignaturePageKey));
    assert Keys(es) == Keys(ElementEntries(h.(pdfSignaturePage := PdfSignaturePageKey)));
    LiteralOfDistinct(es);
    LookupDistinct(es, 0);
    LookupDistinct(es, 1);
    LookupDistinct(es, 2);
    LookupDistinct(es, 3);
    LookupDistinct(es, 4);
    LookupDistinct(es, 5);
    LookupDistinct(es, 6);
  }
}
