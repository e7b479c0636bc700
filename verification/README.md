# vidaas_agent in Dafny

This project models the client side of the VIDaaS remote-signing API as
`vidaas_agent` implements it. It covers:

- the PKCE code pair of RFC 7636 (`utils/encryption.py`);
- the authorization URL, the authentication poll and the
  authorization-code token request (`vidaas_agent/auth.py`);
- the signature request (`vidaas_agent/signing.py`);
- application registration and the client-credentials token
  (`vidaas_agent/app_register.py`);
- user discovery (`vidaas_agent/user.py`).

Every operation is a pure function.

- The request builders return the exact request that the Python function
  hands to `requests`. That request has a method, a URL, an ordered list of
  headers, and a body that is a form text, a JSON value, or no body at all
  (the authentication GET).
- The HTTP exchange is a `transport: Request -> Response` parameter.
- The random source is a `random` byte-sequence parameter.
- SHA-256 is a `sha256` function parameter that always yields 32 bytes.

The supporting modules are:

| module | file | role |
|---|---|---|
| `Wrappers` | `wrappers.dfy` | `Option` |
| `Bytes` | `bytes.dfy` | bytes; the UTF-8 encoding of `str.encode()` |
| `Base64Url` | `base64url.dfy` | the URL-safe alphabet of section 5 of RFC 4648 (padded and unpadded encoders, plus a section-5 decoder used to state the round trip) |
| `Decimal` | `decimal.dfy` | `str(int)` and its inverse |
| `Query` | `query.dfy` | `"&".join(f"{k}={v}" …)` and a splitter that reads it back |
| `Dicts` | `dicts.dfy` | Python dicts as insertion-ordered association lists |
| `Http` | `http.dfy` | JSON values, requests and responses, and the two response rules |

`Dicts` follows Python's dict semantics:

- `d[k] = v` overwrites in place when `k` is present, and appends otherwise.
- A dict display is a left fold of that assignment. A repeated key therefore
  keeps its first position and takes its last value.

There are two response rules:

- `authentication` returns the body only for status 200, and `None` otherwise.
- Every other call returns the decoded body whatever the status.

Some behaviour of the source is stated as proved properties rather than
hidden:

- The query and form encoders do not percent-encode values. A value that
  contains `&k=v` therefore reads back as an extra field
  (`Query.UnencodedAmpersandAddsPair`).
- Falsy optional arguments (`""`, `0`) are dropped exactly like `None`.
- A negative `lifetime` is truthy and is sent as `-n`.

## Model

| member | source | states |
|---|---|---|
| Base64Url.Encode | utils/encryption.py:18 | `urlsafe_b64encode` yields 4·⌈n/3⌉ characters |
| Base64Url.EncodeNoPad | utils/encryption.py:18 | the unpadded encoding has ⌈4n/3⌉ characters, all from the URL-safe alphabet `A–Z a–z 0–9 - _` |
| Base64Url.StripEncode | utils/encryption.py:18 | removing every `=` from the padded encoding leaves exactly the unpadded encoding |
| Base64Url.DecodeEncode | utils/encryption.py:18 | decoding the padded encoding gives the original bytes back |
| Base64Url.DecodeRepadNoPad | utils/encryption.py:18 | re-padding the stripped text and decoding it gives the original bytes back, so stripping loses nothing |
| Base64Url.EncodeNoPadInjective | utils/encryption.py:18 | different byte strings have different unpadded encodings |
| Base64Url.ValueOf | utils/encryption.py:18 | a character has a 6-bit value exactly when it is in the URL-safe alphabet |
| Base64Url.ValueOfCharOf | utils/encryption.py:18 | the alphabet maps each 6-bit value to a character that maps back to it |
| Base64Url.CharOfValueOf | utils/encryption.py:18 | every URL-safe character is the image of its own value, so the alphabet is a bijection |
| Base64Url.QuadRoundTrip | utils/encryption.py:18 | the four characters of a 3-byte group decode to those three bytes |
| Base64Url.StripPaddingOfUnpadded | utils/encryption.py:18 | `.replace('=', '')` leaves any text without `=` unchanged |
| Bytes.Utf8Char | utils/encryption.py:20 | `str.encode()` gives one byte exactly for ASCII characters, that byte being the code point, and 2–4 bytes otherwise |
| Bytes.Utf8OfAscii | utils/encryption.py:20 | on ASCII text, UTF-8 is the code points byte for byte |
| Bytes.Utf8LengthIffAscii | utils/encryption.py:20 | the encoding has as many bytes as the text has characters iff the text is ASCII |
| Pkce.S256 | utils/encryption.py:19-21 | the challenge is the unpadded URL-safe encoding of SHA-256 of the verifier's UTF-8 bytes: 43 characters, URL-safe, no `=` |
| Pkce.CodePairOf | utils/encryption.py:18-22 | for 32 random bytes, the verifier is their unpadded encoding; it is 43 characters, within RFC 7636's 43–128 bound, URL-safe, ASCII and without `=`; it decodes back to the random bytes; the challenge is derived from it as above |
| Pkce.ChallengeDeterminedByVerifier | utils/encryption.py:19-21 | two pairs with the same verifier have the same challenge |
| Pkce.VerifierInjective | utils/encryption.py:18 | different random inputs give different verifiers |
| Decimal.IntToString | vidaas_agent/auth.py:49 | `str(lifetime)` is non-empty, all digits, with a leading `-` exactly for negative values; zero is `"0"` and no other value has a leading zero digit |
| Decimal.ParseIntToString | vidaas_agent/auth.py:49 | the decimal text of the lifetime parses back to the same integer |
| Decimal.IntToStringInjective | vidaas_agent/auth.py:49 | different lifetimes give different texts |
| Query.SplitJoin | vidaas_agent/auth.py:54 | splitting a `&`-join at `&` gives the parts back when no part contains `&` |
| Query.ParseEncode | vidaas_agent/auth.py:54 | reading a `key=value` query back gives the pairs in order, when keys hold no `&` or `=` and values hold no `&` |
| Query.UnencodedAmpersandAddsPair | vidaas_agent/auth.py:54 | values are not escaped: a value containing `&k2=v2` reads back as two pairs |
| Dicts.Lookup | vidaas_agent/auth.py:37-51 | a key is found exactly when it is one of the dict's keys |
| Dicts.Put | vidaas_agent/auth.py:47 | item assignment keeps the key list for a present key and appends a fresh key at the end |
| Dicts.LookupPut | vidaas_agent/auth.py:47 | after `d[k] = v`, `k` reads `v` and every other key reads what it read before |
| Dicts.Literal | vidaas_agent/signing.py:45-53 | a dict display's keys are its entries' keys with repeats dropped, in first-occurrence order |
| Dicts.LookupLiteral | vidaas_agent/signing.py:45-53 | in a dict display, each key reads the value of its last entry |
| Dicts.LiteralOfDistinct | vidaas_agent/app_register.py:43-48 | a display with distinct keys is exactly its entries, in order |
| Dicts.LiteralSize | vidaas_agent/signing.py:45-53 | a display has at most as many entries as were written, with equality iff the keys are distinct |
| Dicts.LookupDistinct | vidaas_agent/user.py:38-43 | with distinct keys, each entry's key reads that entry's value |
| Auth.AuthorizationParamsOrder | vidaas_agent/auth.py:37-51 | the parameters are the five fixed ones in order, followed by each truthy optional in the order login_hint, lifetime, redirect_uri |
| Auth.AuthorizationParamCount | vidaas_agent/auth.py:37-51 | there are 5 parameters plus one per truthy optional |
| Auth.AuthorizationOptionalLookup | vidaas_agent/auth.py:46-51 | each optional parameter is present iff its argument is truthy, and then reads that argument (the lifetime as its decimal text) |
| Auth.LifetimeReadBack | vidaas_agent/auth.py:48-49 | a truthy lifetime parses back from the URL parameter to the same integer |
| Auth.FalsyOptionalsOmitted | vidaas_agent/auth.py:46-51 | empty strings and a zero lifetime give the same URL as leaving them out |
| Auth.AuthorizationQueryText | vidaas_agent/auth.py:54 | the query text is the fixed pairs, then `&key=value` per truthy optional |
| Auth.AuthorizationUrlText | vidaas_agent/auth.py:37-55 | the full URL text is base, `/v0/oauth/authorize?`, the fixed pairs with `S256` and `code`, then the truthy optionals |
| Auth.AuthorizationUrlDefaults | vidaas_agent/auth.py:6-57 | with only the required arguments, the URL is the literal text ending `scope=single_signature` |
| Auth.AuthorizationUrlLoginHint | vidaas_agent/auth.py:46-47 | a non-empty login hint adds exactly `&login_hint=<hint>` |
| Auth.AuthorizationQueryReadBack | vidaas_agent/auth.py:54-55 | the query parses back to the parameters in order when no value holds `&` |
| Auth.AuthenticationRequest | vidaas_agent/auth.py:88-91 | a GET to base + `/valid/api/v1/trusted-services/authentications?code=<code>` with the single header `Accept: application/json` and no body |
| Auth.AuthenticationQueryReadBack | vidaas_agent/auth.py:88 | the query string reads back as the single pair `code=<code>` when the code holds no `&` |
| Auth.Authentication | vidaas_agent/auth.py:94-98 | the result is present iff the status is 200, and is then the response body |
| Http.BodyIfOk | vidaas_agent/auth.py:94-98 | the strict rule returns the body iff the status is 200 |
| Http.ResponseRulesCompared | vidaas_agent/auth.py:94-98 | the lenient rule ignores the status; the strict rule is the lenient one restricted to status 200 |
| Auth.TokenPayloadIsForm | vidaas_agent/auth.py:123 | the payload f-string is the `&`-joined `key=value` form of the six token fields, in order |
| Auth.TokenRequest | vidaas_agent/auth.py:121-128 | a POST to base + `/v0/oauth/token` whose one header is the form content type and whose body is that form |
| Auth.TokenBodyReadBack | vidaas_agent/auth.py:123 | the form reads back as the six fields when no value holds `&` |
| Auth.GetToken | vidaas_agent/auth.py:128-130 | the response body is returned whatever the status |
| Signing.SignRequest | vidaas_agent/signing.py:36-57 | a POST to base + `/valid/api/v1/trusted-services/signatures` with exactly two headers (`Authorization: Bearer <token>`, `Content-Type: application/json`) and a JSON object body whose only key is `hashes`, a one-element list holding the element |
| Signing.ElementSize | vidaas_agent/signing.py:45-53 | the element has 7 keys, or 6 when the flag's text equals a literal key name |
| Signing.ElementLookup | vidaas_agent/signing.py:45-53 | the flag's text is a key with the flag as its value unless it is `base64_content`, whose later entry wins; a literal key reads its argument unless the flag names it |
| Signing.NoLiteralPdfKey | vidaas_agent/signing.py:51 | `pdf_signature_page` is a key only when the flag's text is that very word |
| Signing.DefaultElement | vidaas_agent/signing.py:14-53 | with the defaults, the element is the seven entries with `"signature_format": "CAdES_AD_RB"` and `"true": "true"` |
| Signing.IntendedElementFields | vidaas_agent/signing.py:30 | with a literal `pdf_signature_page` key, the element has seven distinct keys and each reads back its argument, whatever the flag |
| Signing.Sign | vidaas_agent/signing.py:57-59 | the response body is returned whatever the status |
| Http.StringArray | vidaas_agent/app_register.py:46 | a list of strings becomes a JSON array of the same length whose items are those strings in order |
| Http.StringsOfStringArray | vidaas_agent/app_register.py:46 | the list of redirect URIs reads back from JSON unchanged |
| AppRegister.RegisterRequest | vidaas_agent/app_register.py:38-58 | a POST to url + `/v0/oauth/application` with exactly two headers, `Content-Type` and `Accept`, both `application/json`, and a JSON object body |
| AppRegister.RegistrationBodyReadBack | vidaas_agent/app_register.py:43-48 | the body has exactly the keys name, comments, redirect_uris, email in order, each reading back its argument; the URI list comes back whole and in order |
| AppRegister.RegisterApplication | vidaas_agent/app_register.py:53-60 | the response body is returned whatever the status |
| AppRegister.ClientTokenPayloadIsForm | vidaas_agent/app_register.py:82 | the payload f-string is the form `grant_type=client_credentials&client_id=…&client_secret=…` |
| AppRegister.ClientTokenRequest | vidaas_agent/app_register.py:80-89 | a POST to url + `/v0/oauth/client_token` with headers for the form content type and JSON accept, and that form as body |
| AppRegister.ClientTokenReadBack | vidaas_agent/app_register.py:82 | the form reads back as the three fields when neither credential holds `&` |
| AppRegister.AppToken | vidaas_agent/app_register.py:89-91 | the response body is returned whatever the status |
| User.DiscoveryRequest | vidaas_agent/user.py:35-52 | a POST to base + `/v0/oauth/user-discovery` with the single header `Content-Type: application/json` (no `Accept`) and a JSON object body |
| User.DiscoveryBodyReadBack | vidaas_agent/user.py:38-43 | the body has exactly client_id, client_secret, user_cpf_cnpj, val_cpf_cnpj in order, each reading back its argument, with no check on the CPF/CNPJ text |
| User.UserDiscover | vidaas_agent/user.py:47-54 | the response body is returned whatever the status |

## Left out

- The HTTP transport (`requests.get`, `requests.post`, `requests.request`) is a parameter. Timeouts, connection errors and TLS are not modelled.
- `response.json()` is assumed to succeed, so its failure on a non-JSON body is not modelled. The body is an already-decoded `Json` value.
- `json.dumps` is modelled as the JSON value it serialises. The byte text, whitespace and escaping are not modelled.
- The diagnostic `print` on a failed authentication (vidaas_agent/auth.py:97) is console output only and is not modelled.
- `os.urandom(32)` is the `random` parameter: randomness cannot be modelled.
- `hashlib.sha256` is the `sha256` parameter. It is constrained only to return 32 bytes; the compression function itself is not modelled.
- The base64 decoder is this model's own decoder for the alphabet of section 5 of RFC 4648, used only to state the round trips; the source never decodes. It requires a multiple of four characters with `=` only in the last group, and it does not reject non-zero pad bits (section 3.5 of RFC 4648), so `AB==` decodes to one zero byte.
- Python truthiness is modelled for the argument types the signatures declare: `str` or `None`, and `int` or `None`.
- `setup.py` is packaging only and is not modelled.
- The order in which a caller chains the calls (PKCE, then URL, then token exchange) is not modelled: each call is independent in the source.
- Decimal.IntToString: the limit on integer-to-text conversion (`sys.get_int_max_str_digits`, 4300 digits by default from Python 3.11 and the 2022 security releases of 3.7 to 3.10) is not modelled. On such interpreters `str(lifetime)` at vidaas_agent/auth.py:49 raises `ValueError` for a lifetime of more than 4300 digits, so `authorizations_qrcode` raises there, while `Auth.AuthorizationUrl` returns a URL for every integer.
- Auth.Authentication: a status-200 response whose JSON body is `null` makes `response.json()` return `None`, so a Python caller testing `is None` cannot tell it from a failure. The model returns `Some(JNull)` there: the `Option` marks the status, not the Python value.
- Signing.Sign, Auth.GetToken, AppRegister.RegisterApplication, AppRegister.AppToken and User.UserDiscover: the contract says only that the body is returned whatever the status. The body's content is the server's, so nothing more can be promised.

## Findings

| source | as written | input that shows it | evidently intended | confidence | as-written member | corrected member |
|---|---|---|---|---|---|---|
| vidaas_agent/signing.py:51 | the element entry is `pdf_signature_page: pdf_signature_page`, so the flag's text is used as the key | the default flag `'true'` sends `"true": "true"` and no `pdf_signature_page` key; the flag `'id'` overwrites the `id` entry | the key `"pdf_signature_page"` holding the flag, as the parameter's documentation (vidaas_agent/signing.py:30) describes | medium, not executed | Signing.DefaultElement | Signing.IntendedElementFields |

`Signing.SignRequest` keeps the request as written, since that is what the
server receives. `Signing.IntendedElement` is the corrected element, and
`Signing.IntendedElementFields` states its properties.
