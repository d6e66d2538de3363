# Micropublish IndieAuth callback, modelled in Dafny

This project models `Micropublish::Auth`. That module is the relying-party side of the IndieAuth sign-in flow in the Micropublish web client. When the identity provider redirects back with an authorization code, `callback` runs these steps in order:

1. Check that the identity `me` is an HTTP(S) URI, and that the code is not blank.
2. Discover the identity's endpoints (`find_endpoints`).
   - It fetches `me`.
   - It reads the `micropub`, `token_endpoint` and `authorization_endpoint` relations from the `Link` header.
   - It then reads the same relations from the document's `<link>` elements.
   - It insists that all three keys are present.
3. Confirm the code at the authorization endpoint (`confirm_auth?`). The reply must name the same `me`.
4. Exchange the code for a token at the token endpoint (`get_token`).
5. Return the endpoint hash with the token added.

If any step fails, the callback gives nil.

The model has two modules:

- `Auth` (`auth.dfy`) holds the data model and the operations:
  - `Callback` is a pure function. It returns the outcome together with the trace of HTTP requests it issued, so "the token endpoint is never asked" is a statement about that trace.
  - The reply each request receives is an input value, as is every parser result.
  - `find_endpoints` is the imperative method `FindEndpoints`. It builds its local hash through a header step, a `<link>` loop and a completeness loop, following the source. It is proved equal to the reference function `Discover`. `Discover` defines each endpoint as:
    - the header value if that value is non-nil;
    - otherwise, the href of the first `<link>` that names the endpoint with a non-empty href.
- `AuthProperties` (`auth_properties.dfy`) holds the properties of discovery and of the callback, plus end-to-end scenarios.
- `Wrappers` (`wrappers.dfy`) holds `Option`, which stands for a value or Ruby's nil.

Ruby exceptions are modelled as values:
- An exception raised by the HTTP client is `TransportError`.
- Calling `downcase` or `empty?` on a missing `<link>` attribute gives `DiscoveryRaised` / `Raised`.

An IndieAuth client would expect three non-nil endpoints before it sends the code anywhere. The completeness loop (`lib/micropublish/auth.rb:61-66`) only tests whether each key is present in the hash. Whenever a `Link` header is present, all three keys are written, possibly as nil. So discovery succeeds with nil endpoints, and the callback then posts the code to a nil URL. The model follows the code: see `AuthProperties.HeaderMakesEveryKeyPresent`, `AuthProperties.EmptyLinkHeaderStillDiscovers` and `AuthProperties.NilAuthorizationEndpointIsPosted`.

## Model

| member | source | states |
|---|---|---|
| Auth.ValidUri | lib/micropublish/auth.rb:119-125 | `me` is accepted exactly when it parses to an HTTP or HTTPS URI. A parse error gives false, not an exception. |
| Auth.FindLinkIsFirstMatch | lib/micropublish/auth.rb:44-46 | The header lookup for a rel gives nil exactly when no header link has that rel. Otherwise it gives the href of the first header link that has it. |
| Auth.SlotNamed | lib/micropublish/auth.rb:52-58 | A downcased rel selects endpoint `k` exactly when it equals `k`'s relation name. |
| Auth.FillsAtMostOneSlot | lib/micropublish/auth.rb:52-58 | Because of the `elsif` chain, one `<link>` can fill at most one endpoint. |
| Auth.FillsIffNamedSlot | lib/micropublish/auth.rb:52-58 | A link that does not raise fills endpoint `k` exactly when its downcased rel names `k` and its href is non-empty. |
| Auth.FirstHrefIsFirstFilling | lib/micropublish/auth.rb:51-60 | Because each link only fills an unset or nil key, the value the links give an endpoint is the href of the first link in document order that fills it. It is nil exactly when no link does. |
| Auth.MergeStep | lib/micropublish/auth.rb:51-60 | After one more `<link>` is processed, the hash still agrees key by key with the reference merge of the header and the links seen so far. |
| Auth.FirstAbsent | lib/micropublish/auth.rb:61-66 | The completeness check reports nothing exactly when all three keys are present. Otherwise it reports the first absent key, in the order micropub, token, authorization. |
| Auth.Discover | lib/micropublish/auth.rb:35-72 | A non-2xx status (300 excluded) gives nil. A successful discovery returns a hash whose keys are exactly the three endpoint keys. |
| Auth.FindEndpoints | lib/micropublish/auth.rb:35-72 | The imperative `find_endpoints` returns exactly what the reference discovery `Discover` defines. |
| Auth.HeaderEndpoints | lib/micropublish/auth.rb:42-47 | With a `Link` header, all three keys are written, each holding the first matching header href or nil. Without a header, the hash stays empty. |
| Auth.MergeWithoutLinks | lib/micropublish/auth.rb:39-47 | Before any `<link>` is read, the hash is empty without a header. With a header, it holds the three header lookups. |
| Auth.AddDocumentLinks | lib/micropublish/auth.rb:50-60 | The `<link>` loop raises exactly when some link has a nil rel, or has a nil href and a rel that names an endpoint. Otherwise it yields the reference merge of the header and all links. |
| Auth.AbsorbLink | lib/micropublish/auth.rb:52-59 | One iteration raises exactly on a nil attribute that gets tested. Otherwise it fills the endpoint only when it is unset or nil and keeps the hash in step with the reference merge. |
| Auth.FirstMissingKey | lib/micropublish/auth.rb:61-66 | The completeness loop returns the first endpoint key the hash lacks, as `FirstAbsent` defines it. |
| Auth.FirstValue | lib/micropublish/auth.rb:85-86 | The first value of a form field is nil exactly when the field is missing or has no values. |
| Auth.ConfirmAuth | lib/micropublish/auth.rb:83-90 | The code is confirmed exactly when the reply is 2xx and its first `me` value equals the identity. |
| Auth.GetToken | lib/micropublish/auth.rb:106-112 | A token comes back exactly when the reply is 2xx and carries an `access_token` value. The token is the first such value. |
| Auth.Callback | lib/micropublish/auth.rb:5-33 | Returns the outcome together with the requests issued. No request is made when `me` is not an HTTP(S) URI or the code is blank. At most the three protocol requests are made. A hash comes back only after all three, with the three endpoint keys plus a non-nil `:token`. |
| AuthProperties.HeaderValueWins | lib/micropublish/auth.rb:42-58 | A non-nil header value for an endpoint is the value discovery returns, whatever the `<link>` elements say, provided none of them raises. |
| AuthProperties.FirstFillingLinkWins | lib/micropublish/auth.rb:51-60 | When the header gives nothing for an endpoint, the first filling `<link>` supplies it and later ones do not. |
| AuthProperties.HeaderMakesEveryKeyPresent | lib/micropublish/auth.rb:42-66 | With a `Link` header on a 2xx page whose links do not raise, discovery always succeeds, even with nil endpoints. |
| AuthProperties.EmptyLinkHeaderStillDiscovers | lib/micropublish/auth.rb:42-67 | An empty `Link` header on an empty page discovers a hash of three nils. |
| AuthProperties.CompletenessWithoutHeader | lib/micropublish/auth.rb:50-66 | Without a header, discovery succeeds exactly when every endpoint is filled by some `<link>`. Otherwise it reports an endpoint that no link fills. |
| AuthProperties.RelListNeverMatches | lib/micropublish/auth.rb:52-58 | A rel holding a space-separated list never names an endpoint, because the whole attribute is compared. |
| AuthProperties.RelMatchIgnoresCase | lib/micropublish/auth.rb:52-56 | A `<link>` rel names an endpoint exactly when it spells that endpoint's relation with any mix of ASCII upper- and lower-case letters. |
| AuthProperties.FirstHrefSkipsInertLink | lib/micropublish/auth.rb:51-60 | Removing a link that fills nothing does not change which link first fills an endpoint. |
| AuthProperties.InertLinkIgnored | lib/micropublish/auth.rb:51-60 | A link that neither raises nor fills anything can be removed without changing discovery's outcome. |
| AuthProperties.EmptyHrefIgnored | lib/micropublish/auth.rb:52-58 | A link whose href is empty is ignored. |
| AuthProperties.RelListIgnored | lib/micropublish/auth.rb:52-58 | A link whose rel is a space-separated list is ignored. |
| AuthProperties.InvalidMeChecksFirst | lib/micropublish/auth.rb:7-10 | An identity that is not an HTTP(S) URI gives nil before anything else, and no request is made. |
| AuthProperties.BlankCodeStopsBeforeDiscovery | lib/micropublish/auth.rb:13-16 | A nil or empty code gives nil before any request is made. |
| AuthProperties.RequestsFollowProtocol | lib/micropublish/auth.rb:19-28 | There are at most three requests, in this order: the identity GET, then the authorization POST to the discovered authorization endpoint, then the token POST to the discovered token endpoint. Each is sent only after the previous step succeeded, and each POST asks for scope `post`. |
| AuthProperties.FailedDiscoveryStops | lib/micropublish/auth.rb:19-20 | When discovery fails, neither the confirmation nor the token exchange is attempted. |
| AuthProperties.UnconfirmedCodeGetsNoToken | lib/micropublish/auth.rb:23-24 | An unconfirmed code means the token endpoint is never asked, and the result is not a hash. |
| AuthProperties.CallbackSucceedsIff | lib/micropublish/auth.rb:5-33 | The callback returns a hash exactly when every step succeeds: URI check, code check, discovery, confirmation, token. |
| AuthProperties.CallbackResultIsEndpointsPlusToken | lib/micropublish/auth.rb:32 | On success, the result is the discovered hash plus the key `:token`, and every endpoint value is unchanged. |
| AuthProperties.EmptyTokenIsAccepted | lib/micropublish/auth.rb:27-32 | An empty `access_token` is not nil, so the callback succeeds with it. |
| AuthProperties.NilAuthorizationEndpointIsPosted | lib/micropublish/auth.rb:42-66 | A header that names no authorization endpoint, on a page whose links name none either, leads to the code being posted to a nil authorization endpoint. |
| AuthProperties.ScenarioHeaderDiscoverySucceeds | lib/micropublish/auth.rb:5-33 | Endpoints from the header, a confirming reply and a token reply give the three endpoints plus the token. |
| AuthProperties.ScenarioIdentityMismatchNeverExchanges | lib/micropublish/auth.rb:83-90 | A confirmation naming another identity gives nil after two requests, neither of which is a token request. |
| AuthProperties.ScenarioNoTokenIssued | lib/micropublish/auth.rb:106-112 | A 2xx token reply without `access_token` gives nil. |
| AuthProperties.ScenarioNotFoundDiscoversNothing | lib/micropublish/auth.rb:38 | A 404 on the identity URL discovers nothing, whatever the page carries. |

## Left out

- HTTP is not modelled (`HTTParty.get` and `HTTParty.post`, redirects, timeouts). Each reply is an input value, and an exception from the client is `TransportError`. What the client does with a nil endpoint URL is not modelled. The model only records that the request was issued with a nil URL.
- The parsers are abstract inputs:
  - `LinkHeader.parse` gives a sequence of rel/href pairs. `find_link` is modelled as the first link whose rel is exactly the given string.
  - `Nokogiri::HTML(...).css('link')` gives the `<link>` elements in document order.
  - `URI.parse` gives the class of the URI, or a parse error.
  - `CGI.parse` gives a map from field to its list of values.
- `parsed_response` (content-type dependent decoding of the reply body) is not modelled. The form map is given directly.
- The `puts` diagnostics are not modelled. Each one becomes a `Failure` tag that explains why the result is nil.
- `generate_state` draws a random seed and is not modelled.
- `Downcase` folds ASCII letters only. Ruby's `String#downcase` also folds non-ASCII letters, for example KELVIN SIGN to `k`, so such rels would match in Ruby and do not in the model.
- `state`, `redirect_uri` and `client_id` are opaque strings that are only copied into the POST forms.
- Callers that pass a non-string `code` are not modelled. `code` is nil or a string.
