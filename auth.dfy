/** The relying-party side of an IndieAuth callback (`Micropublish::Auth`):
    discover the identity's endpoints, confirm the authorization code at the
    authorization endpoint, exchange it for a token at the token endpoint.
    Every HTTP reply and every parser result is an input value here. */
module Auth {
  import opened Wrappers

  // ---------------------------------------------------------------------
  // Data model
  // ---------------------------------------------------------------------

  /** The symbol keys of the hash that endpoint discovery builds and the callback returns. */
  datatype Key = MicropubEndpoint | TokenEndpoint | AuthorizationEndpoint | Token

  /** The three endpoint keys: every key but `:token`. */
  type EndpointKey = k: Key | !k.Token? witness MicropubEndpoint

  /** The endpoint keys in the order the completeness check visits them. */
  const EndpointOrder: seq<EndpointKey> := [MicropubEndpoint, TokenEndpoint, AuthorizationEndpoint]

  /** A Ruby hash from symbol to string-or-nil: a key may be absent, or present with a nil value. */
  type Endpoints = map<Key, Option<string>>

  /** The link relation that declares an endpoint. */
  function Rel(k: EndpointKey): string
  {
    if k == MicropubEndpoint then "micropub"
    else if k == TokenEndpoint then "token_endpoint"
    else "authorization_endpoint"
  }

  /** One link of a parsed `Link` header: its `rel` value and its target. */
  datatype HeaderLink = HeaderLink(rel: string, href: string)

  /** One `<link>` element of the document; either attribute may be missing (nil). */
  datatype HtmlLink = HtmlLink(rel: Option<string>, href: Option<string>)

  /** The reply to the discovery GET: its status, the parsed `Link` header when the
      reply carries one, and the document's `<link>` elements in document order. */
  datatype Page = Page(status: int, linkHeader: Option<seq<HeaderLink>>, links: seq<HtmlLink>)

  /** The reply to a form POST: its status and its form-decoded body
      (field name to the list of values, as `CGI.parse` returns it). */
  datatype FormReply = FormReply(status: int, form: map<string, seq<string>>)

  /** What the HTTP client gives back for one request: a reply, or an exception it raises. */
  datatype Transport<+R> = Delivered(reply: R) | TransportError

  /** The replies that the three requests of one callback receive, if they are made. */
  datatype Network = Network(discovery: Transport<Page>, authorization: Transport<FormReply>, token: Transport<FormReply>)

  /** The class of the object `URI.parse` returns, or the parse error it raises. */
  datatype UriKind = HttpUri | HttpsUri | OtherUri
  datatype UriParse = InvalidUri | ParsedUri(kind: UriKind)

  /** Why a callback gave up; each is one diagnostic the source prints. */
  datatype Failure =
    | InvalidMe
    | BlankCode
    | BadDiscoveryStatus
    | MissingEndpoint(key: EndpointKey)
    | NotConfirmed
    | NoToken

  /** The result of endpoint discovery: the hash, nil (with the reason), or an
      exception from calling a method on a missing `<link>` attribute. */
  datatype Discovery = Discovered(endpoints: Endpoints) | Undiscovered(failure: Failure) | DiscoveryRaised

  /** The result of the callback: the hash, nil (with the reason), or an exception. */
  datatype Outcome = Completed(result: Endpoints) | Aborted(failure: Failure) | Raised

  /** An HTTP request the callback issues. */
  datatype Request =
    | GetIdentity(identity: string)
    | PostAuthorization(url: Option<string>, body: map<string, string>)
    | PostToken(url: Option<string>, body: map<string, string>)

  /** A callback's outcome together with the requests it issued, in order. */
  datatype Run = Run(outcome: Outcome, calls: seq<Request>)

  /** `(200...300).include?(status)`: the range excludes 300. */
  predicate Is2xx(status: int)
  {
    200 <= status < 300
  }

  // ---------------------------------------------------------------------
  // Identity check: valid_uri?
  // ---------------------------------------------------------------------

  /** `me` is acceptable exactly when it parses to a URI of the HTTP or HTTPS
      class; a parse error is a false answer, never an exception. */
  function ValidUri(parsed: UriParse): (ok: bool)
    ensures ok <==> parsed.ParsedUri? && parsed.kind != OtherUri
    ensures parsed.InvalidUri? ==> !ok
  {
    match parsed
    case InvalidUri => false
    case ParsedUri(kind) => kind == HttpUri || kind == HttpsUri
  }

  // ---------------------------------------------------------------------
  // Endpoint discovery: find_endpoints
  // ---------------------------------------------------------------------

  /** `find_link(['rel', rel]).try(:href)`: the target of the first header link
      whose rel is exactly `rel`, or nil when there is none. */
  function FindLink(links: seq<HeaderLink>, rel: string): Option<string>
  {
    if links == [] then None
    else if links[0].rel == rel then Some(links[0].href)
    else FindLink(links[1..], rel)
  }

  /** The header lookup answers nil exactly when no link has that rel, and
      otherwise the target of the first one that has it. */
  lemma {:induction false} FindLinkIsFirstMatch(links: seq<HeaderLink>, rel: string)
    ensures FindLink(links, rel).None? <==> forall i :: 0 <= i < |links| ==> links[i].rel != rel
    ensures FindLink(links, rel).Some? ==>
      exists i :: 0 <= i < |links| && links[i].rel == rel && links[i].href == FindLink(links, rel).value &&
        forall j :: 0 <= j < i ==> links[j].rel != rel
  {
    if links != [] && links[0].rel != rel {
      FindLinkIsFirstMatch(links[1..], rel);
      assert forall i :: 1 <= i < |links| ==> links[i] == links[1..][i - 1];
      if FindLink(links, rel).Some? {
        var i :| 0 <= i < |links[1..]| && links[1..][i].rel == rel && links[1..][i].href == FindLink(links, rel).value &&
          forall j :: 0 <= j < i ==> links[1..][j].rel != rel;
        assert links[i + 1] == links[1..][i];
      }
    }
  }

  /** ASCII lower case. */
  function Lower(c: char): char
  {
    if 'A' <= c <= 'Z' then (c as int + 32) as char else c
  }

  /** `String#downcase`, on the ASCII letters. */
  function Downcase(s: string): string
  {
    seq(|s|, i requires 0 <= i < |s| => Lower(s[i]))
  }

  /** The `elsif` chain's test on the downcased rel: which endpoint, if any, it names. */
  function SlotNamed(rel: string): (slot: Option<EndpointKey>)
    ensures forall k: EndpointKey :: slot == Some(k) <==> rel == Rel(k)
  {
    if rel == "micropub" then Some(MicropubEndpoint)
    else if rel == "token_endpoint" then Some(TokenEndpoint)
    else if rel == "authorization_endpoint" then Some(AuthorizationEndpoint)
    else None
  }

  /** The link's rel, downcased as a whole, is exactly the rel of `k`. */
  predicate Names(link: HtmlLink, k: EndpointKey)
  {
    link.rel.Some? && Downcase(link.rel.value) == Rel(k)
  }

  /** The link would fill `k` if `k` were unset: it names `k` and has a non-empty href. */
  predicate Fills(link: HtmlLink, k: EndpointKey)
  {
    Names(link, k) && link.href.Some? && link.href.value != ""
  }

  /** Testing the link raises NoMethodError on nil: it has no rel, or its rel
      names an endpoint and it has no href (`empty?` is only reached then). */
  predicate RaisesOnNil(link: HtmlLink)
  {
    link.rel.None? || (link.href.None? && SlotNamed(Downcase(link.rel.value)).Some?)
  }

  /** The href of the first of `links[..n]`, in document order, that fills `k`,
      or nil: an earlier filling link is never displaced by a later one. */
  function FirstHref(links: seq<HtmlLink>, n: nat, k: EndpointKey): Option<string>
    requires n <= |links|
  {
    if n == 0 then None
    else
      var earlier := FirstHref(links, n - 1, k);
      if earlier.Some? then earlier
      else if Fills(links[n - 1], k) then links[n - 1].href
      else None
  }

  /** Among the first `n` HTML links, the first one in document order that names
      `k` with a non-empty href is the one that fills it; with none, nothing does. */
  lemma {:induction false} FirstHrefIsFirstFilling(links: seq<HtmlLink>, n: nat, k: EndpointKey)
    requires n <= |links|
    ensures FirstHref(links, n, k).None? <==> forall i :: 0 <= i < n ==> !Fills(links[i], k)
    ensures FirstHref(links, n, k).Some? ==>
      exists i :: 0 <= i < n && Fills(links[i], k) && links[i].href == FirstHref(links, n, k) &&
        forall j :: 0 <= j < i ==> !Fills(links[j], k)
  {
    if n > 0 {
      FirstHrefIsFirstFilling(links, n - 1, k);
    }
  }

  /** The value endpoint `k` holds after the header step and the first `n` links:
      the header's link when that is non-nil, otherwise the first filling link. */
  function SlotValue(header: Option<seq<HeaderLink>>, links: seq<HtmlLink>, n: nat, k: EndpointKey): Option<string>
    requires n <= |links|
  {
    var fromHeader := if header.Some? then FindLink(header.value, Rel(k)) else None;
    if fromHeader.Some? then fromHeader else FirstHref(links, n, k)
  }

  /** Reference definition of the hash after the header step and the first `n`
      links, slot by slot. With a `Link` header every endpoint key is present,
      possibly nil; without one a key is present only once a link filled it. */
  function Merge(header: Option<seq<HeaderLink>>, links: seq<HtmlLink>, n: nat): Endpoints
    requires n <= |links|
  {
    map k: Key | !k.Token? && (header.Some? || FirstHref(links, n, k).Some?) :: SlotValue(header, links, n, k)
  }

  /** The first of `keys` that `m` lacks, or nil when it has them all. */
  function FirstAbsent(m: Endpoints, keys: seq<EndpointKey>): (missing: Option<EndpointKey>)
    ensures missing.None? <==> forall i :: 0 <= i < |keys| ==> keys[i] in m
    ensures missing.Some? ==>
      exists i :: 0 <= i < |keys| && keys[i] == missing.value && keys[i] !in m &&
        forall j :: 0 <= j < i ==> keys[j] in m
  {
    if keys == [] then None
    else if keys[0] !in m then Some(keys[0])
    else
      var rest := FirstAbsent(m, keys[1..]);
      assert forall i :: 1 <= i < |keys| ==> keys[i] == keys[1..][i - 1];
      rest
  }

  /** Reference definition of endpoint discovery on the identity page. */
  function Discover(page: Page): (d: Discovery)
    ensures !Is2xx(page.status) ==> d == Undiscovered(BadDiscoveryStatus)
    ensures d.Discovered? ==> d.endpoints.Keys == {MicropubEndpoint, TokenEndpoint, AuthorizationEndpoint}
  {
    if !Is2xx(page.status) then Undiscovered(BadDiscoveryStatus)
    else if exists i :: 0 <= i < |page.links| && RaisesOnNil(page.links[i]) then DiscoveryRaised
    else
      var endpoints := Merge(page.linkHeader, page.links, |page.links|);
      var missing := FirstAbsent(endpoints, EndpointOrder);
      if missing.Some? then Undiscovered(MissingEndpoint(missing.value))
      else
        assert EndpointOrder[0] in endpoints && EndpointOrder[1] in endpoints && EndpointOrder[2] in endpoints;
        Discovered(endpoints)
  }

  /** `find_endpoints`: nothing but nil on a non-2xx status; otherwise the header
      step, the `<link>` loop and the completeness loop, in that order. */
  method FindEndpoints(page: Page) returns (d: Discovery)
    ensures d == Discover(page)
  {
    if !(200 <= page.status < 300) {
      return Undiscovered(BadDiscoveryStatus);
    }
    var endpoints := HeaderEndpoints(page.linkHeader);
    var merged := AddDocumentLinks(page.linkHeader, page.links, endpoints);
    if merged.None? {
      return DiscoveryRaised;
    }
    var missing := FirstMissingKey(merged.value);
    if missing.Some? {
      return Undiscovered(MissingEndpoint(missing.value));
    }
    return Discovered(merged.value);
  }

  /** The `Link` header step of `find_endpoints`: with a header, all three keys are
      written, each to the first header link with that rel or to nil; without one
      the hash stays empty. */
  method HeaderEndpoints(header: Option<seq<HeaderLink>>) returns (endpoints: Endpoints)
    ensures endpoints == Merge(header, [], 0)
    ensures header.Some? <==> endpoints.Keys == {MicropubEndpoint, TokenEndpoint, AuthorizationEndpoint}
    ensures header.None? <==> endpoints == map[]
  {
    endpoints := map[];
    if header.Some? {
      var links := header.value;
      endpoints := endpoints[MicropubEndpoint := FindLink(links, "micropub")];
      endpoints := endpoints[TokenEndpoint := FindLink(links, "token_endpoint")];
      endpoints := endpoints[AuthorizationEndpoint := FindLink(links, "authorization_endpoint")];
    }
    MergeWithoutLinks(header);
  }

  /** The `<link>` loop of `find_endpoints`: each link whose downcased rel names an
      endpoint and whose href is non-empty fills that endpoint with `||=`. Nil when
      testing some link raises on a missing attribute. */
  method AddDocumentLinks(header: Option<seq<HeaderLink>>, links: seq<HtmlLink>, start: Endpoints)
    returns (merged: Option<Endpoints>)
    requires start == Merge(header, [], 0)
    ensures merged.Some? <==> forall i :: 0 <= i < |links| ==> !RaisesOnNil(links[i])
    ensures merged.Some? ==> merged.value == Merge(header, links, |links|)
  {
    var endpoints := start;
    InStepAtStart(header, links);
    var i := 0;
    while i < |links|
      invariant 0 <= i <= |links|
      invariant forall j :: 0 <= j < i ==> !RaisesOnNil(links[j])
      invariant InStep(endpoints, header, links, i)
    {
      var raised;
      raised, endpoints := AbsorbLink(endpoints, header, links, i);
      if raised {
        return None;
      }
      i := i + 1;
    }
    InStepIsMerge(endpoints, header, links, i);
    return Some(endpoints);
  }

  /** One pass of the `elsif` chain over the link at `n`: fill the endpoint its
      downcased rel names with `||=` when its href is non-empty. Raises (reports
      `raised`) exactly when a tested attribute is nil; otherwise the hash stays
      in step with the reference merge, now over one more link. */
  method AbsorbLink(endpoints: Endpoints, ghost header: Option<seq<HeaderLink>>, links: seq<HtmlLink>, n: nat)
    returns (raised: bool, next: Endpoints)
    requires n < |links| && InStep(endpoints, header, links, n)
    ensures raised <==> RaisesOnNil(links[n])
    ensures !raised ==> next == LinkStep(endpoints, links[n]) && InStep(next, header, links, n + 1)
  {
    var link := links[n];
    if link.rel.None? {
      return true, endpoints;
    }
    next := endpoints;
    var slot := SlotNamed(Downcase(link.rel.value));
    if slot.Some? {
      var key := slot.value;
      if link.href.None? {
        return true, endpoints;
      }
      if link.href.value != "" && (key !in next || next[key].None?) {
        next := next[key := link.href];
      }
    }
    MergeStep(endpoints, header, links, n);
    return false, next;
  }

  /** The completeness loop of `find_endpoints`: the first endpoint key, in the
      order micropub, token, authorization, that the hash lacks (a key that is
      present with a nil value counts as found). */
  method FirstMissingKey(endpoints: Endpoints) returns (missing: Option<EndpointKey>)
    ensures missing == FirstAbsent(endpoints, EndpointOrder)
  {
    var n := 0;
    while n < |EndpointOrder|
      invariant 0 <= n <= |EndpointOrder|
      invariant FirstAbsent(endpoints, EndpointOrder) == FirstAbsent(endpoints, EndpointOrder[n..])
    {
      var key := EndpointOrder[n];
      if key !in endpoints {
        return Some(key);
      }
      assert EndpointOrder[n..][1..] == EndpointOrder[n + 1..];
      n := n + 1;
    }
    return None;
  }

  /** Before any HTML link is read, the hash holds exactly the header's values. */
  lemma MergeWithoutLinks(header: Option<seq<HeaderLink>>)
    ensures header.None? ==> Merge(header, [], 0) == map[]
    ensures header.Some? ==>
      Merge(header, [], 0) ==
        map[MicropubEndpoint := FindLink(header.value, "micropub"),
            TokenEndpoint := FindLink(header.value, "token_endpoint"),
            AuthorizationEndpoint := FindLink(header.value, "authorization_endpoint")]
  {
  }

  /** A link fills at most one endpoint: the downcased rel equals one relation at most. */
  lemma FillsAtMostOneSlot(link: HtmlLink, k1: EndpointKey, k2: EndpointKey)
    requires Fills(link, k1) && Fills(link, k2)
    ensures k1 == k2
  {
  }

  /** `m` agrees with the reference merge after `n` links, key by key. */
  ghost predicate InStep(m: Endpoints, header: Option<seq<HeaderLink>>, links: seq<HtmlLink>, n: nat)
    requires n <= |links|
  {
    && Token !in m
    && forall k: EndpointKey ::
         && (k in m <==> header.Some? || FirstHref(links, n, k).Some?)
         && (k in m ==> m[k] == SlotValue(header, links, n, k))
  }

  /** Before any link is read, the header step's hash agrees with the reference merge. */
  lemma InStepAtStart(header: Option<seq<HeaderLink>>, links: seq<HtmlLink>)
    ensures InStep(Merge(header, [], 0), header, links, 0)
  {
  }

  /** Agreeing key by key is being the reference merge. */
  lemma InStepIsMerge(m: Endpoints, header: Option<seq<HeaderLink>>, links: seq<HtmlLink>, n: nat)
    requires n <= |links| && InStep(m, header, links, n)
    ensures m == Merge(header, links, n)
  {
    var r := Merge(header, links, n);
    assert m.Keys == r.Keys;
  }

  /** The update one pass of the `elsif` chain makes to `m` for the link at `n`:
      the endpoint the downcased rel names, if any, is filled with `||=` when the
      href is non-empty. */
  function LinkStep(m: Endpoints, link: HtmlLink): Endpoints
    requires !RaisesOnNil(link)
  {
    var slot := SlotNamed(Downcase(link.rel.value));
    if slot.Some? && link.href.value != "" && (slot.value !in m || m[slot.value].None?)
    then m[slot.value := link.href] else m
  }

  /** The `elsif` chain fills exactly the endpoint the downcased rel names, and
      only when the href is non-empty. */
  lemma FillsIffNamedSlot(link: HtmlLink, k: EndpointKey)
    requires !RaisesOnNil(link)
    ensures Fills(link, k) <==> SlotNamed(Downcase(link.rel.value)) == Some(k) && link.href.value != ""
  {
  }

  /** One key of the hash after one more link agrees with the reference merge. */
  lemma LinkStepAtKey(m: Endpoints, header: Option<seq<HeaderLink>>, links: seq<HtmlLink>, n: nat, k: EndpointKey)
    requires n < |links| && !RaisesOnNil(links[n]) && InStep(m, header, links, n)
    ensures var next := LinkStep(m, links[n]);
      && (k in next <==> header.Some? || FirstHref(links, n + 1, k).Some?)
      && (k in next ==> next[k] == SlotValue(header, links, n + 1, k))
  {
    var link, next := links[n], LinkStep(m, links[n]);
    FillsIffNamedSlot(link, k);
    if Fills(link, k) {
      assert FirstHref(links, n + 1, k) == if FirstHref(links, n, k).Some? then FirstHref(links, n, k) else link.href;
    } else {
      assert FirstHref(links, n + 1, k) == FirstHref(links, n, k);
      assert k in next <==> k in m;
      assert k in next ==> next[k] == m[k];
    }
  }

  /** One pass of the `elsif` chain over a link that does not raise keeps the hash
      in step with the reference merge, now over one more link. */
  lemma MergeStep(m: Endpoints, header: Option<seq<HeaderLink>>, links: seq<HtmlLink>, n: nat)
    requires n < |links| && !RaisesOnNil(links[n]) && InStep(m, header, links, n)
    ensures InStep(LinkStep(m, links[n]), header, links, n + 1)
  {
    forall k: EndpointKey
      ensures var next := LinkStep(m, links[n]);
        && (k in next <==> header.Some? || FirstHref(links, n + 1, k).Some?)
        && (k in next ==> next[k] == SlotValue(header, links, n + 1, k))
    {
      LinkStepAtKey(m, header, links, n, k);
    }
  }

  // ---------------------------------------------------------------------
  // Code confirmation and token exchange: confirm_auth?, get_token
  // ---------------------------------------------------------------------

  /** The form `confirm_auth?` posts to the authorization endpoint. */
  function AuthorizationForm(code: string, state: string, redirectUri: string, clientId: string): map<string, string>
  {
    map["code" := code, "client_id" := clientId, "state" := state, "scope" := "post", "redirect_uri" := redirectUri]
  }

  /** The form `get_token` posts to the token endpoint. */
  function TokenForm(me: string, code: string, state: string, redirectUri: string, clientId: string): map<string, string>
  {
    map["me" := me, "code" := code, "redirect_uri" := redirectUri, "client_id" := clientId, "state" := state, "scope" := "post"]
  }

  /** `CGI.parse(...)[field].first`: the first value of a form field; a field
      that is not there reads as an empty list, whose first value is nil. */
  function FirstValue(form: map<string, seq<string>>, field: string): (value: Option<string>)
    ensures value.Some? <==> field in form && form[field] != []
    ensures value.Some? ==> value.value == form[field][0]
  {
    var values := if field in form then form[field] else [];
    if values == [] then None else Some(values[0])
  }

  /** `confirm_auth?`: the code is confirmed exactly when the reply is 2xx and
      the first `me` value it carries is the identity, character for character. */
  function ConfirmAuth(me: string, reply: FormReply): (confirmed: bool)
    ensures confirmed <==>
      Is2xx(reply.status) && "me" in reply.form && reply.form["me"] != [] && reply.form["me"][0] == me
  {
    Is2xx(reply.status) && FirstValue(reply.form, "me") == Some(me)
  }

  /** `get_token`: the first `access_token` value of a 2xx reply; nil when the
      status is not 2xx or the field is missing. An empty string is a token. */
  function GetToken(reply: FormReply): (token: Option<string>)
    ensures token.Some? <==>
      Is2xx(reply.status) && "access_token" in reply.form && reply.form["access_token"] != []
    ensures token.Some? ==> token.value == reply.form["access_token"][0]
  {
    if Is2xx(reply.status) then FirstValue(reply.form, "access_token") else None
  }

  // ---------------------------------------------------------------------
  // The callback
  // ---------------------------------------------------------------------

  /** `callback(me, code, state, redirect_uri, client_id)`: check `me`, then the
      code, then discover, confirm and exchange, giving up at the first step that
      fails. `meUri` is what `URI.parse(me)` gives; `net` holds the replies.
      The run records the outcome and the requests issued: none when a
      parameter check fails, at most the three of the protocol, and all three
      when a hash of the three endpoints and a non-nil token comes back. */
  function Callback(me: string, meUri: UriParse, code: Option<string>, state: string, redirectUri: string,
                    clientId: string, net: Network): (run: Run)
    ensures |run.calls| <= 3
    ensures run.calls == [] <==> !ValidUri(meUri) || code.None? || code.value == ""
    ensures run.outcome.Completed? ==>
      && |run.calls| == 3 && run.calls[2].PostToken?
      && run.outcome.result.Keys == {MicropubEndpoint, TokenEndpoint, AuthorizationEndpoint, Token}
      && run.outcome.result[Token].Some?
  {
    if !ValidUri(meUri) then Run(Aborted(InvalidMe), [])
    else if code.None? || code.value == "" then Run(Aborted(BlankCode), [])
    else
      var discovery := [GetIdentity(me)];
      match net.discovery
      case TransportError => Run(Raised, discovery)
      case Delivered(page) =>
        match Discover(page)
        case DiscoveryRaised => Run(Raised, discovery)
        case Undiscovered(failure) => Run(Aborted(failure), discovery)
        case Discovered(endpoints) =>
          var confirmation := discovery +
            [PostAuthorization(endpoints[AuthorizationEndpoint], AuthorizationForm(code.value, state, redirectUri, clientId))];
          match net.authorization
          case TransportError => Run(Raised, confirmation)
          case Delivered(authReply) =>
            if !ConfirmAuth(me, authReply) then Run(Aborted(NotConfirmed), confirmation)
            else
              var exchange := confirmation +
                [PostToken(endpoints[TokenEndpoint], TokenForm(me, code.value, state, redirectUri, clientId))];
              match net.token
              case TransportError => Run(Raised, exchange)
              case Delivered(tokenReply) =>
                match GetToken(tokenReply)
                case None => Run(Aborted(NoToken), exchange)
                case Some(token) => Run(Completed(endpoints[Token := Some(token)]), exchange)
  }
}
