/** What the callback and endpoint discovery promise, proved over the model in `Auth`. */
module AuthProperties {
  import opened Wrappers
  import opened Auth

  /** The page's `<link>` elements are all tested without raising. */
  predicate NoneRaises(page: Page)
  {
    forall i :: 0 <= i < |page.links| ==> !RaisesOnNil(page.links[i])
  }

  /** Some `<link>` of the page names `k` with a non-empty href. */
  predicate Filled(page: Page, k: EndpointKey)
  {
    exists i :: 0 <= i < |page.links| && Fills(page.links[i], k)
  }

  /** The page with its `<link>` at `i` removed. */
  function WithoutLink(page: Page, i: nat): Page
    requires i < |page.links|
  {
    page.(links := page.links[..i] + page.links[i + 1..])
  }

  // ---------------------------------------------------------------------
  // Endpoint discovery
  // ---------------------------------------------------------------------

  /** A non-nil header value for an endpoint is what discovery returns for it,
      whatever the document's links say. */
  lemma HeaderValueWins(page: Page, k: EndpointKey)
    requires Is2xx(page.status) && NoneRaises(page)
    requires page.linkHeader.Some? && FindLink(page.linkHeader.value, Rel(k)).Some?
    ensures Discover(page).Discovered?
    ensures Discover(page).endpoints[k] == FindLink(page.linkHeader.value, Rel(k))
  {
    HeaderMakesEveryKeyPresent(page);
  }

  /** When the header gives nothing for `k`, the first link in document order
      that names `k` with a non-empty href supplies it; later ones do not. */
  lemma FirstFillingLinkWins(page: Page, k: EndpointKey, i: nat)
    requires page.linkHeader.None? || FindLink(page.linkHeader.value, Rel(k)).None?
    requires i < |page.links| && Fills(page.links[i], k)
    requires forall j :: 0 <= j < i ==> !Fills(page.links[j], k)
    ensures var m := Merge(page.linkHeader, page.links, |page.links|);
      k in m && m[k] == page.links[i].href
    ensures Discover(page).Discovered? ==> Discover(page).endpoints[k] == page.links[i].href
  {
    var n := |page.links|;
    FirstHrefIsFirstFilling(page.links, n, k);
    var i' :| 0 <= i' < n && Fills(page.links[i'], k) && page.links[i'].href == FirstHref(page.links, n, k) &&
      forall j :: 0 <= j < i' ==> !Fills(page.links[j], k);
    assert i' == i;
  }

  /** With a `Link` header every endpoint key is written, possibly to nil, so the
      key-presence check passes even when no endpoint was found at all. */
  lemma HeaderMakesEveryKeyPresent(page: Page)
    requires Is2xx(page.status) && NoneRaises(page) && page.linkHeader.Some?
    ensures Discover(page).Discovered?
  {
    var m := Merge(page.linkHeader, page.links, |page.links|);
    assert EndpointOrder[0] in m && EndpointOrder[1] in m && EndpointOrder[2] in m;
  }

  /** The smallest witness: a `Link` header naming none of the endpoints and a
      document without links still discover a hash, of three nils. */
  lemma EmptyLinkHeaderStillDiscovers()
    ensures Discover(Page(200, Some([]), [])) ==
      Discovered(map[MicropubEndpoint := None, TokenEndpoint := None, AuthorizationEndpoint := None])
  {
    var m := Merge(Some([]), [], 0);
    assert m.Keys == {MicropubEndpoint, TokenEndpoint, AuthorizationEndpoint};
  }

  /** Without a `Link` header discovery succeeds exactly when, for every endpoint,
      some link names it with a non-empty href; otherwise it reports the first
      endpoint (micropub, token, authorization) that no link fills. */
  lemma CompletenessWithoutHeader(page: Page)
    requires Is2xx(page.status) && NoneRaises(page) && page.linkHeader.None?
    ensures Discover(page).Discovered? <==> forall k: EndpointKey :: Filled(page, k)
    ensures Discover(page).Undiscovered? ==>
      Discover(page).failure.MissingEndpoint? && !Filled(page, Discover(page).failure.key)
  {
    var n := |page.links|;
    forall k: EndpointKey
      ensures k in Merge(page.linkHeader, page.links, n) <==> Filled(page, k)
    {
      FirstHrefIsFirstFilling(page.links, n, k);
    }
    var m := Merge(page.linkHeader, page.links, n);
    if forall k: EndpointKey :: Filled(page, k) {
      assert EndpointOrder[0] in m && EndpointOrder[1] in m && EndpointOrder[2] in m;
    }
  }

  /** The tested rel is the whole attribute downcased, so a space-separated list
      of relations never names an endpoint, even when it lists one. */
  lemma RelListNeverMatches(link: HtmlLink, k: EndpointKey)
    requires link.rel.Some? && ' ' in link.rel.value
    ensures !Names(link, k) && !Fills(link, k) && !RaisesOnNil(link)
  {
    var rel := link.rel.value;
    var i :| 0 <= i < |rel| && rel[i] == ' ';
    assert Downcase(rel)[i] == ' ';
    forall k2: EndpointKey
      ensures Downcase(rel) != Rel(k2)
    {
      RelHasNoSpace(k2);
    }
  }

  /** None of the three relations contains a space. */
  lemma RelHasNoSpace(k: EndpointKey)
    ensures forall j :: 0 <= j < |Rel(k)| ==> Rel(k)[j] != ' '
  {
    if k == MicropubEndpoint {
      assert Rel(k) == "micropub";
    } else if k == TokenEndpoint {
      assert Rel(k) == "token_endpoint";
    } else {
      assert Rel(k) == "authorization_endpoint";
    }
  }

  /** ASCII upper case. */
  function Upper(c: char): char
  {
    if 'a' <= c <= 'z' then (c as int - 32) as char else c
  }

  /** The three relations are spelt in lower-case ASCII letters and underscores. */
  lemma RelIsLowerAscii(k: EndpointKey)
    ensures forall j :: 0 <= j < |Rel(k)| ==> 'a' <= Rel(k)[j] <= 'z' || Rel(k)[j] == '_'
  {
    if k == MicropubEndpoint {
      assert Rel(k) == "micropub";
    } else if k == TokenEndpoint {
      assert Rel(k) == "token_endpoint";
    } else {
      assert Rel(k) == "authorization_endpoint";
    }
  }

  /** The rel comparison ignores ASCII case: a rel names `k` exactly when it
      spells `k`'s relation with any mix of upper- and lower-case letters. */
  lemma RelMatchIgnoresCase(s: string, href: Option<string>, k: EndpointKey)
    ensures Names(HtmlLink(Some(s), href), k) <==>
      |s| == |Rel(k)| && forall i :: 0 <= i < |s| ==> s[i] == Rel(k)[i] || s[i] == Upper(Rel(k)[i])
  {
    var r := Rel(k);
    RelIsLowerAscii(k);
    if |s| == |r| {
      forall i | 0 <= i < |s|
        ensures Downcase(s)[i] == r[i] <==> s[i] == r[i] || s[i] == Upper(r[i])
      {
      }
      if forall i :: 0 <= i < |s| ==> s[i] == r[i] || s[i] == Upper(r[i]) {
        assert Downcase(s) == r;
      }
    }
  }

  /** Removing a link that fills nothing changes no endpoint's first filling link. */
  lemma {:induction false} FirstHrefSkipsInertLink(links: seq<HtmlLink>, i: nat, n: nat, k: EndpointKey)
    requires i < |links| && !Fills(links[i], k) && n <= |links|
    ensures var rest := links[..i] + links[i + 1..];
      if n <= i then FirstHref(links, n, k) == FirstHref(rest, n, k)
      else FirstHref(links, n, k) == FirstHref(rest, n - 1, k)
  {
    var rest := links[..i] + links[i + 1..];
    if n > 0 {
      FirstHrefSkipsInertLink(links, i, n - 1, k);
      if n - 1 < i {
        assert rest[n - 1] == links[n - 1];
      } else if n - 1 > i {
        assert rest[n - 2] == links[n - 1];
      }
    }
  }

  /** A link that does not raise and fills no endpoint is ignored: it may be
      removed from the document without changing the outcome of discovery. */
  lemma InertLinkIgnored(page: Page, i: nat)
    requires i < |page.links| && !RaisesOnNil(page.links[i])
    requires forall k: EndpointKey :: !Fills(page.links[i], k)
    ensures Discover(page) == Discover(WithoutLink(page, i))
  {
    var links, rest := page.links, WithoutLink(page, i).links;
    var n := |links|;
    assert |rest| == n - 1;
    forall k: EndpointKey
      ensures FirstHref(links, n, k) == FirstHref(rest, n - 1, k)
    {
      FirstHrefSkipsInertLink(links, i, n, k);
    }
    var m, m' := Merge(page.linkHeader, links, n), Merge(page.linkHeader, rest, n - 1);
    assert m.Keys == m'.Keys;
    assert m == m';
    assert (exists j :: 0 <= j < n && RaisesOnNil(links[j])) <==>
           (exists j :: 0 <= j < n - 1 && RaisesOnNil(rest[j])) by {
      forall j | 0 <= j < n - 1
        ensures rest[j] == if j < i then links[j] else links[j + 1]
      {
      }
      if j :| 0 <= j < n && RaisesOnNil(links[j]) {
        assert j != i;
        if j < i {
          assert RaisesOnNil(rest[j]);
        } else {
          assert RaisesOnNil(rest[j - 1]);
        }
      }
    }
  }

  /** A link with a rel but an empty href is ignored by discovery. */
  lemma EmptyHrefIgnored(page: Page, i: nat)
    requires i < |page.links| && page.links[i].rel.Some? && page.links[i].href == Some("")
    ensures Discover(page) == Discover(WithoutLink(page, i))
  {
    InertLinkIgnored(page, i);
  }

  /** A link whose rel is a space-separated list is ignored by discovery. */
  lemma RelListIgnored(page: Page, i: nat)
    requires i < |page.links| && page.links[i].rel.Some? && ' ' in page.links[i].rel.value
    ensures Discover(page) == Discover(WithoutLink(page, i))
  {
    forall k: EndpointKey
      ensures !Fills(page.links[i], k) && !RaisesOnNil(page.links[i])
    {
      RelListNeverMatches(page.links[i], k);
    }
    InertLinkIgnored(page, i);
  }

  // ---------------------------------------------------------------------
  // The callback
  // ---------------------------------------------------------------------

  /** An identity that is not an HTTP(S) URI ends the callback before anything
      else, whatever the code: no request is made. */
  lemma InvalidMeChecksFirst(me: string, meUri: UriParse, code: Option<string>, state: string,
                             redirectUri: string, clientId: string, net: Network)
    requires !ValidUri(meUri)
    ensures Callback(me, meUri, code, state, redirectUri, clientId, net) == Run(Aborted(InvalidMe), [])
  {
  }

  /** A nil or empty code ends the callback before the discovery request. */
  lemma BlankCodeStopsBeforeDiscovery(me: string, meUri: UriParse, code: Option<string>, state: string,
                                      redirectUri: string, clientId: string, net: Network)
    requires ValidUri(meUri) && (code.None? || code.value == "")
    ensures Callback(me, meUri, code, state, redirectUri, clientId, net) == Run(Aborted(BlankCode), [])
  {
  }

  /** The requests always follow the protocol's order, each only after the step
      before it succeeded: the identity GET, then the authorization POST to the
      discovered authorization endpoint, then the token POST to the discovered
      token endpoint, and only once the code was confirmed. Both POSTs ask for
      the scope `post`. */
  lemma RequestsFollowProtocol(me: string, meUri: UriParse, code: Option<string>, state: string,
                               redirectUri: string, clientId: string, net: Network)
    ensures var calls := Callback(me, meUri, code, state, redirectUri, clientId, net).calls;
      && |calls| <= 3
      && (|calls| >= 1 ==> ValidUri(meUri) && code.Some? && code.value != "" && calls[0] == GetIdentity(me))
      && (|calls| >= 2 ==>
            && net.discovery.Delivered? && Discover(net.discovery.reply).Discovered?
            && calls[1] == PostAuthorization(Discover(net.discovery.reply).endpoints[AuthorizationEndpoint],
                                             AuthorizationForm(code.value, state, redirectUri, clientId))
            && calls[1].body["scope"] == "post")
      && (|calls| == 3 ==>
            && net.authorization.Delivered? && ConfirmAuth(me, net.authorization.reply)
            && calls[2] == PostToken(Discover(net.discovery.reply).endpoints[TokenEndpoint],
                                     TokenForm(me, code.value, state, redirectUri, clientId))
            && calls[2].body["scope"] == "post")
  {
  }

  /** When discovery gives nil or raises, neither confirmation nor token
      exchange is attempted. */
  lemma FailedDiscoveryStops(me: string, meUri: UriParse, code: Option<string>, state: string,
                             redirectUri: string, clientId: string, page: Page, net: Network)
    requires ValidUri(meUri) && code.Some? && code.value != ""
    requires net.discovery == Delivered(page) && !Discover(page).Discovered?
    ensures var run := Callback(me, meUri, code, state, redirectUri, clientId, net);
      run.calls == [GetIdentity(me)] && !run.outcome.Completed?
  {
  }

  /** When the authorization endpoint does not confirm the code, the token
      endpoint is never asked and the callback gives nil. */
  lemma UnconfirmedCodeGetsNoToken(me: string, meUri: UriParse, code: Option<string>, state: string,
                                   redirectUri: string, clientId: string, net: Network, authReply: FormReply)
    requires net.authorization == Delivered(authReply) && !ConfirmAuth(me, authReply)
    ensures var run := Callback(me, meUri, code, state, redirectUri, clientId, net);
      !run.outcome.Completed? && forall i :: 0 <= i < |run.calls| ==> !run.calls[i].PostToken?
  {
  }

  /** The callback returns a hash exactly when every step succeeds: `me` is an
      HTTP(S) URI, the code is not blank, discovery finds the hash, the code is
      confirmed and a token comes back. */
  lemma CallbackSucceedsIff(me: string, meUri: UriParse, code: Option<string>, state: string,
                            redirectUri: string, clientId: string, net: Network)
    ensures Callback(me, meUri, code, state, redirectUri, clientId, net).outcome.Completed? <==>
      && ValidUri(meUri) && code.Some? && code.value != ""
      && net.discovery.Delivered? && Discover(net.discovery.reply).Discovered?
      && net.authorization.Delivered? && ConfirmAuth(me, net.authorization.reply)
      && net.token.Delivered? && GetToken(net.token.reply).Some?
  {
  }

  /** On success the result is the discovered hash with one more key, `:token`,
      holding the token; every endpoint value is the discovered one. */
  lemma CallbackResultIsEndpointsPlusToken(me: string, meUri: UriParse, code: Option<string>, state: string,
                                           redirectUri: string, clientId: string, net: Network)
    requires Callback(me, meUri, code, state, redirectUri, clientId, net).outcome.Completed?
    ensures var result := Callback(me, meUri, code, state, redirectUri, clientId, net).outcome.result;
      var endpoints := Discover(net.discovery.reply).endpoints;
      && result.Keys == endpoints.Keys + {Token}
      && result.Keys == {MicropubEndpoint, TokenEndpoint, AuthorizationEndpoint, Token}
      && result[Token] == GetToken(net.token.reply)
      && forall k: EndpointKey :: result[k] == endpoints[k]
  {
    CallbackSucceedsIff(me, meUri, code, state, redirectUri, clientId, net);
  }

  /** An empty `access_token` is not nil, so the callback succeeds with it. */
  lemma EmptyTokenIsAccepted(me: string, meUri: UriParse, code: Option<string>, state: string,
                             redirectUri: string, clientId: string, net: Network, tokenReply: FormReply)
    requires ValidUri(meUri) && code.Some? && code.value != ""
    requires net.discovery.Delivered? && Discover(net.discovery.reply).Discovered?
    requires net.authorization.Delivered? && ConfirmAuth(me, net.authorization.reply)
    requires net.token == Delivered(tokenReply) && Is2xx(tokenReply.status)
    requires "access_token" in tokenReply.form && tokenReply.form["access_token"] == [""]
    ensures var outcome := Callback(me, meUri, code, state, redirectUri, clientId, net).outcome;
      outcome.Completed? && outcome.result[Token] == Some("")
  {
  }

  /** Because key presence is all that is checked, a `Link` header that names no
      authorization endpoint, on a page whose links name none either, sends the
      code to a nil authorization endpoint. */
  lemma NilAuthorizationEndpointIsPosted(me: string, meUri: UriParse, code: Option<string>, state: string,
                                         redirectUri: string, clientId: string, page: Page, net: Network)
    requires ValidUri(meUri) && code.Some? && code.value != ""
    requires net.discovery == Delivered(page) && Is2xx(page.status) && NoneRaises(page)
    requires page.linkHeader.Some? && FindLink(page.linkHeader.value, "authorization_endpoint").None?
    requires forall i :: 0 <= i < |page.links| ==> !Fills(page.links[i], AuthorizationEndpoint)
    ensures var calls := Callback(me, meUri, code, state, redirectUri, clientId, net).calls;
      |calls| >= 2 && calls[1] == PostAuthorization(None, AuthorizationForm(code.value, state, redirectUri, clientId))
  {
    HeaderMakesEveryKeyPresent(page);
    FirstHrefIsFirstFilling(page.links, |page.links|, AuthorizationEndpoint);
  }

  // ---------------------------------------------------------------------
  // End-to-end scenarios
  // ---------------------------------------------------------------------

  const Me := "https://example.com/"

  const ExampleHeader := [HeaderLink("authorization_endpoint", "https://example.com/auth"),
                          HeaderLink("token_endpoint", "https://example.com/token"),
                          HeaderLink("micropub", "https://example.com/micropub")]

  const ExamplePage := Page(200, Some(ExampleHeader), [])

  const ExampleEndpoints: Endpoints := map[AuthorizationEndpoint := Some("https://example.com/auth"),
                                           TokenEndpoint := Some("https://example.com/token"),
                                           MicropubEndpoint := Some("https://example.com/micropub")]

  /** Endpoints from the `Link` header, a confirming authorization reply and a
      token reply: the result is the three endpoints plus the token. */
  lemma ScenarioHeaderDiscoverySucceeds()
    ensures Callback(Me, ParsedUri(HttpsUri), Some("abc123"), "s", "https://app/cb", "https://app/",
                     Network(Delivered(ExamplePage),
                             Delivered(FormReply(200, map["me" := [Me]])),
                             Delivered(FormReply(200, map["access_token" := ["tok_xyz"]])))).outcome
      == Completed(ExampleEndpoints[Token := Some("tok_xyz")])
  {
    HeaderValueWins(ExamplePage, MicropubEndpoint);
    HeaderValueWins(ExamplePage, TokenEndpoint);
    HeaderValueWins(ExamplePage, AuthorizationEndpoint);
    assert Discover(ExamplePage) == Discovered(ExampleEndpoints);
  }

  /** The same, but the authorization endpoint names another identity: the
      callback gives nil and the token endpoint is never asked. */
  lemma ScenarioIdentityMismatchNeverExchanges(tokenReply: Transport<FormReply>)
    ensures var run := Callback(Me, ParsedUri(HttpsUri), Some("abc123"), "s", "https://app/cb", "https://app/",
                                Network(Delivered(ExamplePage),
                                        Delivered(FormReply(200, map["me" := ["https://other.com/"]])),
                                        tokenReply));
      run.outcome == Aborted(NotConfirmed) && |run.calls| == 2 && !run.calls[1].PostToken?
  {
    HeaderValueWins(ExamplePage, MicropubEndpoint);
    assert Discover(ExamplePage).Discovered?;
  }

  /** The same, but the token reply is a 2xx reply whose form has no
      `access_token`: no token, nil. */
  lemma ScenarioNoTokenIssued()
    ensures Callback(Me, ParsedUri(HttpsUri), Some("abc123"), "s", "https://app/cb", "https://app/",
                     Network(Delivered(ExamplePage),
                             Delivered(FormReply(200, map["me" := [Me]])),
                             Delivered(FormReply(200, map[])))).outcome
      == Aborted(NoToken)
  {
    HeaderValueWins(ExamplePage, MicropubEndpoint);
    assert Discover(ExamplePage).Discovered?;
  }

  /** A 404 on the identity URL is a failure whatever the page carries. */
  lemma ScenarioNotFoundDiscoversNothing(header: Option<seq<HeaderLink>>, links: seq<HtmlLink>)
    ensures Discover(Page(404, header, links)) == Undiscovered(BadDiscoveryStatus)
  {
  }
}
