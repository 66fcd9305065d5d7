/**
  Properties that span more than one hook call: the ticket cache across
  connection attempts, the logout chain, and the return URL's trip through
  the `cas_url` cookie.
*/
module HookProperties {
  import opened Wrappers
  import opened PhpStrings
  import opened UrlCodec
  import opened UrlBuilder
  import opened Settings
  import opened CasClient
  import opened TicketCache
  import opened Hooks

  /** A ticket fetched on a retry is cached for this node and used, without
      any phpCAS call, by the next first attempt on the same node. */
  lemma FetchedTicketIsReused(args: ImapArgs, cfg: Config, tickets: Tickets, node: string,
                              cas: CasState, ctx: ServerContext, t: string,
                              next: ImapArgs, authenticated': bool, pt': Option<string>)
    requires cfg.proxy && cfg.imapCaching
    requires args.attempt != 1 && next.attempt == 1
    requires Truthy(t)
    ensures var r1 := ImapConnect(args, cfg, tickets, node, cas, ctx, true, Some(t));
            var r2 := ImapConnect(next, cfg, r1.tickets, node, r1.cas, ctx, authenticated', pt');
            r2.args.pass == t && r2.calls == [] && r2.tickets == r1.tickets
  {
    var r1 := ImapConnect(args, cfg, tickets, node, cas, ctx, true, Some(t));
    assert Lookup(r1.tickets, node) == t;
  }

  /** Attempts after the first always go back to CAS, whatever the cache
      holds, and are never marked retryable by the plugin. */
  lemma LaterAttemptsFetchAfresh(args: ImapArgs, cfg: Config, tickets: Tickets, node: string,
                                 cas: CasState, ctx: ServerContext, authenticated: bool, pt: Option<string>)
    requires cfg.proxy && args.attempt >= 2
    ensures var r := ImapConnect(args, cfg, tickets, node, cas, ctx, authenticated, pt);
            CasForceAuthentication in r.calls && r.args.retry == args.retry
  {
    var r := ImapConnect(args, cfg, tickets, node, cas, ctx, authenticated, pt);
    assert r.calls[0] == CasForceAuthentication;
  }

  /** After a RoundCube logout the browser lands on the action that logs out
      of CAS as well. */
  lemma LogoutEndsAtCas<A>(args: A, task: string, cas: CasState, cfg: Config, ctx: ServerContext)
    ensures var redirect := LogoutAfter(args).effects[0];
            Startup(StartupArgs(task, ActionOf(redirect.params)), cas, cfg, ctx).outcome == Terminate([CasLogout])
  {
  }

  /** The one button of the login-failure page logs out of CAS. */
  lemma LoginFailureOffersOnlyCasLogout<A>(args: A, task: string, cas: CasState, cfg: Config, ctx: ServerContext)
    ensures var page := LoginFailed(args).effects[1];
            Startup(StartupArgs(task, page.formAction), cas, cfg, ctx).outcome == Terminate([CasLogout])
  {
  }

  lemma {:induction false} JoinHasFirstPiece(ps: seq<string>, sep: char, c: char)
    requires |ps| >= 1 && c in ps[0]
    ensures c in Join(ps, sep)
    decreases |ps|
  {
    if |ps| > 1 {
      assert Join(ps, sep) == ps[0] + [sep] + Join(ps[1..], sep);
    }
  }

  /** A non-empty rendered query string is truthy: it holds at least one `=`. */
  lemma RenderedQueryIsTruthy(a: Assoc)
    requires a != []
    ensures Truthy(RenderQuery(a))
  {
    JoinHasFirstPiece(Pieces(a), '&', '=');
    assert '=' in RenderQuery(a);
  }

  /** The request's query string survives the trip through the `cas_url`
      cookie: what login_after restores is exactly the parameters of the
      request that showed the login form, unless it was a logout request;
      past MaxInputVars parameters, `parse_str` keeps only the first ones. */
  lemma ReturnUrlRestored(a: Assoc, postedUrl: string, args: Assoc, content: string)
    requires Parseable(a) && a != []
    requires !Truthy(postedUrl)
    requires !Contains(RenderQuery(a), "_task=logout")
    ensures RenderPage(RenderArgs(LoginTemplate, content), postedUrl, RenderQuery(a)).effects[0]
            == SetCookie(ReturnUrlCookie, RenderQuery(a))
    ensures LoginAfter(args, ReturnUrl(postedUrl, RenderQuery(a))) == FirstInputVars(a)
    ensures |a| <= MaxInputVars ==> LoginAfter(args, ReturnUrl(postedUrl, RenderQuery(a))) == a
  {
    RenderedQueryIsTruthy(a);
    ParseStrInvertsRender(a);
  }

  /** A logout request is never replayed after the next login: login_after
      keeps RoundCube's own redirect. */
  lemma LogoutRequestNotRestored(postedUrl: string, queryString: string, args: Assoc)
    requires !Truthy(postedUrl)
    requires Contains(queryString, "_task=logout")
    ensures LoginAfter(args, ReturnUrl(postedUrl, queryString)) == args
  {
  }

  /** A string without some character of `needle` does not contain `needle`. */
  lemma MissingCharRulesOut(s: string, needle: string, c: char)
    requires c in needle && c !in s
    ensures !Contains(s, needle)
  {
  }

  lemma RenderTwoPlainPairs(k1: string, v1: string, k2: string, v2: string, q: string)
    requires AllUnreserved(k1) && AllUnreserved(v1) && AllUnreserved(k2) && AllUnreserved(v2)
    requires q == (k1 + "=" + v1) + "&" + (k2 + "=" + v2)
    ensures RenderQuery([(k1, v1), (k2, v2)]) == q
  {
    EncodePlainPair(k1, v1);
    EncodePlainPair(k2, v2);
    var ps := [k1 + "=" + v1, k2 + "=" + v2];
    assert Pieces([(k1, v1), (k2, v2)]) == ps;
    assert ps[1..] == [k2 + "=" + v2];
    assert Join(ps, '&') == (k1 + "=" + v1) + "&" + (k2 + "=" + v2);
  }

  const ComposeQuery: string := "_task=mail&_action=compose"
  const ComposeParams: Assoc := [("_task", "mail"), ("_action", "compose")]

  lemma ComposeQueryRendered()
    ensures RenderQuery(ComposeParams) == ComposeQuery
  {
    RenderTwoPlainPairs("_task", "mail", "_action", "compose", ComposeQuery);
  }

  lemma ComposeQueryIsNoLogout()
    ensures !Contains(ComposeQuery, "_task=logout")
  {
    MissingCharRulesOut(ComposeQuery, "_task=logout", 'g');
  }

  lemma ComposeParamsParseable()
    ensures Parseable(ComposeParams)
  {
    assert ComposeParams[1..] == [("_action", "compose")];
    assert KeysOf(ComposeParams[1..]) == {"_action"};
  }

  /** A login form requested with `_task=mail&_action=compose` leads, after
      CAS login, back to the compose screen. */
  lemma ComposeScenario(args: Assoc, content: string)
    ensures RenderPage(RenderArgs(LoginTemplate, content), "", ComposeQuery).effects[0]
            == SetCookie(ReturnUrlCookie, ComposeQuery)
    ensures LoginAfter(args, ReturnUrl("", ComposeQuery)) == ComposeParams
  {
    ComposeQueryRendered();
    ComposeQueryIsNoLogout();
    ComposeParamsParseable();
    ReturnUrlRestored(ComposeParams, "", args, content);
  }
}
