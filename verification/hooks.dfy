/**
  The plugin's RoundCube hooks, each a pure function of its arguments, the
  configuration, the request and the outcomes of the phpCAS calls it would
  make. A hook either hands its (possibly rewritten) arguments back to
  RoundCube, or ends the request (`exit`, or a redirect, which exits) after a
  list of effects on the outside world.
*/
module Hooks {
  import opened Wrappers
  import opened PhpStrings
  import opened UrlCodec
  import opened UrlBuilder
  import opened Settings
  import opened CasClient
  import opened TicketCache

  /** What a hook does to the outside world, in order. */
  datatype Effect =
    | CasForceAuthentication                   // phpCAS::forceAuthentication()
    | CasRetrieveProxyTicket(service: string)  // phpCAS::retrievePT(service, ...)
    | CasLogout                                // phpCAS::logout()
    | SetCookie(name: string, value: string)   // setcookie(name, value)
    | Redirect(params: Assoc)                  // $rcmail->output->redirect(params), which exits
    | ResetOutput                              // $rcmail->output->reset()
    | SendErrorPage(title: string, formAction: string)  // the error template, one GET form carrying _action
    | KillSession                              // $rcmail->kill_session()

  datatype Outcome<A> = Continue(args: A) | Terminate(effects: seq<Effect>)

  /** A hook's outcome together with the phpCAS client state it leaves. */
  datatype Step<A> = Step(outcome: Outcome<A>, cas: CasState)

  const PgtCallbackAction: string := "pgtcallback"
  const CasLogoutAction: string := "caslogout"
  const ReturnUrlCookie: string := "cas_url"
  const LoginTemplate: string := "login"

  /** The redirect that replaces the login form: the login action of the mail task. */
  const LoginRedirect: Assoc := [("action", "login"), ("task", "mail")]

  /** The value RoundCube's request carries as its action after a redirect to
      `params` (the `action` entry, sent as `_action`). */
  function ActionOf(params: Assoc): string
    decreases |params|
  {
    if params == [] then ""
    else if params[0].0 == "action" then params[0].1
    else ActionOf(params[1..])
  }

  // ---------------------------------------------------------------- startup

  datatype StartupArgs = StartupArgs(task: string, action: string)

  /** `startup`: the proxy-granting-ticket callback and the CAS logout action
      are served before any session exists and end the request; every other
      action passes through untouched and leaves phpCAS alone. The outcome of
      forceAuthentication in the callback is not looked at. */
  function Startup(args: StartupArgs, cas: CasState, cfg: Config, ctx: ServerContext): (r: Step<StartupArgs>)
    ensures args.action == PgtCallbackAction ==>
      r.outcome == Terminate([CasForceAuthentication]) && r.cas == CasInit(cas, cfg, ctx)
    ensures args.action == CasLogoutAction ==>
      r.outcome == Terminate([CasLogout]) && r.cas == CasInit(cas, cfg, ctx)
    ensures args.action != PgtCallbackAction && args.action != CasLogoutAction ==>
      r.outcome == Continue(args) && r.cas == cas
    ensures r.outcome.Terminate? ==> KillSession !in r.outcome.effects && r.cas.Initialized?
  {
    if args.action == PgtCallbackAction then
      Step(Terminate([CasForceAuthentication]), CasInit(cas, cfg, ctx))
    else if args.action == CasLogoutAction then
      Step(Terminate([CasLogout]), CasInit(cas, cfg, ctx))
    else
      Step(Continue(args), cas)
  }

  // ------------------------------------------------------------ render_page

  datatype RenderArgs = RenderArgs(template: string, content: string)

  /** The URL to come back to after logging in: the posted `_url` when it is
      non-empty, else the query string, unless that asks for a logout. */
  function ReturnUrl(postedUrl: string, queryString: string): (url: string)
    ensures Truthy(postedUrl) ==> url == postedUrl
    ensures !Truthy(postedUrl) && !Contains(queryString, "_task=logout") ==> url == queryString
    ensures !Truthy(postedUrl) && Contains(queryString, "_task=logout") ==> url == postedUrl
  {
    if !Truthy(postedUrl) && !Contains(queryString, "_task=logout") then queryString else postedUrl
  }

  /** `render_page`: the login form is never shown; its request URL goes into
      the `cas_url` cookie and the browser is sent to the login action. Every
      other template renders unchanged. */
  function RenderPage(args: RenderArgs, postedUrl: string, queryString: string): (r: Outcome<RenderArgs>)
    ensures args.template == LoginTemplate ==>
      r == Terminate([SetCookie(ReturnUrlCookie, ReturnUrl(postedUrl, queryString)), Redirect(LoginRedirect)])
    ensures args.template != LoginTemplate ==> r == Continue(args)
  {
    if args.template == LoginTemplate then
      Terminate([SetCookie(ReturnUrlCookie, ReturnUrl(postedUrl, queryString)), Redirect(LoginRedirect)])
    else Continue(args)
  }

  // ----------------------------------------------------------- authenticate

  datatype AuthArgs = AuthArgs(host: string, user: string, pass: string, cookieCheck: bool, valid: bool)

  /** The password handed to IMAP at login: none in proxy mode, where the
      proxy ticket is supplied at connect time, else the static password. */
  function LoginPassword(cfg: Config): (p: string)
    ensures cfg.proxy ==> p == ""
    ensures !cfg.proxy ==> p == cfg.imapPassword
  {
    if cfg.proxy then "" else cfg.imapPassword
  }

  /** `authenticate`: sets phpCAS up, and when CAS has authenticated the user
      (`authenticated`, with `principal` from getUser) fills in the user name
      and the mode's password; otherwise the arguments stay as they are. */
  function Authenticate(args: AuthArgs, cfg: Config, cas: CasState, ctx: ServerContext,
                        authenticated: bool, principal: string): (r: (AuthArgs, CasState))
    ensures r.1 == CasInit(cas, cfg, ctx)
    ensures authenticated ==> r.0.user == principal
    ensures authenticated && cfg.proxy ==> r.0.pass == ""
    ensures authenticated && !cfg.proxy ==> r.0.pass == cfg.imapPassword
    ensures authenticated ==> r.0 == args.(user := r.0.user, pass := r.0.pass)
    ensures !authenticated ==> r.0 == args
  {
    var c := CasInit(cas, cfg, ctx);
    if authenticated then (args.(user := principal, pass := LoginPassword(cfg)), c)
    else (args, c)
  }

  // ------------------------------------------------------------ login_after

  /** `login_after`: a truthy `cas_url` cookie (absent reads as "") replaces
      the redirect parameters by the parsed return URL. */
  function LoginAfter(args: Assoc, cookie: string): (r: Assoc)
    ensures Truthy(cookie) ==> r == ParseStr(cookie)
    ensures !Truthy(cookie) ==> r == args
  {
    if Truthy(cookie) then ParseStr(cookie) else args
  }

  // ----------------------------------------------------------- login_failed

  const LoginFailedTitle: string := "IMAP LOGIN FAILED"

  /** `login_failed`: always ends the request: discards buffered output, sends
      the error page, whose only control leads to the CAS logout action, and
      destroys the session. */
  function LoginFailed<A>(args: A): (r: Outcome<A>)
    ensures r.Terminate? && |r.effects| == 3
    ensures r.effects[0] == ResetOutput
    ensures r.effects[1] == SendErrorPage(LoginFailedTitle, CasLogoutAction)
    ensures r.effects[|r.effects| - 1] == KillSession
  {
    Terminate([ResetOutput, SendErrorPage(LoginFailedTitle, CasLogoutAction), KillSession])
  }

  // ----------------------------------------------------------- logout_after

  /** `logout_after`: sends the browser on to the CAS logout action. */
  function LogoutAfter<A>(args: A): (r: Outcome<A>)
    ensures r.Terminate? && |r.effects| == 1 && r.effects[0].Redirect?
    ensures ActionOf(r.effects[0].params) == CasLogoutAction
  {
    Terminate([Redirect([("action", CasLogoutAction)])])
  }

  // ----------------------------------------------------------- imap_connect

  datatype ImapArgs = ImapArgs(host: string, user: string, pass: string, attempt: int, retry: bool)

  /** What imap_connect hands back: the arguments, the session's ticket cache,
      the phpCAS state, and the phpCAS calls it made. */
  datatype ImapStep = ImapStep(args: ImapArgs, tickets: Tickets, cas: CasState, calls: seq<Effect>)

  /** The cached ticket for this node is used instead of fetching a new one. */
  predicate ReusesCachedTicket(cfg: Config, tickets: Tickets, node: string, attempt: int) {
    Truthy(Lookup(tickets, node)) && cfg.imapCaching && attempt == 1
  }

  /** What retrievePT returned: the ticket, or `false` (None), which PHP stores
      and passes on as a falsy value; the model writes it as "". */
  function TicketValue(pt: Option<string>): string {
    pt.GetOr("")
  }

  /** `imap_connect`. Outside proxy mode nothing happens. In proxy mode the
      first attempt reuses this node's cached ticket when IMAP caches tickets;
      otherwise phpCAS is set up and, once the user is authenticated, a fresh
      ticket is fetched, cached for this node and used as the password. The
      first attempt is marked as retryable. `node` is `php_uname('n')`,
      `authenticated` what forceAuthentication returned, `pt` what retrievePT
      returned. */
  function ImapConnect(args: ImapArgs, cfg: Config, tickets: Tickets, node: string,
                       cas: CasState, ctx: ServerContext,
                       authenticated: bool, pt: Option<string>): (r: ImapStep)
    ensures !cfg.proxy ==> r == ImapStep(args, tickets, cas, [])
    ensures cfg.proxy && ReusesCachedTicket(cfg, tickets, node, args.attempt) ==>
      r.args.pass == tickets[node] && r.tickets == tickets && r.calls == [] && r.cas == cas
    ensures cfg.proxy && !ReusesCachedTicket(cfg, tickets, node, args.attempt) ==>
      r.cas == CasInit(cas, cfg, ctx) && |r.calls| >= 1 && r.calls[0] == CasForceAuthentication
    ensures cfg.proxy && !ReusesCachedTicket(cfg, tickets, node, args.attempt) && authenticated ==>
      && r.args.pass == TicketValue(pt)
      && Lookup(r.tickets, node) == r.args.pass
      && r.tickets.Keys == tickets.Keys + {node}
      && (forall h :: h != node ==> Lookup(r.tickets, h) == Lookup(tickets, h))
      && r.calls == [CasForceAuthentication, CasRetrieveProxyTicket(cfg.imapName)]
    ensures cfg.proxy && !ReusesCachedTicket(cfg, tickets, node, args.attempt) && !authenticated ==>
      r.args.pass == args.pass && r.tickets == tickets && r.calls == [CasForceAuthentication]
    ensures cfg.proxy ==> r.args.retry == (args.attempt <= 1 || args.retry)
    ensures r.args.host == args.host && r.args.user == args.user && r.args.attempt == args.attempt
  {
    if !cfg.proxy then ImapStep(args, tickets, cas, [])
    else
      var s :=
        if ReusesCachedTicket(cfg, tickets, node, args.attempt) then
          ImapStep(args.(pass := Lookup(tickets, node)), tickets, cas, [])
        else
          var c := CasInit(cas, cfg, ctx);
          if authenticated then
            var t := TicketValue(pt);
            ImapStep(args.(pass := t), Store(tickets, node, t), c,
                     [CasForceAuthentication, CasRetrieveProxyTicket(cfg.imapName)])
          else ImapStep(args, tickets, c, [CasForceAuthentication]);
      if args.attempt <= 1 then s.(args := s.args.(retry := true)) else s
  }
}
