/**
  `cas_init`: the one-time set-up of the phpCAS client. The calls it makes are
  collected into a ClientConfig record; the client is set up at most once per
  request, guarded by the CasState.
*/
module CasClient {
  import opened Wrappers
  import opened PhpStrings
  import opened UrlCodec
  import opened UrlBuilder
  import opened Settings

  datatype ClientKind = Client | Proxy

  /** How phpCAS validates the CAS server's TLS certificate. */
  datatype ServerValidation = NoValidation | ServerCert(path: string) | CaCert(path: string)

  /** Everything cas_init tells phpCAS. */
  datatype ClientConfig = ClientConfig(
    kind: ClientKind,               // phpCAS::proxy or phpCAS::client
    protocolVersion: string,        // CAS_VERSION_2_0
    hostname: string,
    port: int,
    uri: string,
    lastArg: bool,                  // the fifth argument of proxy/client; its meaning depends on the phpCAS version
    callbackUrl: Option<string>,    // setFixedCallbackURL, proxy mode only
    pgtStorage: Option<(string, string)>,  // setPGTStorageFile(format, dir), proxy mode only
    serviceUrl: string,             // setFixedServiceURL
    validation: ServerValidation,
    loginUrl: string,               // setServerLoginURL
    logoutUrl: string)              // setServerLogoutURL

  const CasVersion2: string := "2.0"

  /** Parameters of the proxy-granting-ticket callback URL. */
  const PgtCallbackParams: Assoc := [("action", "pgtcallback")]

  /** Parameters of the service URL: the webmail's login action. */
  const ServiceParams: Assoc := [("action", "login"), ("task", "mail")]

  /** The service URL lists `task` before `action`, each with its underscore. */
  lemma ServiceQuery()
    ensures QueryOf(ServiceParams) == "?_task=mail&_action=login"
  {
    var action, task := "action", "task";
    assert action[0] == 'a' && task[0] == 't';
    assert AllUnreserved(action) && AllUnreserved(task) && AllUnreserved("login") && AllUnreserved("mail");
    TwoPlainParams(action, "login", task, "mail", "?_task=mail&_action=login");
  }

  /** The callback URL carries just `_action=pgtcallback`. */
  lemma PgtCallbackQuery()
    ensures QueryOf(PgtCallbackParams) == "?_action=pgtcallback"
  {
    OnePlainParam("action", "pgtcallback", "?_action=pgtcallback");
  }

  /** A plain name, neither underscored nor integer-like, renders as
      `?_name=value`. */
  lemma OnePlainParam(k: string, v: string, query: string)
    requires AllUnreserved(k) && AllUnreserved(v) && Truthy(v)
    requires k != [] && k[0] != '_' && k[0] != '-' && !IsDigit(k[0])
    requires query == "?_" + k + "=" + v
    ensures QueryOf([(k, v)]) == query
  {
    OneParamQuery(k, v);
    NotIntegerKey(k);
    assert "?" + PrefixKey(k) == "?_" + k by {
      assert PrefixKey(k) == "_" + k;
      assert "?_" == "?" + "_";
    }
  }

  /** Two plain names render in reverse order, each with its underscore. */
  lemma TwoPlainParams(k1: string, v1: string, k2: string, v2: string, query: string)
    requires AllUnreserved(k1) && AllUnreserved(v1) && Truthy(v1)
    requires k1 != [] && k1[0] != '_' && k1[0] != '-' && !IsDigit(k1[0])
    requires AllUnreserved(k2) && AllUnreserved(v2) && Truthy(v2)
    requires k2 != [] && k2[0] != '_' && k2[0] != '-' && !IsDigit(k2[0])
    requires query == ("?_" + k2 + "=" + v2) + "&" + ("_" + k1 + "=" + v1)
    ensures QueryOf([(k1, v1), (k2, v2)]) == query
  {
    TwoParamQuery(k1, v1, k2, v2);
    NotIntegerKey(k1);
    NotIntegerKey(k2);
    assert PrefixKey(k1) == "_" + k1 && PrefixKey(k2) == "_" + k2;
    assert "?" + ("_" + k2) == "?_" + k2 by {
      assert "?_" == "?" + "_";
    }
  }

  /** The certificate check chosen by `cas_validation`. */
  function ValidationOf(cfg: Config): (v: ServerValidation)
    ensures v.ServerCert? <==> cfg.validation == "self"
    ensures v.CaCert? <==> cfg.validation == "ca"
    ensures !v.NoValidation? ==> v.path == cfg.cert
  {
    if cfg.validation == "self" then ServerCert(cfg.cert)
    else if cfg.validation == "ca" then CaCert(cfg.cert)
    else NoValidation
  }

  /** The two URLs cas_init hands to phpCAS are generate_url's for the
      callback and the login parameters. */
  lemma GeneratedUrls(ctx: ServerContext)
    ensures GenerateUrl(ctx, ServiceParams) == BaseUrl(ctx) + "?_task=mail&_action=login"
    ensures GenerateUrl(ctx, PgtCallbackParams) == BaseUrl(ctx) + "?_action=pgtcallback"
  {
    ServiceQuery();
    PgtCallbackQuery();
  }

  /** The client cas_init sets up for `cfg` while serving a request in `ctx`;
      its URLs are written out as GeneratedUrls computes them. */
  function ClientFor(cfg: Config, ctx: ServerContext): (c: ClientConfig)
    ensures c.kind == Proxy <==> cfg.proxy
    ensures c.callbackUrl.Some? <==> cfg.proxy
    ensures c.pgtStorage.Some? <==> cfg.proxy
    ensures cfg.proxy ==> c.callbackUrl.value == BaseUrl(ctx) + "?_action=pgtcallback"
    ensures cfg.proxy ==> c.pgtStorage.value == ("xml", cfg.pgtDir)
    ensures c.serviceUrl == BaseUrl(ctx) + "?_task=mail&_action=login"
    ensures c.protocolVersion == CasVersion2 && !c.lastArg
    ensures c.hostname == cfg.hostname && c.port == cfg.port && c.uri == cfg.uri
    ensures c.validation == ValidationOf(cfg)
    ensures c.loginUrl == cfg.loginUrl && c.logoutUrl == cfg.logoutUrl
  {
    ClientConfig(
      if cfg.proxy then Proxy else Client,
      CasVersion2, cfg.hostname, cfg.port, cfg.uri, false,
      if cfg.proxy then Some(BaseUrl(ctx) + "?_action=pgtcallback") else None,
      if cfg.proxy then Some(("xml", cfg.pgtDir)) else None,
      BaseUrl(ctx) + "?_task=mail&_action=login",
      ValidationOf(cfg),
      cfg.loginUrl, cfg.logoutUrl)
  }

  /** Whether the phpCAS client has been set up in this request (`$cas_inited`). */
  datatype CasState = Uninitialized | Initialized(client: ClientConfig)

  /** `cas_init()`: sets the client up on the first call; later calls change
      nothing, whatever configuration or request they see. */
  function CasInit(st: CasState, cfg: Config, ctx: ServerContext): (r: CasState)
    ensures r.Initialized?
    ensures st.Initialized? ==> r == st
    ensures st.Uninitialized? ==> r.client == ClientFor(cfg, ctx)
  {
    match st
    case Initialized(_) => st
    case Uninitialized => Initialized(ClientFor(cfg, ctx))
  }

  /** Initialising twice is initialising once: the first call wins. */
  lemma CasInitOnce(st: CasState, cfg: Config, ctx: ServerContext, cfg': Config, ctx': ServerContext)
    ensures CasInit(CasInit(st, cfg, ctx), cfg', ctx') == CasInit(st, cfg, ctx)
  {
  }
}
