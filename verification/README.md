# CAS authentication plugin for RoundCube — a Dafny model

The plugin `cas_authentication` replaces RoundCube's login form with a CAS
single-sign-on login. It can also act as a CAS proxy: instead of a real IMAP
password it hands IMAP a proxy ticket, fetched per webmail node and cached in
the session. This project models the plugin's decision logic as pure
functions:

- the seven RoundCube hooks it registers (`startup`, `render_page`,
  `authenticate`, `login_after`, `login_failed`, `logout_after`,
  `imap_connect`);
- the one-shot phpCAS set-up `cas_init`;
- the URL helpers `generate_url` and `strleft`.

Each hook receives its arguments and whatever else it reads: the
configuration (`Settings.Config`), the request's server variables
(`UrlBuilder.ServerContext`) and the outcomes of the phpCAS calls it would
make. The phpCAS outcomes are whether
`forceAuthentication` succeeded, the principal from `getUser`, and the
result of `retrievePT`. The hooks that can end the request
(`startup`, `render_page`, `login_failed`, `logout_after`) return either
their arguments (`Continue`) or the end of the request (`Terminate`) with the
effects it had, in order: cookies, redirects, phpCAS calls, the error page,
killing the session. `authenticate` and `login_after` return their rewritten
arguments, `authenticate` together with the phpCAS state. `imap_connect`
returns its rewritten arguments, the session's ticket cache
(`$_SESSION['cas_pt']`, a map from node name to proxy ticket), the phpCAS
state and the phpCAS calls it made. `cas_init`'s
guard flag is the state `CasClient.CasState`.

PHP's truthiness of strings (`empty`, `if ($x = ...)`) is `PhpStrings.Truthy`:
only `""` and `"0"` are false. A missing array entry or a `null` is written
as `""`. PHP strings are byte strings; each `char` of the model stands for
one byte.

Modules, leaves first:

- `Wrappers` is the `Option` type.
- `PhpStrings` holds `strpos`, substring search and `strtolower`.
- `UrlCodec` holds `urlencode`, `urldecode`, ordered PHP arrays (`Assoc`) and `parse_str`.
- `UrlBuilder` holds `strleft` and `generate_url`.
- `Settings` holds the configuration.
- `CasClient` holds `cas_init`.
- `TicketCache` holds the session's proxy-ticket map.
- `Hooks` holds the hooks.
- `HookProperties` holds the properties that span several hook calls.

## Behaviour worth knowing

- `parse_str` reads at most `max_input_vars` pieces (1000 by default), so a login page requested with more than 1000 parameters gets only the first 1000 back after login.
- The `cas_url` cookie is never cleared after use, so `login_after` reads it again on every later login.
- `generate_url` passes its parameters through `array_reverse`, which renumbers integer keys. A name such as `0` or `42` is therefore not kept: `array('0' => 'a', '1' => 'b')` gives `?_0=b&_1=a`. The plugin itself only passes `action` and `task`.
- The restored parameters keep their underscores: `_task=mail&_action=compose` parses to `_task` → `mail` and `_action` → `compose`.
- When `retrievePT` fails, PHP stores `false` in the cache and uses it as the password. The model writes that value as `""`, which behaves the same for truthiness and as a string.

## Model

| member | source | states |
|---|---|---|
| PhpStrings.Contains | cas_authentication/cas_authentication.php:91 | the logout test `preg_match('/_task=logout/', …)` holds exactly when the text occurs somewhere in the query string |
| PhpStrings.StrPos | cas_authentication/cas_authentication.php:315 | `strpos` yields the first index at which the separator occurs, or nothing when it occurs nowhere |
| PhpStrings.ToLower | cas_authentication/cas_authentication.php:297 | `strtolower` keeps the length and lower-cases each ASCII letter in place, leaving every other byte as it is |
| UrlBuilder.StrLeft | cas_authentication/cas_authentication.php:314-322 | strleft returns a prefix of its input (StrLeftAtFirst and StrLeftWithoutSep say which) |
| UrlBuilder.StrLeftAtFirst | cas_authentication/cas_authentication.php:314-322 | when the separator first occurs at index k, strleft returns the prefix of length k if k is above 0, and the whole input if k is 0 (the `if ($length)` test) |
| UrlBuilder.StrLeftWithoutSep | cas_authentication/cas_authentication.php:314-322 | when the separator does not occur at all (strpos is false), strleft returns the whole input |
| UrlBuilder.StrLeftCutsAtFirst | cas_authentication/cas_authentication.php:314-322 | for a non-empty head free of the separator character, strleft of head, separator, tail is exactly the head |
| UrlBuilder.SchemeOfProtocol | cas_authentication/cas_authentication.php:296-297 | for a server protocol `NAME/VERSION` the scheme is NAME lower-cased, with `s` appended exactly when HTTPS is `on` |
| UrlBuilder.PortSegment | cas_authentication/cas_authentication.php:298-300 | the port part is empty iff (port `80` and not HTTPS) or (port `443` and HTTPS); otherwise it is `:` followed by the port |
| UrlBuilder.EffectivePortIsServerPort | cas_authentication/cas_authentication.php:296-300 | for a server protocol `HTTP/VERSION`, the port a client derives from the generated scheme and port part (default port when omitted) is always the server's port |
| UrlBuilder.PathDropsQuery | cas_authentication/cas_authentication.php:301 | the URL path is the request URI with its query string cut off at the first `?` |
| UrlBuilder.PrefixKey | cas_authentication/cas_authentication.php:306 | a name that already starts with `_` is kept as it is; any other name, the empty one included, gets exactly one `_` in front |
| UrlBuilder.SelectedFrom | cas_authentication/cas_authentication.php:304-309 | the emitted parameters are at most as many as given, each with a truthy value and a `_`-prefixed name |
| UrlBuilder.SelectedEmitsTruthy | cas_authentication/cas_authentication.php:304-309 | every parameter whose value is truthy is emitted with its value unchanged, under the name `array_reverse` gives it (an integer-like name becomes the count of integer-like names after it) with the underscore added |
| UrlBuilder.SelectedFromTruthy | cas_authentication/cas_authentication.php:304-309 | every emitted entry is some truthy parameter with its value unchanged, under its renumbered, prefixed name |
| UrlBuilder.SelectedReverses | cas_authentication/cas_authentication.php:304 | parameters are emitted in reverse input order: selecting from `a + b` gives the selection of `b` followed by that of `a`, whose integer-like names are numbered on from where those of `b` stop |
| UrlBuilder.IntegerNamesRenumbered | cas_authentication/cas_authentication.php:304-307 | `array('0' => 'a', '1' => 'b')` renders as `?_0=b&_1=a`: the values change places, the names do not |
| UrlCodec.DecimalStringIsIntegerKey | cas_authentication/cas_authentication.php:304 | the keys 0, 1, … that `array_reverse` hands out are themselves integer keys in PHP's sense |
| UrlCodec.DecimalRoundTrip | cas_authentication/cas_authentication.php:304 | the decimal name of a renumbered key reads back as that number |
| UrlCodec.NotIntegerKey | cas_authentication/cas_authentication.php:258 | a name starting with neither a digit nor `-`, such as `action` or `task`, stays a string key and is not renumbered |
| UrlBuilder.GenerateUrl | cas_authentication/cas_authentication.php:295-312 | the URL is the bare base URL exactly when every parameter value is falsy; otherwise it is the base URL followed by `?` and more |
| UrlBuilder.QueryStringAppend | cas_authentication/cas_authentication.php:303-308 | one more emitted parameter adds its `name=value` piece behind `?` when it is the first, behind `&` otherwise |
| UrlBuilder.BuildQuery | cas_authentication/cas_authentication.php:302-310 | the foreach loop over the reversed parameters, numbering integer-like names 0, 1, … as it meets them and switching the delimiter from `?` to `&`, produces exactly `?` plus the selected pieces joined by `&`, or nothing |
| UrlBuilder.QueryEmptyIffAllFalsy | cas_authentication/cas_authentication.php:303-309 | the URL gets no `?` at all exactly when every parameter value is falsy |
| UrlBuilder.QueryParsesBack | cas_authentication/cas_authentication.php:301-311 | a non-empty query string starts with `?`, and `parse_str` of the rest recovers the selected parameters in order (plain, distinct names), the first 1000 of them when there are more |
| UrlBuilder.TwoParamQuery | cas_authentication/cas_authentication.php:304-311 | two plain parameters render as `?_second=v2&_first=v1`; an integer-like second name becomes `_0`, an integer-like first name `_1` or `_0` depending on whether the second is integer-like |
| UrlCodec.UrlEncode | cas_authentication/cas_authentication.php:307 | urlencoded names and values never contain `&`, `=` or `?`, so they cannot break the query string apart |
| UrlCodec.UrlDecodeInvertsEncode | cas_authentication/cas_authentication.php:307 | urldecode undoes urlencode on every byte string |
| UrlCodec.ParseStr | cas_authentication/cas_authentication.php:141 | `parse_str` yields a PHP array: no name twice, never the empty name, and at most `max_input_vars` (1000) entries |
| UrlCodec.ReadPiecesOfNonEmpty | cas_authentication/cas_authentication.php:141 | of a query string without empty pieces, `parse_str` reads exactly the first 1000 pieces, or all of them when there are fewer |
| UrlCodec.FirstInputVars | cas_authentication/cas_authentication.php:141 | what survives the limit is a prefix of the array: all of it up to 1000 entries, exactly 1000 entries beyond |
| UrlCodec.ParseStrInvertsRender | cas_authentication/cas_authentication.php:141 | `parse_str` of `k1=v1&k2=v2...` with urlencoded parts returns the original array for distinct plain names and at most 1000 entries, and its first 1000 entries when there are more |
| UrlCodec.Put | cas_authentication/cas_authentication.php:141 | storing a new name appends it at the end; storing a name already present (in an array without repeats) overwrites its value in place and leaves every other entry and the length as they were; the names afterwards are the old ones plus the stored one |
| CasClient.ValidationOf | cas_authentication/cas_authentication.php:271-279 | `self` selects a server certificate, `ca` a CA certificate, both with `cas_cert`; any other value turns validation off |
| CasClient.ClientFor | cas_authentication/cas_authentication.php:254-283 | the client is a proxy iff proxy mode is on; only then does it get the callback URL `…?_action=pgtcallback` and XML PGT storage in `cas_pgt_dir`; the service URL is `…?_task=mail&_action=login`; version 2.0, a literal `false` as fifth argument, the certificate check chosen by `cas_validation`, and server, login and logout URLs from the configuration |
| CasClient.GeneratedUrls | cas_authentication/cas_authentication.php:257-268 | the service and callback URLs given to phpCAS are exactly generate_url of the login parameters and of the callback parameters |
| CasClient.ServiceQuery | cas_authentication/cas_authentication.php:268 | the service URL's query is `?_task=mail&_action=login`: reversed and prefixed |
| CasClient.PgtCallbackQuery | cas_authentication/cas_authentication.php:258 | the callback URL's query is `?_action=pgtcallback` |
| CasClient.CasInit | cas_authentication/cas_authentication.php:245-287 | after cas_init the client is set up; an already set-up client is left as it is; a fresh one gets the configuration's client |
| CasClient.CasInitOnce | cas_authentication/cas_authentication.php:246-285 | calling cas_init again, with any configuration and request, changes nothing |
| TicketCache.Store | cas_authentication/cas_authentication.php:227 | storing a ticket for one node makes it that node's ticket and leaves every other node's ticket as it was |
| Hooks.Startup | cas_authentication/cas_authentication.php:49-75 | `pgtcallback` sets up phpCAS, forces authentication and ends the request; `caslogout` sets up phpCAS, logs out of CAS and ends the request; neither touches the session; any other action passes through unchanged without setting up phpCAS |
| Hooks.ReturnUrl | cas_authentication/cas_authentication.php:90-93 | the return URL is the posted `_url` when truthy, else the query string unless it contains `_task=logout`, in which case the falsy posted value stays |
| Hooks.RenderPage | cas_authentication/cas_authentication.php:83-101 | for the login template, the request ends after setting the `cas_url` cookie to the return URL and redirecting to action `login`, task `mail`; other templates pass through unchanged |
| Hooks.LoginPassword | cas_authentication/cas_authentication.php:120-125 | the login password is empty in proxy mode and the static `cas_imap_password` otherwise |
| Hooks.Authenticate | cas_authentication/cas_authentication.php:109-129 | phpCAS is set up; on CAS success the user is the principal and the password is `""` in proxy mode or the static password otherwise, so the static password is never used in proxy mode; nothing else changes; on failure the arguments are unchanged |
| Hooks.LoginAfter | cas_authentication/cas_authentication.php:137-146 | a truthy `cas_url` cookie replaces the arguments by its parsed query; otherwise the arguments are unchanged |
| Hooks.LoginFailed | cas_authentication/cas_authentication.php:154-186 | login failure always ends the request: first the output is reset, then the "IMAP LOGIN FAILED" page whose only form (sent with GET) carries `_action=caslogout`, then the session is killed as the last effect |
| Hooks.LogoutAfter | cas_authentication/cas_authentication.php:194-200 | after logout the request ends with one redirect, whose action is `caslogout` |
| Hooks.ImapConnect | cas_authentication/cas_authentication.php:208-239 | outside proxy mode nothing changes. In proxy mode, a truthy cached ticket with caching on and attempt 1 becomes the password, with no phpCAS call and the cache unchanged. Otherwise phpCAS is set up and forced to authenticate. On success the fetched ticket becomes the password and this node's cache entry, other nodes' entries unchanged. On failure the password and cache are unchanged. `retry` is set to true when attempt ≤ 1 and otherwise kept as it came. Host, user and attempt never change |
| HookProperties.FetchedTicketIsReused | cas_authentication/cas_authentication.php:213-230 | with `cas_imap_caching` on, a truthy ticket fetched on a later attempt is reused by the next first attempt on the same node, with no phpCAS call and no cache change |
| HookProperties.LaterAttemptsFetchAfresh | cas_authentication/cas_authentication.php:213-235 | in proxy mode, attempts from the second on always call CAS whatever the cache holds, and the plugin never marks them retryable |
| HookProperties.LogoutEndsAtCas | cas_authentication/cas_authentication.php:194-200 | the redirect after a RoundCube logout reaches the startup branch that logs out of CAS |
| HookProperties.LoginFailureOffersOnlyCasLogout | cas_authentication/cas_authentication.php:170-172 | the failure page's one form leads to the startup branch that logs out of CAS |
| HookProperties.ReturnUrlRestored | cas_authentication/cas_authentication.php:139-143 | a login form shown for a query string of plain parameters sets the cookie to that query, and after login those exact parameters come back (the first 1000 of them when there are more), unless the query asks for logout |
| HookProperties.LogoutRequestNotRestored | cas_authentication/cas_authentication.php:90-92 | when the query string asks for logout and no `_url` was posted, login_after keeps RoundCube's own redirect |
| HookProperties.ComposeScenario | cas_authentication/cas_authentication.php:90-94 | a login form requested with `_task=mail&_action=compose` stores that query in the cookie and restores `_task` → `mail`, `_action` → `compose` |

## Left out

- The phpCAS library (`proxy`, `client`, `forceAuthentication`, `getUser`, `retrievePT`, `logout` and the `set…` calls) does network and TLS work. Its results are parameters; its calls are `Effect` values and `ClientConfig` fields.
- `setcookie`, `$_SESSION` persistence, `exit`, `kill_session` and the output's `redirect`, `send` and `reset` are host I/O. They appear only as `Effect` values. `setcookie` with an empty value deletes the cookie; either way a later read is `""`.
- The wording and HTML of the login-failure page are not modelled. Only its title and the action of its one form are.
- `init` (hook registration) and `load_config` are plugin dispatch glue. The model passes the configuration explicitly.
- `retrievePT`'s error code and diagnostic output are not modelled, because the code never reads them.
- `get_input_value`'s cleaning of the posted `_url` is not modelled. The posted value is a parameter.
- Concurrent requests racing on the ticket cache are not modelled. Each hook call is one step.
- UrlCodec.EncodeChar: characters above 0xFF are encoded by their low byte. PHP strings are bytes, so a multi-byte character is never one `char` there.
- UrlCodec.ParseStr: PHP also strips leading spaces from names, turns ` ` and `.` into `_`, reads `[` as array syntax, and cuts a decoded name off at its first NUL byte. None of this is modelled, so the round-trip lemmas require plain names without those characters. The ini settings `arg_separator.input` and `max_input_vars` are fixed at their defaults, `&` and 1000; the warning PHP issues on reaching the limit is not modelled.
- UrlBuilder.PortSegment: compares `SERVER_PORT` as text. PHP's `==` would also treat numeric strings such as `080` as equal to `80`.
- PhpStrings.ToLower: maps only ASCII letters, as `strtolower` does since PHP 8.2. Earlier versions used the locale.
- Hooks.LoginFailed: the model lets `kill_session` run after `$rcmail->output->send('error')`, that is, it assumes `send` returns. RoundCube's output class is not part of this model. If `send` ends the script, as its default argument `$exit = true` suggests, the session is not killed on a failed IMAP login.
- Hooks.LogoutAfter: the PHP function returns nothing. That is not observable, because the redirect exits first.
