/**
  The plugin's `generate_url` and `strleft`: the absolute URL of this webmail
  instance, rebuilt from the request's server variables, with a set of action
  parameters appended as a query string. The CAS client is given two such URLs,
  the service URL and the proxy-granting-ticket callback URL.
*/
module UrlBuilder {
  import opened Wrappers
  import opened PhpStrings
  import opened UrlCodec

  /** The entries of `$_SERVER` that generate_url reads; an unset entry is "". */
  datatype ServerContext = ServerContext(
    https: string,       // HTTPS, "on" behind TLS
    protocol: string,    // SERVER_PROTOCOL, such as "HTTP/1.1"
    port: string,        // SERVER_PORT
    serverName: string,  // SERVER_NAME
    requestUri: string)  // REQUEST_URI, path and query string

  /** `strleft($s, $sep)`: the part of `s` before the first `sep`. As written,
      the test `if ($length)` treats a separator at index 0 like a missing one,
      so then `s` comes back whole. The lemmas below characterise it. */
  function StrLeft(s: string, sep: string): (r: string)
    ensures |r| <= |s| && r == s[..|r|]
  {
    match StrPos(s, sep)
    case Some(k) => if k > 0 then s[..k] else s
    case None => s
  }

  /** With `sep` first found at `k`, strleft cuts there, or keeps `s` whole
      when `k` is 0. */
  lemma StrLeftAtFirst(s: string, sep: string, k: nat)
    requires FirstOccurrence(s, sep, k)
    ensures k > 0 ==> StrLeft(s, sep) == s[..k]
    ensures k == 0 ==> StrLeft(s, sep) == s
  {
    var p := StrPos(s, sep);
    assert p.Some?;
    FirstOccurrenceUnique(s, sep, p.value, k);
  }

  /** Without `sep`, strleft keeps `s` whole. */
  lemma StrLeftWithoutSep(s: string, sep: string)
    requires forall j: nat :: !OccursAt(s, sep, j)
    ensures StrLeft(s, sep) == s
  {
  }

  /** Cutting `p + [c] + t` at `c` yields `p` when `p` is non-empty and free of `c`. */
  lemma StrLeftCutsAtFirst(p: string, c: char, t: string)
    requires p != [] && c !in p
    ensures StrLeft(p + [c] + t, [c]) == p
  {
    var s := p + [c] + t;
    assert OccursAt(s, [c], |p|) by {
      assert s[|p|..|p| + 1] == [c];
    }
    forall j: nat | j < |p| ensures !OccursAt(s, [c], j) {
      assert s[j..j + 1] == [p[j]];
    }
    StrLeftAtFirst(s, [c], |p|);
    assert s[..|p|] == p;
  }

  predicate IsHttps(ctx: ServerContext) {
    ctx.https == "on"
  }

  /** The URL scheme: the lower-cased protocol name in front of `/`, with `s`
      appended behind TLS. */
  function Scheme(ctx: ServerContext): string {
    StrLeft(ToLower(ctx.protocol), "/") + (if IsHttps(ctx) then "s" else "")
  }

  /** The `:port` part of the authority, left out for the scheme's default port. */
  function PortSegment(ctx: ServerContext): (r: string)
    ensures r == "" <==> (ctx.port == "80" && !IsHttps(ctx)) || (ctx.port == "443" && IsHttps(ctx))
    ensures r != "" ==> r == ":" + ctx.port
  {
    if (ctx.port == "80" && !IsHttps(ctx)) || (ctx.port == "443" && IsHttps(ctx)) then ""
    else ":" + ctx.port
  }

  /** The request path without its query string. */
  function Path(ctx: ServerContext): string {
    StrLeft(ctx.requestUri, "?")
  }

  /** Everything of the URL in front of the query string. */
  function BaseUrl(ctx: ServerContext): string {
    Scheme(ctx) + "://" + ctx.serverName + PortSegment(ctx) + Path(ctx)
  }

  /** The request-parameter name for `k`: an underscore is put in front unless
      `k` already starts with one. */
  function PrefixKey(k: string): (r: string)
    ensures r != [] && r[0] == '_'
    ensures r == k || r == "_" + k
    ensures r == k <==> |k| > 0 && k[0] == '_'
  {
    if |k| > 0 && k[0] == '_' then k else "_" + k
  }

  /** The number of names in `params` that PHP stores as integer keys. */
  function IntegerKeyCount(params: Assoc): (n: nat)
    ensures n <= |params|
    decreases |params|
  {
    if params == [] then 0
    else (if IsIntegerKey(params[0].0) then 1 else 0) + IntegerKeyCount(params[1..])
  }

  lemma {:induction false} IntegerKeyCountAppend(a: Assoc, b: Assoc)
    ensures IntegerKeyCount(a + b) == IntegerKeyCount(a) + IntegerKeyCount(b)
    decreases |a|
  {
    if a == [] {
      assert a + b == b;
    } else {
      assert (a + b)[1..] == a[1..] + b;
      IntegerKeyCountAppend(a[1..], b);
    }
  }

  /** The key `array_reverse` (without `preserve_keys`) gives a parameter
      named `k` when `n` integer keys come before it in the reversed array:
      integer keys are renumbered 0, 1, ... in the new order, string keys
      stay. */
  function ReversedKey(k: string, n: nat): string {
    if IsIntegerKey(k) then DecimalString(n) else k
  }

  /** The parameters the query string carries when `n` integer keys of
      parameters behind `params` were numbered before them: in reverse order,
      entries with a falsy value dropped, each name being the reversed key with
      its underscore. An integer key has no `$key[0]` (it reads as null), so
      it always gets the underscore, as PrefixKey gives a digit string. */
  function SelectedFrom(params: Assoc, n: nat): (r: Assoc)
    ensures |r| <= |params|
    ensures forall i :: 0 <= i < |r| ==> r[i].0 != [] && r[i].0[0] == '_' && Truthy(r[i].1)
    decreases |params|
  {
    if params == [] then []
    else
      var kv := params[0];
      SelectedFrom(params[1..], n)
        + (if Truthy(kv.1) then [(PrefixKey(ReversedKey(kv.0, n + IntegerKeyCount(params[1..]))), kv.1)] else [])
  }

  /** The parameters generate_url's query string carries. A `params` with a
      repeated name, which no PHP array holds, is outside the model. */
  function Selected(params: Assoc): Assoc {
    SelectedFrom(params, 0)
  }

  /** The name under which `params[i]` appears in the query string. */
  function EmittedKey(params: Assoc, i: nat): string
    requires i < |params|
  {
    PrefixKey(ReversedKey(params[i].0, IntegerKeyCount(params[i + 1..])))
  }

  /** A query string listing `sel`: `?` and the pieces joined by `&`, or
      nothing at all when `sel` is empty. */
  function QueryString(sel: Assoc): string {
    if sel == [] then "" else "?" + RenderQuery(sel)
  }

  /** One more entry adds its piece behind `?` or `&`. */
  lemma QueryStringAppend(sel: Assoc, kv: (string, string))
    ensures QueryString(sel + [kv]) == QueryString(sel) + (if sel == [] then "?" else "&") + EncodePair(kv)
  {
    RenderQueryAppend(sel, kv);
    if sel != [] {
      var r := RenderQuery(sel);
      assert "?" + (r + "&" + EncodePair(kv)) == "?" + r + "&" + EncodePair(kv);
    }
  }

  /** The query string of generate_url, for the selected parameters. */
  function QueryOf(params: Assoc): string {
    QueryString(Selected(params))
  }

  /** `generate_url($params)`: the base URL, followed by a query string that
      starts with `?` unless every parameter value is falsy. As for Selected,
      a `params` with a repeated name is outside the model. */
  function GenerateUrl(ctx: ServerContext, params: Assoc): (r: string)
    ensures r == BaseUrl(ctx) <==> forall i :: 0 <= i < |params| ==> !Truthy(params[i].1)
    ensures r != BaseUrl(ctx) ==> |r| > |BaseUrl(ctx)| && r[..|BaseUrl(ctx)| + 1] == BaseUrl(ctx) + "?"
  {
    QueryEmptyIffAllFalsy(params);
    var b := BaseUrl(ctx);
    var q := QueryOf(params);
    assert q != "" ==> (b + q)[..|b| + 1] == b + [q[0]];
    b + q
  }

  lemma SelectedStep(params: Assoc, i: nat)
    requires i < |params|
    ensures Selected(params[i..]) == Selected(params[i + 1..]) + (if Truthy(params[i].1) then [(EmittedKey(params, i), params[i].1)] else [])
    ensures IntegerKeyCount(params[i..]) == (if IsIntegerKey(params[i].0) then 1 else 0) + IntegerKeyCount(params[i + 1..])
  {
    assert params[i..][1..] == params[i + 1..];
  }

  /** Taking one more parameter from the front of the suffix `params[i..]`
      adds at most one piece at the end of the query string. */
  lemma QueryOfStep(params: Assoc, i: nat)
    requires i < |params|
    ensures !Truthy(params[i].1) ==> QueryOf(params[i..]) == QueryOf(params[i + 1..])
    ensures Truthy(params[i].1) ==>
      QueryOf(params[i..]) == QueryOf(params[i + 1..]) + (if Selected(params[i + 1..]) == [] then "?" else "&")
        + EncodePair((EmittedKey(params, i), params[i].1))
  {
    SelectedStep(params, i);
    var rest := Selected(params[i + 1..]);
    if Truthy(params[i].1) {
      QueryStringAppend(rest, (EmittedKey(params, i), params[i].1));
    } else {
      assert rest + [] == rest;
    }
  }

  /** The `foreach (array_reverse($params) as $key => $val)` loop of
      generate_url as written: walks the parameters from the last to the
      first, numbering integer keys 0, 1, ... as it meets them, skips falsy
      values and switches the delimiter from `?` to `&` after the first one
      emitted. */
  method BuildQuery(params: Assoc) returns (q: string)
    ensures q == QueryOf(params)
  {
    q := "";
    var delm := "?";
    var i := |params|;
    var n := 0;
    while i > 0
      invariant 0 <= i <= |params|
      invariant n == IntegerKeyCount(params[i..])
      invariant q == QueryOf(params[i..])
      invariant delm == if Selected(params[i..]) == [] then "?" else "&"
      decreases i
    {
      i := i - 1;
      var (name, val) := params[i];
      var key := name;
      if IsIntegerKey(name) {
        key := DecimalString(n);
        n := n + 1;
      }
      QueryOfStep(params, i);
      SelectedStep(params, i);
      if Truthy(val) {
        q := q + delm + EncodePair((PrefixKey(key), val));
        delm := "&";
      }
    }
    assert params[0..] == params;
  }

  lemma PrefixKeyUnreserved(k: string)
    requires AllUnreserved(k)
    ensures AllUnreserved(PrefixKey(k))
  {
    if !(|k| > 0 && k[0] == '_') {
      assert forall i :: 1 <= i < |PrefixKey(k)| ==> PrefixKey(k)[i] == k[i - 1];
    }
  }

  /** A renumbered key is a digit string, so plain names stay plain. */
  lemma EmittedKeyUnreserved(k: string, n: nat)
    requires AllUnreserved(k)
    ensures AllUnreserved(PrefixKey(ReversedKey(k, n)))
  {
    PrefixKeyUnreserved(ReversedKey(k, n));
  }

  lemma EncodePlainPair(k: string, v: string)
    requires AllUnreserved(k) && AllUnreserved(v)
    ensures EncodePair((k, v)) == k + "=" + v
  {
    UrlEncodeKeepsUnreserved(k);
    UrlEncodeKeepsUnreserved(v);
  }

  /** A single plain parameter renders as `?_name=value`, an integer-like
      name as `?_0=value`. */
  lemma OneParamQuery(k: string, v: string)
    requires AllUnreserved(k) && AllUnreserved(v) && Truthy(v)
    ensures QueryOf([(k, v)]) == "?" + PrefixKey(ReversedKey(k, 0)) + "=" + v
  {
    var ps := [(k, v)];
    assert ps[1..] == [] && ps[0..] == ps;
    SelectedStep(ps, 0);
    EmittedKeyUnreserved(k, 0);
    EncodePlainPair(PrefixKey(ReversedKey(k, 0)), v);
  }

  /** Two plain parameters render in reverse order: `?_second=..&_first=..`,
      the first one's name renumbered behind the second one's when both are
      integer-like. */
  lemma TwoParamQuery(k1: string, v1: string, k2: string, v2: string)
    requires AllUnreserved(k1) && AllUnreserved(v1) && Truthy(v1)
    requires AllUnreserved(k2) && AllUnreserved(v2) && Truthy(v2)
    ensures QueryOf([(k1, v1), (k2, v2)])
      == ("?" + PrefixKey(ReversedKey(k2, 0)) + "=" + v2)
         + "&" + (PrefixKey(ReversedKey(k1, if IsIntegerKey(k2) then 1 else 0)) + "=" + v1)
  {
    var ps := [(k1, v1), (k2, v2)];
    assert ps[0..] == ps && ps[1..] == [(k2, v2)];
    var second := QueryOf([(k2, v2)]);
    assert second == "?" + PrefixKey(ReversedKey(k2, 0)) + "=" + v2 by {
      OneParamQuery(k2, v2);
    }
    assert Selected([(k2, v2)]) != [] by {
      assert [(k2, v2)][1..] == [] && [(k2, v2)][0..] == [(k2, v2)];
      SelectedStep([(k2, v2)], 0);
    }
    var n := if IsIntegerKey(k2) then 1 else 0;
    assert IntegerKeyCount(ps[1..]) == n by {
      assert [(k2, v2)][1..] == [];
    }
    var first := EncodePair((PrefixKey(ReversedKey(k1, n)), v1));
    assert first == PrefixKey(ReversedKey(k1, n)) + "=" + v1 by {
      EmittedKeyUnreserved(k1, n);
      EncodePlainPair(PrefixKey(ReversedKey(k1, n)), v1);
    }
    QueryOfStep(ps, 0);
    assert QueryOf(ps) == second + "&" + first;
  }

  /** The first two keys `array_reverse` hands out, with their underscores. */
  lemma FirstRenumberedNames(k1: string, k2: string)
    requires IsIntegerKey(k1) && IsIntegerKey(k2)
    ensures PrefixKey(ReversedKey(k2, 0)) == "_0" && PrefixKey(ReversedKey(k1, 1)) == "_1"
  {
    var zero, one := DecimalString(0), DecimalString(1);
    assert zero == "0" && one == "1";
  }

  /** Two integer-like names are renumbered by array_reverse, so the values
      change places while the names read `_0` and `_1` in order. */
  lemma TwoIntegerNames(k1: string, v1: string, k2: string, v2: string)
    requires IsIntegerKey(k1) && AllUnreserved(v1) && Truthy(v1)
    requires IsIntegerKey(k2) && AllUnreserved(v2) && Truthy(v2)
    ensures QueryOf([(k1, v1), (k2, v2)]) == "?_0=" + v2 + "&_1=" + v1
  {
    IntegerKeyUnreserved(k1);
    IntegerKeyUnreserved(k2);
    TwoParamQuery(k1, v1, k2, v2);
    FirstRenumberedNames(k1, k2);
    assert ("?" + "_0" + "=" + v2) + "&" + ("_1" + "=" + v1) == "?_0=" + v2 + "&_1=" + v1;
  }

  /** `array('0' => 'a', '1' => 'b')` yields `?_0=b&_1=a`. */
  lemma IntegerNamesRenumbered(params: Assoc, query: string)
    requires params == [("0", "a"), ("1", "b")]
    requires query == "?_0=b&_1=a"
    ensures QueryOf(params) == query
  {
    var zero, one := DecimalString(0), DecimalString(1);
    assert zero == "0" && one == "1";
    DecimalStringIsIntegerKey(0);
    DecimalStringIsIntegerKey(1);
    assert AllUnreserved("a") && AllUnreserved("b");
    TwoIntegerNames(zero, "a", one, "b");
  }

  /** Every parameter with a truthy value is emitted, with its value unchanged,
      under its (renumbered, prefixed) name. */
  lemma {:induction false} SelectedEmitsTruthy(params: Assoc, i: nat)
    requires i < |params| && Truthy(params[i].1)
    ensures (EmittedKey(params, i), params[i].1) in Selected(params)
    decreases |params|
  {
    if i > 0 {
      assert params[1..][i - 1] == params[i];
      assert params[1..][i..] == params[i + 1..];
      SelectedEmitsTruthy(params[1..], i - 1);
    }
  }

  /** Every emitted entry is a parameter with a truthy value, under its
      (renumbered, prefixed) name. */
  lemma {:induction false} SelectedFromTruthy(params: Assoc, e: (string, string))
    requires e in Selected(params)
    ensures exists i :: 0 <= i < |params| && Truthy(params[i].1) && e == (EmittedKey(params, i), params[i].1)
    decreases |params|
  {
    var kv := params[0];
    if e in Selected(params[1..]) {
      SelectedFromTruthy(params[1..], e);
      var j :| 0 <= j < |params[1..]| && Truthy(params[1..][j].1) && e == (EmittedKey(params[1..], j), params[1..][j].1);
      assert params[j + 1] == params[1..][j];
      assert params[1..][j + 1..] == params[j + 2..];
    } else {
      assert Truthy(kv.1) && e == (EmittedKey(params, 0), kv.1);
    }
  }

  /** Selecting from a concatenation selects from the second part first: the
      query lists later parameters before earlier ones, and the earlier ones'
      integer keys are numbered on from where the later ones' stop. */
  lemma {:induction false} SelectedReverses(a: Assoc, b: Assoc, n: nat)
    ensures SelectedFrom(a + b, n) == SelectedFrom(b, n) + SelectedFrom(a, n + IntegerKeyCount(b))
    decreases |a|
  {
    if a != [] {
      assert (a + b)[1..] == a[1..] + b;
      SelectedReverses(a[1..], b, n);
      IntegerKeyCountAppend(a[1..], b);
    } else {
      assert a + b == b;
    }
  }

  /** The query string is empty exactly when every parameter value is falsy. */
  lemma {:induction false} QueryEmptyIffAllFalsy(params: Assoc)
    ensures QueryOf(params) == "" <==> forall i :: 0 <= i < |params| ==> !Truthy(params[i].1)
    decreases |params|
  {
    if params != [] {
      QueryEmptyIffAllFalsy(params[1..]);
      assert forall i :: 1 <= i < |params| ==> params[1..][i - 1] == params[i];
      if Selected(params) == [] {
        assert !Truthy(params[0].1);
        assert Selected(params[1..]) == [];
      }
    }
  }

  /** A non-empty query string starts with `?` and parses back to the selected
      parameters, as many of them as `max_input_vars` lets through. */
  lemma QueryParsesBack(params: Assoc)
    requires Parseable(Selected(params))
    ensures QueryOf(params) != "" ==> QueryOf(params)[0] == '?'
    ensures QueryOf(params) != "" ==> ParseStr(QueryOf(params)[1..]) == FirstInputVars(Selected(params))
  {
    var sel := Selected(params);
    if sel != [] {
      assert QueryOf(params)[1..] == RenderQuery(sel);
      ParseStrInvertsRender(sel);
    }
  }

  /** The scheme of a `NAME/VERSION` protocol is NAME in lower case, plus `s`
      behind TLS. */
  lemma SchemeOfProtocol(ctx: ServerContext, name: string, version: string)
    requires ctx.protocol == name + "/" + version
    requires name != [] && '/' !in name
    ensures Scheme(ctx) == ToLower(name) + (if IsHttps(ctx) then "s" else "")
  {
    ToLowerAppend(name, "/");
    ToLowerAppend(name + "/", version);
    assert ToLower("/") == "/";
    assert '/' !in ToLower(name) by {
      forall i | 0 <= i < |name| ensures ToLower(name)[i] != '/' {
        assert name[i] != '/';
      }
    }
    StrLeftCutsAtFirst(ToLower(name), '/', ToLower(version));
  }

  /** The port a client uses for a URL of `scheme` whose port part is `segment`. */
  function EffectivePort(scheme: string, segment: string): string {
    if segment == "" then (if scheme == "https" then "443" else if scheme == "http" then "80" else "")
    else segment[1..]
  }

  /** Leaving out the default port never changes the port the URL addresses. */
  lemma EffectivePortIsServerPort(ctx: ServerContext, version: string)
    requires ctx.protocol == "HTTP/" + version
    ensures EffectivePort(Scheme(ctx), PortSegment(ctx)) == ctx.port
  {
    SchemeOfProtocol(ctx, "HTTP", version);
    assert ToLower("HTTP") == "http";
  }

  /** The path is the request URI cut at its first `?`. */
  lemma PathDropsQuery(ctx: ServerContext, path: string, query: string)
    requires ctx.requestUri == path + "?" + query
    requires path != [] && '?' !in path
    ensures Path(ctx) == path
  {
    StrLeftCutsAtFirst(path, '?', query);
  }
}
