/**
  URL encoding as PHP performs it on byte strings (`urlencode`, `urldecode`),
  PHP's ordered arrays with string keys, and `parse_str`, which turns a query
  string back into such an array. A PHP string is a byte string: the model
  writes it as a `string` whose characters each stand for one byte.
*/
module UrlCodec {
  import opened Wrappers
  import opened PhpStrings

  /** A PHP array with string keys and string values, in insertion order. */
  type Assoc = seq<(string, string)>

  function KeysOf(a: Assoc): set<string>
    decreases |a|
  {
    if a == [] then {} else {a[0].0} + KeysOf(a[1..])
  }

  /** No key appears twice, as in every PHP array. */
  predicate DistinctKeys(a: Assoc)
    decreases |a|
  {
    a == [] || (a[0].0 !in KeysOf(a[1..]) && DistinctKeys(a[1..]))
  }

  lemma {:induction false} KeysOfAppend(a: Assoc, kv: (string, string))
    ensures KeysOf(a + [kv]) == KeysOf(a) + {kv.0}
    decreases |a|
  {
    if a != [] {
      assert (a + [kv])[1..] == a[1..] + [kv];
      KeysOfAppend(a[1..], kv);
    } else {
      assert KeysOf([kv]) == {kv.0} + KeysOf([]);
    }
  }

  lemma {:induction false} InKeysOf(a: Assoc, i: nat)
    requires i < |a|
    ensures a[i].0 in KeysOf(a)
    decreases |a|
  {
    if i > 0 {
      assert a[1..][i - 1] == a[i];
      InKeysOf(a[1..], i - 1);
    }
  }

  /** In an array with distinct names, the first name does not come back. */
  lemma HeadKeyUnique(a: Assoc)
    requires a != []
    ensures DistinctKeys(a) ==> forall i :: 1 <= i < |a| ==> a[i].0 != a[0].0
  {
    if DistinctKeys(a) {
      forall i | 1 <= i < |a| ensures a[i].0 != a[0].0 {
        assert a[1..][i - 1] == a[i];
        InKeysOf(a[1..], i - 1);
      }
    }
  }

  /** `$a[$k] = $v`: overwrites the entry for `k` where it stands, or appends a
      new entry at the end. */
  function Put(a: Assoc, k: string, v: string): (r: Assoc)
    ensures k !in KeysOf(a) ==> r == a + [(k, v)]
    ensures DistinctKeys(a) && k in KeysOf(a) ==>
      |r| == |a| && forall i :: 0 <= i < |a| ==> r[i] == (if a[i].0 == k then (k, v) else a[i])
    ensures KeysOf(r) == KeysOf(a) + {k}
    ensures |r| <= |a| + 1
    decreases |a|
  {
    if a == [] then
      assert KeysOf([(k, v)]) == {k} + KeysOf([]);
      [(k, v)]
    else if a[0].0 == k then
      var r := [(k, v)] + a[1..];
      assert r[1..] == a[1..];
      HeadKeyUnique(a);
      r
    else
      var r := [a[0]] + Put(a[1..], k, v);
      assert r[1..] == Put(a[1..], k, v);
      r
  }

  // ---------------------------------------------------------- integer keys

  predicate IsDigit(c: char) {
    '0' <= c <= '9'
  }

  predicate AllDigits(d: string) {
    forall i :: 0 <= i < |d| ==> IsDigit(d[i])
  }

  /** The number a string of decimal digits stands for. */
  function DecimalValue(d: string): nat
    requires AllDigits(d)
    decreases |d|
  {
    if d == [] then 0 else DecimalValue(d[..|d| - 1]) * 10 + (d[|d| - 1] as int - '0' as int)
  }

  /** The decimal form of `n`, without leading zeros (PHP's int-to-string). */
  function DecimalString(n: nat): (r: string)
    ensures r != [] && AllDigits(r)
    ensures r[0] != '0' || n == 0
    decreases n
  {
    if n < 10 then [('0' as int + n) as char]
    else DecimalString(n / 10) + [('0' as int + n % 10) as char]
  }

  /** Reading back the decimal form of `n` gives `n`. */
  lemma {:induction false} DecimalRoundTrip(n: nat)
    ensures DecimalValue(DecimalString(n)) == n
    decreases n
  {
    if n >= 10 {
      DecimalRoundTrip(n / 10);
      var d := DecimalString(n);
      assert d[..|d| - 1] == DecimalString(n / 10);
    }
  }

  /** PHP's largest integer, on 64-bit builds. */
  const PhpIntMax: int := 0x7FFF_FFFF_FFFF_FFFF

  /** A name that a PHP array stores as an integer key: the canonical decimal
      form of an integer in PHP's range. That is "0", or digits without a
      leading zero, optionally behind a `-`; "-0" and "007" stay strings. */
  predicate IsIntegerKey(k: string) {
    var neg := |k| > 0 && k[0] == '-';
    var d := if neg then k[1..] else k;
    && d != []
    && AllDigits(d)
    && (d[0] != '0' || (d == "0" && !neg))
    && DecimalValue(d) <= (if neg then PhpIntMax + 1 else PhpIntMax)
  }

  /** Integer keys are written with digits and a minus sign only, which
      urlencode keeps. */
  lemma IntegerKeyUnreserved(k: string)
    requires IsIntegerKey(k)
    ensures AllUnreserved(k)
  {
    if |k| > 0 && k[0] == '-' {
      assert forall i :: 1 <= i < |k| ==> k[i] == k[1..][i - 1];
    }
  }

  /** A name that starts with neither a digit nor a minus sign stays a
      string key. */
  lemma NotIntegerKey(k: string)
    requires k != [] && !IsDigit(k[0]) && k[0] != '-'
    ensures !IsIntegerKey(k)
  {
    assert !AllDigits(k);
  }

  /** Every natural number in range is written as an integer key. */
  lemma DecimalStringIsIntegerKey(n: nat)
    requires n <= PhpIntMax
    ensures IsIntegerKey(DecimalString(n))
  {
    DecimalRoundTrip(n);
    var d := DecimalString(n);
    assert d[0] != '-';
    if d[0] == '0' {
      assert n == 0;
    }
  }

  predicate IsByteString(s: string) {
    forall i :: 0 <= i < |s| ==> s[i] as int < 256
  }

  /** The bytes `urlencode` leaves as they are. */
  predicate Unreserved(c: char) {
    || 'a' <= c <= 'z' || 'A' <= c <= 'Z' || '0' <= c <= '9'
    || c == '-' || c == '_' || c == '.'
  }

  function HexDigit(n: nat): char
    requires n < 16
  {
    if n < 10 then ('0' as int + n) as char else ('A' as int + n - 10) as char
  }

  predicate IsHexDigit(c: char) {
    '0' <= c <= '9' || 'A' <= c <= 'F' || 'a' <= c <= 'f'
  }

  function HexValue(c: char): (n: nat)
    requires IsHexDigit(c)
    ensures n < 16
  {
    if '0' <= c <= '9' then c as int - '0' as int
    else if 'A' <= c <= 'F' then c as int - 'A' as int + 10
    else c as int - 'a' as int + 10
  }

  /** `urlencode` of one byte: unreserved bytes stay, a space becomes `+`, every
      other byte becomes `%` and two upper-case hexadecimal digits. */
  function EncodeChar(c: char): (r: string)
    ensures '&' !in r && '=' !in r && '?' !in r
  {
    if Unreserved(c) then [c]
    else if c == ' ' then "+"
    else
      var b := c as int % 256;
      ['%', HexDigit(b / 16), HexDigit(b % 16)]
  }

  /** `urlencode`. Its output never contains the separators of a query string. */
  function UrlEncode(s: string): (r: string)
    ensures '&' !in r && '=' !in r && '?' !in r
    decreases |s|
  {
    if s == [] then [] else EncodeChar(s[0]) + UrlEncode(s[1..])
  }

  predicate AllUnreserved(s: string) {
    forall i :: 0 <= i < |s| ==> Unreserved(s[i])
  }

  /** `urlencode` leaves a string of unreserved bytes as it is. */
  lemma {:induction false} UrlEncodeKeepsUnreserved(s: string)
    requires AllUnreserved(s)
    ensures UrlEncode(s) == s
    decreases |s|
  {
    if s != [] {
      UrlEncodeKeepsUnreserved(s[1..]);
      assert [s[0]] + s[1..] == s;
    }
  }

  /** `urldecode`: `+` is a space, `%` with two hexadecimal digits is that byte,
      and every other character (a stray `%` included) stands for itself. */
  function UrlDecode(s: string): string
    decreases |s|
  {
    if s == [] then []
    else if s[0] == '+' then [' '] + UrlDecode(s[1..])
    else if s[0] == '%' && |s| >= 3 && IsHexDigit(s[1]) && IsHexDigit(s[2]) then
      [(HexValue(s[1]) * 16 + HexValue(s[2])) as char] + UrlDecode(s[3..])
    else [s[0]] + UrlDecode(s[1..])
  }

  lemma DecodeEncodedChar(c: char, rest: string)
    requires c as int < 256
    ensures UrlDecode(EncodeChar(c) + rest) == [c] + UrlDecode(rest)
  {
    var e := EncodeChar(c) + rest;
    if Unreserved(c) {
      assert e[1..] == rest;
    } else if c == ' ' {
      assert e[1..] == rest;
    } else {
      var b := c as int % 256;
      assert b == c as int;
      var hi, lo := HexDigit(b / 16), HexDigit(b % 16);
      assert IsHexDigit(hi) && HexValue(hi) == b / 16;
      assert IsHexDigit(lo) && HexValue(lo) == b % 16;
      assert e[0] == '%' && e[1] == hi && e[2] == lo;
      assert e[3..] == rest;
    }
  }

  /** `urldecode` undoes `urlencode` on every byte string. */
  lemma {:induction false} UrlDecodeInvertsEncode(s: string)
    requires IsByteString(s)
    ensures UrlDecode(UrlEncode(s)) == s
    decreases |s|
  {
    if s != [] {
      assert IsByteString(s[1..]) by {
        forall i | 0 <= i < |s[1..]| ensures s[1..][i] as int < 256 {
          assert s[1..][i] == s[i + 1];
        }
      }
      DecodeEncodedChar(s[0], UrlEncode(s[1..]));
      UrlDecodeInvertsEncode(s[1..]);
      assert [s[0]] + s[1..] == s;
    }
  }

  /** Cuts `s` at every `sep`; there is always at least one piece. */
  function Split(s: string, sep: char): (r: seq<string>)
    ensures |r| >= 1
    decreases |s|
  {
    if s == [] then [[]]
    else
      var rest := Split(s[1..], sep);
      if s[0] == sep then [[]] + rest else [[s[0]] + rest[0]] + rest[1..]
  }

  /** Glues `ps` together with `sep` between neighbours. */
  function Join(ps: seq<string>, sep: char): string
    decreases |ps|
  {
    if |ps| == 0 then []
    else if |ps| == 1 then ps[0]
    else ps[0] + [sep] + Join(ps[1..], sep)
  }

  lemma {:induction false} SplitWithoutSep(p: string, sep: char)
    requires sep !in p
    ensures Split(p, sep) == [p]
    decreases |p|
  {
    if p != [] {
      SplitWithoutSep(p[1..], sep);
      assert [p[0]] + p[1..] == p;
    }
  }

  lemma {:induction false} SplitAtFirstSep(p: string, sep: char, t: string)
    requires sep !in p
    ensures Split(p + [sep] + t, sep) == [p] + Split(t, sep)
    decreases |p|
  {
    var s := p + [sep] + t;
    if p == [] {
      assert s[1..] == t;
    } else {
      assert s[1..] == p[1..] + [sep] + t;
      SplitAtFirstSep(p[1..], sep, t);
      assert [p[0]] + p[1..] == p;
    }
  }

  /** Splitting undoes joining when no piece contains the separator. */
  lemma {:induction false} SplitInvertsJoin(ps: seq<string>, sep: char)
    requires |ps| >= 1
    requires forall i :: 0 <= i < |ps| ==> sep !in ps[i]
    ensures Split(Join(ps, sep), sep) == ps
    decreases |ps|
  {
    if |ps| == 1 {
      SplitWithoutSep(ps[0], sep);
    } else {
      SplitAtFirstSep(ps[0], sep, Join(ps[1..], sep));
      SplitInvertsJoin(ps[1..], sep);
      assert [ps[0]] + ps[1..] == ps;
    }
  }

  /** One `name=value` piece of a query string, both halves URL-decoded; the
      name ends at the first `=`, and a piece without `=` has the empty value. */
  function ParsePiece(p: string): (string, string) {
    match StrPos(p, "=")
    case Some(k) => (UrlDecode(p[..k]), UrlDecode(p[k + 1..]))
    case None => (UrlDecode(p), "")
  }

  /** Stores one piece; a piece whose name is empty is dropped. */
  function PutPiece(a: Assoc, p: string): Assoc {
    var kv := ParsePiece(p);
    if kv.0 == "" then a else Put(a, kv.0, kv.1)
  }

  function PutAll(a: Assoc, ps: seq<string>): Assoc
    decreases |ps|
  {
    if ps == [] then a else PutAll(PutPiece(a, ps[0]), ps[1..])
  }

  /** Storing pieces adds at most one entry per piece. */
  lemma {:induction false} PutAllLength(a: Assoc, ps: seq<string>)
    ensures |PutAll(a, ps)| <= |a| + |ps|
    decreases |ps|
  {
    if ps != [] {
      PutAllLength(PutPiece(a, ps[0]), ps[1..]);
    }
  }

  /** The default of PHP's `max_input_vars` setting. */
  const MaxInputVars: nat := 1000

  /** The pieces `parse_str` reads from `ps`: PHP's tokenizer skips empty
      pieces, and once `budget` non-empty pieces have been read it stops at
      the next one, with a warning. */
  function ReadPieces(ps: seq<string>, budget: nat): (r: seq<string>)
    ensures |r| <= budget && |r| <= |ps|
    ensures forall i :: 0 <= i < |r| ==> r[i] != ""
    decreases |ps|
  {
    if ps == [] then []
    else if ps[0] == "" then ReadPieces(ps[1..], budget)
    else if budget == 0 then []
    else [ps[0]] + ReadPieces(ps[1..], budget - 1)
  }

  /** Without empty pieces, exactly the first `budget` pieces are read. */
  lemma {:induction false} ReadPiecesOfNonEmpty(ps: seq<string>, budget: nat)
    requires forall i :: 0 <= i < |ps| ==> ps[i] != ""
    ensures ReadPieces(ps, budget) == if |ps| <= budget then ps else ps[..budget]
    decreases |ps|
  {
    if ps != [] && budget > 0 {
      assert forall i :: 0 <= i < |ps[1..]| ==> ps[1..][i] == ps[i + 1];
      ReadPiecesOfNonEmpty(ps[1..], budget - 1);
      if |ps| > budget {
        assert ps[..budget] == [ps[0]] + ps[1..][..budget - 1];
      } else {
        assert ps == [ps[0]] + ps[1..];
      }
    }
  }

  /** The entries of `a` that survive `parse_str`'s `max_input_vars` limit. */
  function FirstInputVars(a: Assoc): (r: Assoc)
    ensures |r| <= MaxInputVars && |r| <= |a|
    ensures r == a[..|r|]
    ensures |a| <= MaxInputVars ==> r == a
    ensures |a| > MaxInputVars ==> |r| == MaxInputVars
  {
    if |a| <= MaxInputVars then a else a[..MaxInputVars]
  }

  /** Storing keeps the names distinct. */
  lemma {:induction false} PutKeepsDistinct(a: Assoc, k: string, v: string)
    requires DistinctKeys(a)
    ensures DistinctKeys(Put(a, k, v))
    decreases |a|
  {
    if a != [] && a[0].0 != k {
      PutKeepsDistinct(a[1..], k, v);
      var r := Put(a, k, v);
      assert r[1..] == Put(a[1..], k, v);
    } else if a != [] {
      assert Put(a, k, v)[1..] == a[1..];
    }
  }

  /** Storing pieces keeps the names distinct and never adds the empty name. */
  lemma {:induction false} PutAllKeepsDistinct(a: Assoc, ps: seq<string>)
    requires DistinctKeys(a) && "" !in KeysOf(a)
    ensures DistinctKeys(PutAll(a, ps)) && "" !in KeysOf(PutAll(a, ps))
    decreases |ps|
  {
    if ps != [] {
      var kv := ParsePiece(ps[0]);
      if kv.0 != "" {
        PutKeepsDistinct(a, kv.0, kv.1);
      }
      PutAllKeepsDistinct(PutPiece(a, ps[0]), ps[1..]);
    }
  }

  /** `parse_str($q, $result)`: the non-empty pieces between `&` in order, at
      most MaxInputVars of them, a later piece overwriting an earlier one with
      the same name. The result is a PHP array, so its names are distinct, and
      the empty name never occurs. */
  function ParseStr(q: string): (r: Assoc)
    ensures DistinctKeys(r)
    ensures "" !in KeysOf(r)
    ensures |r| <= MaxInputVars
  {
    var ps := ReadPieces(Split(q, '&'), MaxInputVars);
    PutAllKeepsDistinct([], ps);
    PutAllLength([], ps);
    PutAll([], ps)
  }

  /** `urlencode($k) . '=' . urlencode($v)`. */
  function EncodePair(kv: (string, string)): (r: string)
    ensures '&' !in r
  {
    UrlEncode(kv.0) + "=" + UrlEncode(kv.1)
  }

  function Pieces(a: Assoc): (r: seq<string>)
    ensures |r| == |a|
    ensures forall i :: 0 <= i < |a| ==> r[i] == EncodePair(a[i])
    decreases |a|
  {
    if a == [] then [] else [EncodePair(a[0])] + Pieces(a[1..])
  }

  /** `k1=v1&k2=v2&...`, every name and value URL-encoded. */
  function RenderQuery(a: Assoc): string {
    Join(Pieces(a), '&')
  }

  lemma {:induction false} JoinAppend(ps: seq<string>, p: string, sep: char)
    requires |ps| >= 1
    ensures Join(ps + [p], sep) == Join(ps, sep) + [sep] + p
    decreases |ps|
  {
    if |ps| > 1 {
      assert (ps + [p])[1..] == ps[1..] + [p];
      JoinAppend(ps[1..], p, sep);
    }
  }

  lemma PiecesAppend(a: Assoc, kv: (string, string))
    ensures Pieces(a + [kv]) == Pieces(a) + [EncodePair(kv)]
  {
  }

  /** Rendering one more entry adds one more `&`-separated piece. */
  lemma RenderQueryAppend(a: Assoc, kv: (string, string))
    ensures RenderQuery(a + [kv]) == if a == [] then EncodePair(kv) else RenderQuery(a) + "&" + EncodePair(kv)
  {
    PiecesAppend(a, kv);
    if a != [] {
      JoinAppend(Pieces(a), EncodePair(kv), '&');
    }
  }

  /** A name `parse_str` keeps as it is: not empty, and without the space, dot
      and bracket that PHP rewrites in variable names, and without the NUL
      byte at which PHP cuts a name off. */
  predicate PlainKey(k: string) {
    k != "" && forall i :: 0 <= i < |k| ==> k[i] != ' ' && k[i] != '.' && k[i] != '[' && k[i] != '\0'
  }

  /** An entry whose name and value are byte strings and whose name is plain. */
  predicate PlainEntry(kv: (string, string)) {
    PlainKey(kv.0) && IsByteString(kv.0) && IsByteString(kv.1)
  }

  /** An array that survives rendering and parsing unchanged. */
  predicate Parseable(a: Assoc) {
    DistinctKeys(a) && forall i :: 0 <= i < |a| ==> PlainEntry(a[i])
  }

  lemma {:induction false} KeysOfPrefix(a: Assoc, m: nat)
    requires m <= |a|
    ensures KeysOf(a[..m]) <= KeysOf(a)
    decreases |a|
  {
    if m > 0 {
      assert a[..m][1..] == a[1..][..m - 1];
      KeysOfPrefix(a[1..], m - 1);
    }
  }

  /** What survives of a parseable array is parseable. */
  lemma {:induction false} ParseablePrefix(a: Assoc, m: nat)
    requires Parseable(a) && m <= |a|
    ensures Parseable(a[..m])
    decreases |a|
  {
    if m > 0 {
      assert a[..m][1..] == a[1..][..m - 1];
      assert Parseable(a[1..]) by {
        assert forall i :: 0 <= i < |a[1..]| ==> a[1..][i] == a[i + 1];
      }
      ParseablePrefix(a[1..], m - 1);
      KeysOfPrefix(a[1..], m - 1);
    }
  }

  lemma ParsePieceInvertsEncodePair(kv: (string, string))
    requires IsByteString(kv.0) && IsByteString(kv.1)
    ensures ParsePiece(EncodePair(kv)) == kv
  {
    var e, f := UrlEncode(kv.0), UrlEncode(kv.1);
    var p := e + "=" + f;
    assert OccursAt(p, "=", |e|) by {
      assert p[|e|..|e| + 1] == "=";
    }
    forall j: nat | j < |e| ensures !OccursAt(p, "=", j) {
      assert p[j..j + 1] == [e[j]];
    }
    assert FirstOccurrence(p, "=", |e|);
    var r := StrPos(p, "=");
    FirstOccurrenceUnique(p, "=", r.value, |e|);
    assert p[..|e|] == e;
    assert p[|e| + 1..] == f;
    UrlDecodeInvertsEncode(kv.0);
    UrlDecodeInvertsEncode(kv.1);
  }

  lemma PutPieceOfPair(b: Assoc, kv: (string, string))
    requires PlainEntry(kv)
    requires kv.0 !in KeysOf(b)
    ensures PutPiece(b, EncodePair(kv)) == b + [kv]
  {
    ParsePieceInvertsEncodePair(kv);
  }

  lemma AppendFirst(b: Assoc, a: Assoc)
    requires a != []
    ensures (b + [a[0]]) + a[1..] == b + a
  {
    assert a == [a[0]] + a[1..];
  }

  lemma {:induction false} PutAllAppends(b: Assoc, a: Assoc)
    requires Parseable(a)
    requires KeysOf(b) !! KeysOf(a)
    ensures PutAll(b, Pieces(a)) == b + a
    decreases |a|
  {
    if a != [] {
      var b' := b + [a[0]];
      PutPieceOfPair(b, a[0]);
      assert Pieces(a) == [EncodePair(a[0])] + Pieces(a[1..]);
      assert PutAll(b, Pieces(a)) == PutAll(b', Pieces(a[1..]));
      KeysOfAppend(b, a[0]);
      assert KeysOf(a) == {a[0].0} + KeysOf(a[1..]);
      assert a[0].0 !in KeysOf(a[1..]) && DistinctKeys(a[1..]);
      assert KeysOf(b') !! KeysOf(a[1..]);
      assert Parseable(a[1..]) by {
        forall i | 0 <= i < |a[1..]| ensures PlainEntry(a[1..][i]) {
          assert a[1..][i] == a[i + 1];
        }
      }
      PutAllAppends(b', a[1..]);
      AppendFirst(b, a);
    }
  }

  /** `parse_str` recovers an array of plain names that was rendered as a
      query string of URL-encoded pieces, as far as `max_input_vars` lets it:
      the whole array up to MaxInputVars entries, its first MaxInputVars
      entries beyond. */
  lemma ParseStrInvertsRender(a: Assoc)
    requires Parseable(a)
    ensures ParseStr(RenderQuery(a)) == FirstInputVars(a)
    ensures |a| <= MaxInputVars ==> ParseStr(RenderQuery(a)) == a
  {
    if a == [] {
      assert Split("", '&') == [""];
    } else {
      var ps := Pieces(a);
      SplitInvertsJoin(ps, '&');
      assert forall i :: 0 <= i < |ps| ==> |ps[i]| > 0;
      ReadPiecesOfNonEmpty(ps, MaxInputVars);
      var b := FirstInputVars(a);
      assert ReadPieces(ps, MaxInputVars) == Pieces(b);
      ParseablePrefix(a, |b|);
      PutAllAppends([], b);
    }
  }
}
